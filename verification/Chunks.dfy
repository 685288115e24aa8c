/** The chunks of an evbuffer and the linked list they form (evbuffer-internal.h).

    Chunks live in an explicit heap, a map from addresses to chunks, because the C
    code frees them: following a pointer to a freed chunk, and forgetting to free
    one, are both expressible here, and both are excluded by the proofs. */
module Chunks {
  import opened Bytes

  const MIN_BUFFER_SIZE: nat := 1024
  const CHAIN_SIZE: nat := 48   // sizeof(struct evbuffer_chain), 64-bit pointers
  const MAX_TO_REALIGN_IN_EXPAND: nat := 2048

  type Ptr = nat
  const NULL: Ptr := 0

  /** struct evbuffer_chain: mem[misalign..misalign + off] is its data. */
  datatype Chunk = Chunk(next: Ptr, mem: seq<byte>, misalign: nat, off: nat) {
    predicate Fits() {
      0 < |mem| && misalign + off <= |mem|
    }

    function Data(): (d: seq<byte>)
      requires Fits()
      ensures |d| == off
    {
      mem[misalign..misalign + off]
    }

    /** CHAIN_SPACE_LEN */
    function Space(): nat
      requires Fits()
    {
      |mem| - (misalign + off)
    }

    /** memcpy(mem + p, data) */
    function Store(p: nat, data: seq<byte>): (c: Chunk)
      requires p + |data| <= |mem|
      ensures |c.mem| == |mem| && c.mem[p..p + |data|] == data
      ensures c.mem[..p] == mem[..p] && c.mem[p + |data|..] == mem[p + |data|..]
    {
      this.(mem := mem[..p] + data + mem[p + |data|..])
    }

    /** Copy data into the space behind the data and count it as data. */
    function Append(data: seq<byte>): (c: Chunk)
      requires Fits() && |data| <= Space()
      ensures c.Fits() && c.Data() == Data() + data && c.next == next
    {
      Store(misalign + off, data).(off := off + |data|)
    }

    /** Copy data into the space before the data and count it as data. */
    function Prepend(data: seq<byte>): (c: Chunk)
      requires Fits() && |data| <= misalign
      ensures c.Fits() && c.Data() == data + Data() && c.next == next
    {
      Store(misalign - |data|, data).(misalign := misalign - |data|, off := off + |data|)
    }

    /** An empty chunk can count as empty at the beginning. */
    function Rear(): (c: Chunk)
      requires Fits()
      ensures c.Fits() && c.Data() == Data() && c.next == next && |c.mem| == |mem| && c.off == off
      ensures c.misalign == if off == 0 then |mem| else misalign
    {
      if off == 0 then this.(misalign := |mem|) else this
    }

    /** evbuffer_chain_align */
    function Align(): (c: Chunk)
      requires Fits()
      ensures c.Fits() && c.Data() == Data() && c.next == next && c.misalign == 0 && |c.mem| == |mem|
    {
      Store(0, Data()).(misalign := 0)
    }

    /** Drop the first n bytes of the data. */
    function Skip(n: nat): (c: Chunk)
      requires Fits() && n <= off
      ensures c.Fits() && c.Data() == Data()[n..] && c.next == next
    {
      this.(misalign := misalign + n, off := off - n)
    }

    /** evbuffer_chain_should_realign */
    predicate ShouldRealign(datlen: nat)
      requires Fits()
    {
      datlen <= |mem| - off && off < |mem| / 2 && off <= MAX_TO_REALIGN_IN_EXPAND
    }
  }

  function Pow2(k: nat): nat {
    if k == 0 then 1 else 2 * Pow2(k - 1)
  }

  /** evbuffer_chain_new: the next power-of-two allocation that holds the chunk. */
  method ChainNew(size: nat) returns (c: Chunk)
    ensures c.Fits() && c.Data() == [] && c.next == NULL && c.misalign == 0 && size <= |c.mem|
    ensures |c.mem| + 48 == 1024 || |c.mem| + 48 < 2 * (size + 48)
    ensures exists k :: |c.mem| + 48 == 1024 * Pow2(k)
  {
    var toAlloc := MIN_BUFFER_SIZE;
    ghost var k := 0;
    assert Pow2(0) == 1;
    while toAlloc < size + CHAIN_SIZE
      invariant MIN_BUFFER_SIZE <= toAlloc
      invariant toAlloc == MIN_BUFFER_SIZE || toAlloc < 2 * (size + CHAIN_SIZE)
      invariant toAlloc == MIN_BUFFER_SIZE * Pow2(k)
    {
      toAlloc, k := 2 * toAlloc, k + 1;
    }
    c := Chunk(NULL, seq(toAlloc - CHAIN_SIZE, _ => 0), 0, 0);
  }

  // ----- proper lists

  /** The chunk at index i is live and holds segs[i]. */
  ghost predicate ChunkAt(heap: map<Ptr, Chunk>, list: seq<Ptr>, segs: seq<seq<byte>>, i: nat) {
    && i < |list| && i < |segs|
    && list[i] != NULL && list[i] in heap
    && heap[list[i]].Fits() && heap[list[i]].Data() == segs[i]
  }

  /** The chunk at index i leads to the one behind it. */
  ghost predicate LinkAt(heap: map<Ptr, Chunk>, list: seq<Ptr>, i: nat) {
    && i < |list| && list[i] in heap
    && heap[list[i]].next == if i + 1 < |list| then list[i + 1] else NULL
  }

  ghost predicate Apart(list: seq<Ptr>, i: nat, j: nat) {
    i < |list| && j < |list| && list[i] != list[j]
  }

  ghost function Elements(list: seq<Ptr>): set<Ptr> {
    set p | p in list
  }

  /** list is a proper list in heap that ends with NULL, chunk i holds segs[i],
      and heap has no other chunk. */
  ghost predicate ListOf(heap: map<Ptr, Chunk>, list: seq<Ptr>, segs: seq<seq<byte>>) {
    && |segs| == |list|
    && heap.Keys == Elements(list)
    && (forall i, j | 0 <= i < j < |list| :: Apart(list, i, j))
    && (forall i | 0 <= i < |list| :: ChunkAt(heap, list, segs, i))
    && (forall i | 0 <= i < |list| :: LinkAt(heap, list, i))
  }

  lemma NoChunks()
    ensures ListOf(map[], [], [])
  {}

  /** In a proper list every chunk has one index. */
  lemma OneIndex(heap: map<Ptr, Chunk>, list: seq<Ptr>, segs: seq<seq<byte>>, i: nat)
    requires ListOf(heap, list, segs) && i < |list|
    ensures forall j | 0 <= j < |list| && list[j] == list[i] :: j == i
    ensures list[i] !in list[..i] && list[i] !in list[i + 1..]
  {
    forall j | 0 <= j < |list| && list[j] == list[i] ensures j == i {
      assert j < i ==> Apart(list, j, i);
      assert i < j ==> Apart(list, i, j);
    }
  }

  /** heap without the chunks i..n of list */
  ghost function Freed(heap: map<Ptr, Chunk>, list: seq<Ptr>, i: nat, n: nat): (h: map<Ptr, Chunk>)
    requires i <= n <= |list|
    ensures h.Keys <= heap.Keys
  {
    heap - Elements(list[i..n])
  }

  lemma NothingFreed(heap: map<Ptr, Chunk>, list: seq<Ptr>, i: nat)
    requires i <= |list|
    ensures Freed(heap, list, i, i) == heap
  {
    assert list[i..i] == [];
    assert Elements([]) == {};
  }

  lemma OneMoreFreed(heap: map<Ptr, Chunk>, list: seq<Ptr>, segs: seq<seq<byte>>, i: nat, n: nat)
    requires ListOf(heap, list, segs) && i <= n < |list|
    ensures list[n] in Freed(heap, list, i, n) && Freed(heap, list, i, n)[list[n]] == heap[list[n]]
    ensures Freed(heap, list, i, n + 1) == Freed(heap, list, i, n) - {list[n]}
  {
    OneIndex(heap, list, segs, n);
    assert ChunkAt(heap, list, segs, n);
    assert list[i..n] == list[..n][i..];
    assert list[i..n + 1] == list[i..n] + [list[n]];
    assert Elements(list[i..n + 1]) == Elements(list[i..n]) + {list[n]};
  }

  /** *ch = p, where the slot ch is &buf->first if s is NULL, else &s->next. */
  function SetSlot(heap: map<Ptr, Chunk>, s: Ptr, p: Ptr): (h: map<Ptr, Chunk>)
    requires s != NULL ==> s in heap
    ensures h.Keys == heap.Keys
  {
    if s == NULL then heap else heap[s := heap[s].(next := p)]
  }

  /** The owner of the slot of index j. */
  ghost function SlotOf(list: seq<Ptr>, j: nat): Ptr
    requires j <= |list|
  {
    if j == 0 then NULL else list[j - 1]
  }

  /** What the slot of index j holds. */
  ghost function InSlot(list: seq<Ptr>, j: nat): Ptr
    requires j <= |list|
  {
    if j < |list| then list[j] else NULL
  }

  /** The first j chunks, without the others. */
  lemma CutTail(heap: map<Ptr, Chunk>, list: seq<Ptr>, segs: seq<seq<byte>>, j: nat)
    requires ListOf(heap, list, segs) && j <= |list|
    ensures var h := heap - Elements(list[j..]);
            && (SlotOf(list, j) != NULL ==> SlotOf(list, j) in h)
            && ListOf(SetSlot(h, SlotOf(list, j), NULL), list[..j], segs[..j])
    ensures SlotOf(list, j) == NULL <==> j == 0
  {
    var h := heap - Elements(list[j..]);
    var l, g, s := list[..j], segs[..j], SlotOf(list, j);
    forall k | 0 <= k < j ensures list[k] in h && h[list[k]] == heap[list[k]] && list[k] != NULL {
      assert ChunkAt(heap, list, segs, k);
      OneIndex(heap, list, segs, k);
      assert list[k] !in list[j..];
    }
    assert 0 < j ==> list[j - 1] in h;
    var h' := SetSlot(h, s, NULL);
    forall k | 0 <= k < j ensures ChunkAt(h', l, g, k) && LinkAt(h', l, k) {
      assert ChunkAt(heap, list, segs, k) && LinkAt(heap, list, k);
      OneIndex(heap, list, segs, j - 1);
    }
    forall i, k | 0 <= i < k < j ensures Apart(l, i, k) {
      assert Apart(list, i, k);
    }
    assert h'.Keys == Elements(l);
  }

  /** The chunks from index k on, without those before. */
  lemma DropFront(heap: map<Ptr, Chunk>, list: seq<Ptr>, segs: seq<seq<byte>>, k: nat)
    requires ListOf(heap, list, segs) && k <= |list|
    ensures ListOf(heap - Elements(list[..k]), list[k..], segs[k..])
    ensures forall i | k <= i < |list| :: list[i] in heap && list[i] !in list[..k]
  {
    var h, l, g := heap - Elements(list[..k]), list[k..], segs[k..];
    forall i | k <= i < |list| ensures list[i] in heap && list[i] !in list[..k] && list[i] in h {
      assert ChunkAt(heap, list, segs, i);
      OneIndex(heap, list, segs, i);
      assert list[i] !in list[..k];
    }
    forall i | 0 <= i < |l| ensures ChunkAt(h, l, g, i) && LinkAt(h, l, i) {
      assert ChunkAt(heap, list, segs, k + i) && LinkAt(heap, list, k + i);
    }
    forall i, j | 0 <= i < j < |l| ensures Apart(l, i, j) {
      assert Apart(list, k + i, k + j);
    }
    assert h.Keys == Elements(l);
  }

  /** One chunk in front of a list. */
  lemma PushFront(heap: map<Ptr, Chunk>, list: seq<Ptr>, segs: seq<seq<byte>>, p: Ptr, c: Chunk)
    requires ListOf(heap, list, segs) && p != NULL && p !in heap
    requires c.Fits() && c.next == InSlot(list, 0)
    ensures ListOf(heap[p := c], [p] + list, [c.Data()] + segs)
  {
    var h, l, g := heap[p := c], [p] + list, [c.Data()] + segs;
    forall i | 0 <= i < |l| ensures ChunkAt(h, l, g, i) && LinkAt(h, l, i) {
      if 0 < i {
        assert ChunkAt(heap, list, segs, i - 1) && LinkAt(heap, list, i - 1);
      }
    }
    forall i, j | 0 <= i < j < |l| ensures Apart(l, i, j) {
      assert ChunkAt(heap, list, segs, j - 1);
      assert 0 < i ==> Apart(list, i - 1, j - 1);
    }
    assert h.Keys == Elements(l);
  }

  /** One list behind another. */
  lemma Join(h1: map<Ptr, Chunk>, l1: seq<Ptr>, g1: seq<seq<byte>>, h2: map<Ptr, Chunk>, l2: seq<Ptr>,
             g2: seq<seq<byte>>)
    requires ListOf(h1, l1, g1) && ListOf(h2, l2, g2) && h1.Keys !! h2.Keys
    ensures var s := SlotOf(l1, |l1|);
            && (s != NULL ==> s in h1 + h2)
            && ListOf(SetSlot(h1 + h2, s, InSlot(l2, 0)), l1 + l2, g1 + g2)
  {
    var s, l, g := SlotOf(l1, |l1|), l1 + l2, g1 + g2;
    assert l1 != [] ==> ChunkAt(h1, l1, g1, |l1| - 1);
    var h := SetSlot(h1 + h2, s, InSlot(l2, 0));
    forall i | 0 <= i < |l| ensures ChunkAt(h, l, g, i) && LinkAt(h, l, i) {
      if i < |l1| {
        assert ChunkAt(h1, l1, g1, i) && LinkAt(h1, l1, i);
        OneIndex(h1, l1, g1, |l1| - 1);
      } else {
        assert ChunkAt(h2, l2, g2, i - |l1|) && LinkAt(h2, l2, i - |l1|);
      }
    }
    forall i, j | 0 <= i < j < |l| ensures Apart(l, i, j) {
      if j < |l1| {
        assert Apart(l1, i, j);
      } else if |l1| <= i {
        assert Apart(l2, i - |l1|, j - |l1|);
      } else {
        assert ChunkAt(h1, l1, g1, i) && ChunkAt(h2, l2, g2, j - |l1|);
      }
    }
    assert h.Keys == Elements(l);
  }

  /** Cutting a list at slot j and hanging one new chunk there. */
  lemma CutAndHang(heap: map<Ptr, Chunk>, list: seq<Ptr>, segs: seq<seq<byte>>, j: nat, p: Ptr, c: Chunk)
    requires ListOf(heap, list, segs) && j <= |list|
    requires p != NULL && p !in heap && c.Fits() && c.next == NULL
    ensures var h := (heap - Elements(list[j..]))[p := c];
            && (SlotOf(list, j) != NULL ==> SlotOf(list, j) in h)
            && ListOf(SetSlot(h, SlotOf(list, j), p), list[..j] + [p], segs[..j] + [c.Data()])
    ensures SlotOf(list, j) == NULL <==> j == 0
  {
    CutTail(heap, list, segs, j);
    var s, h := SlotOf(list, j), heap - Elements(list[j..]);
    var h1 := SetSlot(h, s, NULL);
    PushFront(map[], [], [], p, c);
    var none: map<Ptr, Chunk> := map[];
    assert [p] + [] == [p] && [c.Data()] + [] == [c.Data()] && none[p := c] == map[p := c];
    Join(h1, list[..j], segs[..j], map[p := c], [p], [c.Data()]);
    assert SlotOf(list[..j], j) == s;
    assert SetSlot(h1 + map[p := c], s, p) == SetSlot(h[p := c], s, p);
  }

  /** Changing what one chunk holds. */
  lemma ReplaceChunk(heap: map<Ptr, Chunk>, list: seq<Ptr>, segs: seq<seq<byte>>, i: nat, c: Chunk)
    requires ListOf(heap, list, segs) && i < |list|
    requires c.Fits() && list[i] in heap && c.next == heap[list[i]].next
    ensures ListOf(heap[list[i] := c], list, segs[i := c.Data()])
    ensures Flat(segs) == Flat(segs[..i]) + segs[i] + Flat(segs[i + 1..])
    ensures Flat(segs[i := c.Data()]) == Flat(segs[..i]) + c.Data() + Flat(segs[i + 1..])
  {
    var h, g := heap[list[i] := c], segs[i := c.Data()];
    forall k | 0 <= k < |list| ensures ChunkAt(h, list, g, k) && LinkAt(h, list, k) {
      assert ChunkAt(heap, list, segs, k) && LinkAt(heap, list, k);
      OneIndex(heap, list, segs, i);
    }
    assert h.Keys == heap.Keys;
    FlatAt(segs, i);
    FlatAt(g, i);
    assert g[..i] == segs[..i] && g[i + 1..] == segs[i + 1..];
  }

  // ----- layout

  /** The chunks with data come first, then only empty chunks; lwd is the last
      chunk with data, or the first chunk if all are empty. */
  ghost predicate LayoutOf(segs: seq<seq<byte>>, lwd: nat) {
    if segs == [] then lwd == 0
    else
      && lwd < |segs|
      && (forall i | 0 <= i < lwd :: segs[i] != [])
      && (0 < lwd ==> segs[lwd] != [])
      && (forall i | lwd < i < |segs| :: segs[i] == [])
  }

  /** The first empty chunk at or after index i, or the number of chunks. */
  ghost function FirstEmpty(segs: seq<seq<byte>>, i: nat): (j: nat)
    requires i <= |segs|
    ensures i <= j <= |segs|
    ensures forall k | i <= k < j :: segs[k] != []
    ensures j < |segs| ==> segs[j] == []
    decreases |segs| - i
  {
    if i == |segs| || segs[i] == [] then i else FirstEmpty(segs, i + 1)
  }

  /** No chunk with data after the first empty chunk from index i on. */
  ghost predicate TailOk(segs: seq<seq<byte>>, i: nat)
    requires i <= |segs|
  {
    forall k | FirstEmpty(segs, i) <= k < |segs| :: segs[k] == []
  }

  /** Replacing a tail of empty chunks by one that holds s appends s. */
  lemma ReplaceEmptyTail(segs: seq<seq<byte>>, j: nat, s: seq<byte>)
    requires j <= |segs| && forall k | j <= k < |segs| :: segs[k] == []
    ensures Flat(segs[..j] + [s]) == Flat(segs) + s
    ensures Flat(segs[..j]) == Flat(segs)
  {
    FlatSplit(segs, j);
    FlatEmpty(segs[j..]);
    FlatAppend(segs[..j], [s]);
    FlatOne(s);
  }
}
