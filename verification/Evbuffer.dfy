/** The byte queue of buffer.c: a linked list of chunks with a cached length and a
    pointer to the slot that holds the last chunk with data. */
module EvbufferCore {
  import opened Bytes
  import opened Chunks

  const CHAIN_MAX_AUTO_SIZE: nat := 4096

  /** How a call ends: normally, refused because the end it would change is
      frozen (the C code returns -1), or stopped by a failing EVUTIL_ASSERT. */
  datatype Outcome = Done | Frozen | AssertFailed

  /** struct evbuffer, with the chunks it owns.  slot is last_with_datap: NULL
      stands for &buf->first, p for &p->next. */
  datatype Evbuf = Evbuf(
    heap: map<Ptr, Chunk>,
    first: Ptr,
    last: Ptr,
    slot: Ptr,
    totalLen: nat,
    freezeStart: bool,
    freezeEnd: bool
  )

  /** What an Evbuf stands for: its chunks in order, the data of each, and the
      index of the chunk that slot leads to. */
  datatype Shape = Shape(list: seq<Ptr>, segs: seq<seq<byte>>, lwd: nat)

  /** The weak invariant: a proper list that owns its chunks, with the cached
      fields right. */
  ghost predicate Valid(b: Evbuf, g: Shape) {
    && ListOf(b.heap, g.list, g.segs) && |g.segs| == |g.list|
    && (if g.list == [] then g.lwd == 0 else g.lwd < |g.list|)
    && b.first == InSlot(g.list, 0)
    && b.last == (if g.list == [] then NULL else g.list[|g.list| - 1])
    && b.slot == SlotOf(g.list, g.lwd)
    && b.totalLen == |Content(g)|
  }

  /** The cached fields of a valid evbuffer */
  lemma Fields(b: Evbuf, g: Shape)
    requires Valid(b, g)
    ensures |g.segs| == |g.list| && if g.list == [] then g.lwd == 0 else g.lwd < |g.list|
    ensures b.first == InSlot(g.list, 0) && b.slot == SlotOf(g.list, g.lwd) && b.totalLen == |Content(g)|
    ensures b.last == if g.list == [] then NULL else g.list[|g.list| - 1]
  {}

  ghost function Content(g: Shape): seq<byte> {
    Flat(g.segs)
  }

  /** The layout that evbuffer-internal.h documents. */
  ghost predicate Layout(g: Shape) {
    LayoutOf(g.segs, g.lwd)
  }

  /** No empty chunk follows the last chunk with data. */
  ghost predicate Tight(g: Shape) {
    g.list == [] || g.lwd == |g.list| - 1
  }

  /** *buf->last */
  function LastChunk(b: Evbuf, ghost g: Shape): (c: Chunk)
    requires Valid(b, g) && g.list != []
    ensures b.last == g.list[|g.list| - 1] && b.last != NULL && b.last in b.heap && c == b.heap[b.last]
    ensures c.Fits() && c.Data() == g.segs[|g.segs| - 1] && c.next == NULL
  {
    assert ChunkAt(b.heap, g.list, g.segs, |g.list| - 1) && LinkAt(b.heap, g.list, |g.list| - 1);
    b.heap[b.last]
  }

  /** *buf->first */
  function FirstChunk(b: Evbuf, ghost g: Shape): (c: Chunk)
    requires Valid(b, g) && g.list != []
    ensures b.first == g.list[0] && b.first != NULL && b.first in b.heap && c == b.heap[b.first]
    ensures c.Fits() && c.Data() == g.segs[0] && c.next == InSlot(g.list, 1)
  {
    assert ChunkAt(b.heap, g.list, g.segs, 0) && LinkAt(b.heap, g.list, 0);
    b.heap[b.first]
  }

  const NoShape := Shape([], [], 0)

  /** evbuffer_new */
  method New() returns (b: Evbuf)
    ensures Valid(b, NoShape) && Layout(NoShape) && Content(NoShape) == []
    ensures !b.freezeStart && !b.freezeEnd
  {
    b := Evbuf(map[], NULL, NULL, NULL, 0, false, false);
  }

  /** *buf->last_with_datap */
  function LastWithData(b: Evbuf, ghost g: Shape): (p: Ptr)
    requires Valid(b, g)
    ensures p == InSlot(g.list, g.lwd)
  {
    assert g.list != [] ==> ChunkAt(b.heap, g.list, g.segs, g.lwd);
    assert 0 < g.lwd ==> LinkAt(b.heap, g.list, g.lwd - 1) && ChunkAt(b.heap, g.list, g.segs, g.lwd - 1);
    if b.slot == NULL then b.first else b.heap[b.slot].next
  }

  // ----- evbuffer_chain_insert

  /** The walk that evbuffer_chain_insert and evbuffer_free_trailing_empty_chains
      share: from the last chunk with data to the first victim, a chunk that is
      empty.  The result is a slot and the chunk it leads to. */
  method FindVictim(b: Evbuf, ghost g: Shape) returns (s: Ptr, p: Ptr)
    requires Valid(b, g)
    ensures var j := FirstEmpty(g.segs, g.lwd);
            s == SlotOf(g.list, j) && p == InSlot(g.list, j)
  {
    hide Flat;
    s, p := b.slot, LastWithData(b, g);
    ghost var i := g.lwd;
    assert i < |g.list| ==> ChunkAt(b.heap, g.list, g.segs, i);
    while p != NULL && b.heap[p].off != 0
      invariant g.lwd <= i <= FirstEmpty(g.segs, g.lwd)
      invariant s == SlotOf(g.list, i) && p == InSlot(g.list, i)
      invariant i < |g.list| ==> ChunkAt(b.heap, g.list, g.segs, i)
      decreases |g.list| - i
    {
      assert g.segs[i] != [] && LinkAt(b.heap, g.list, i);
      assert i + 1 < |g.list| ==> ChunkAt(b.heap, g.list, g.segs, i + 1);
      s, p, i := p, b.heap[p].next, i + 1;
    }
    assert i < |g.list| ==> g.segs[i] == [];
  }

  /** evbuffer_chains_all_empty, from the chunk at index i on */
  method AllEmpty(b: Evbuf, ghost g: Shape, from: Ptr, ghost i: nat) returns (r: bool)
    requires Valid(b, g) && i <= |g.list| && from == InSlot(g.list, i)
    ensures r <==> forall k | i <= k < |g.list| :: g.segs[k] == []
  {
    var p := from;
    ghost var n := i;
    assert n < |g.list| ==> ChunkAt(b.heap, g.list, g.segs, n);
    while p != NULL
      invariant i <= n <= |g.list| && p == InSlot(g.list, n)
      invariant n < |g.list| ==> ChunkAt(b.heap, g.list, g.segs, n)
      invariant forall k | i <= k < n :: g.segs[k] == []
      decreases |g.list| - n
    {
      assert LinkAt(b.heap, g.list, n);
      assert n + 1 < |g.list| ==> ChunkAt(b.heap, g.list, g.segs, n + 1);
      if b.heap[p].off != 0 {
        assert g.segs[n] != [];
        return false;
      }
      p, n := b.heap[p].next, n + 1;
    }
    r := true;
  }

  /** evbuffer_free_all_chains, from the chunk at index i on */
  method FreeAllChains(b: Evbuf, ghost g: Shape, from: Ptr, ghost i: nat) returns (h: map<Ptr, Chunk>)
    requires Valid(b, g) && i <= |g.list| && from == InSlot(g.list, i)
    ensures h == b.heap - Elements(g.list[i..])
  {
    hide Content, Elements;
    h := b.heap;
    var p := from;
    ghost var n, list := i, g.list;
    NothingFreed(b.heap, list, i);
    assert n < |list| ==> ChunkAt(b.heap, list, g.segs, n);
    while p != NULL
      invariant i <= n <= |list| && p == InSlot(list, n)
      invariant n < |list| ==> ChunkAt(b.heap, list, g.segs, n)
      invariant h == Freed(b.heap, list, i, n)
      decreases |list| - n
    {
      assert LinkAt(b.heap, list, n);
      assert n + 1 < |list| ==> ChunkAt(b.heap, list, g.segs, n + 1);
      OneMoreFreed(b.heap, list, g.segs, i, n);
      var next := h[p].next;
      h := h - {p};
      p, n := next, n + 1;
    }
    assert list[i..n] == list[i..];
  }

  /** evbuffer_chain_insert.  p is the address of the new chunk.  It fails only if a
      chunk with data follows the first victim. */
  method ChainInsert(b: Evbuf, ghost g: Shape, c: Chunk, p: Ptr)
    returns (ok: bool, b': Evbuf, ghost g': Shape)
    requires Valid(b, g) && c.Fits() && c.next == NULL && p != NULL && p !in b.heap
    ensures ok <==> TailOk(g.segs, g.lwd)
    ensures ok ==> Valid(b', g') && Content(g') == Content(g) + c.Data()
    ensures ok ==> var j := FirstEmpty(g.segs, g.lwd);
              g' == Shape(g.list[..j] + [p], g.segs[..j] + [c.Data()],
                          if j == |g.list| && 0 < c.off && 0 < j then j else g.lwd)
    ensures ok ==> p in b'.heap && b'.heap[p] == c
    ensures b'.heap.Keys <= b.heap.Keys + {p}
    ensures b'.freezeStart == b.freezeStart && b'.freezeEnd == b.freezeEnd
  {
    hide Flat, FrontKept;
    ghost var j := FirstEmpty(g.segs, g.lwd);
    b', g' := b, g;
    var s, q := FindVictim(b, g);
    ok := AllEmpty(b, g, q, j);
    if ok {
      assert j < |g.list| ==> ChunkAt(b.heap, g.list, g.segs, j);
      b', g' := ReplaceTail(b, g, s, q, c, p, j);
      if s != NULL && q == NULL && c.off != 0 {
        b', g' := b'.(slot := s), g'.(lwd := j);
      }
    }
  }

  /** The first j chunks are the same, apart from a link. */
  ghost predicate FrontKept(b: Evbuf, b': Evbuf, list: seq<Ptr>, j: nat)
    requires j <= |list|
  {
    forall k | 0 <= k < j ::
      && list[k] in b.heap && list[k] in b'.heap
      && b'.heap[list[k]].mem == b.heap[list[k]].mem && b'.heap[list[k]].misalign == b.heap[list[k]].misalign
  }

  /** *ch = c, where ch is the slot of index j and only empty chunks follow it: the
      new chunk replaces them. */
  method ReplaceTail(b: Evbuf, ghost g: Shape, s: Ptr, q: Ptr, c: Chunk, p: Ptr, ghost j: nat)
    returns (b': Evbuf, ghost g': Shape)
    requires Valid(b, g) && c.Fits() && c.next == NULL && p != NULL && p !in b.heap
    requires g.lwd <= j <= |g.list| && s == SlotOf(g.list, j) && q == InSlot(g.list, j)
    requires forall k | j <= k < |g.list| :: g.segs[k] == []
    ensures Valid(b', g') && Content(g') == Content(g) + c.Data()
    ensures g' == Shape(g.list[..j] + [p], g.segs[..j] + [c.Data()], g.lwd)
    ensures b'.heap.Keys <= b.heap.Keys + {p} && p in b'.heap && b'.heap[p] == c
    ensures b'.freezeStart == b.freezeStart && b'.freezeEnd == b.freezeEnd
    ensures (s == NULL <==> j == 0) && b'.slot == b.slot
    ensures FrontKept(b, b', g.list, j)
  {
    hide Flat;
    ReplaceEmptyTail(g.segs, j, c.Data());
    CutAndHang(b.heap, g.list, g.segs, j, p, c);
    var h := FreeAllChains(b, g, q, j);
    h := SetSlot(h[p := c], s, p);
    b' := b.(heap := h, first := if s == NULL then p else b.first, last := p, totalLen := b.totalLen + c.off);
    g' := Shape(g.list[..j] + [p], g.segs[..j] + [c.Data()], g.lwd);
  }

  /** Change the contents of one chunk, and total_len with it. */
  method SetChunk(b: Evbuf, ghost g: Shape, p: Ptr, c: Chunk, ghost i: nat)
    returns (b': Evbuf, ghost g': Shape)
    requires Valid(b, g) && i < |g.list| && p == g.list[i]
    requires c.Fits() && p in b.heap && c.next == b.heap[p].next
    ensures Valid(b', g') && g' == g.(segs := g.segs[i := c.Data()])
    ensures b' == b.(heap := b.heap[p := c], totalLen := b'.totalLen)
    ensures Content(g) == Flat(g.segs[..i]) + g.segs[i] + Flat(g.segs[i + 1..])
    ensures Content(g') == Flat(g.segs[..i]) + c.Data() + Flat(g.segs[i + 1..])
  {
    hide Flat;
    assert ChunkAt(b.heap, g.list, g.segs, i);
    ReplaceChunk(b.heap, g.list, g.segs, i, c);
    b' := b.(totalLen := b.totalLen - b.heap[p].off + c.off, heap := b.heap[p := c]);
    g' := g.(segs := g.segs[i := c.Data()]);
  }

  /** Change the last chunk so that it holds d more bytes at its end. */
  method ExtendLast(b: Evbuf, ghost g: Shape, c: Chunk, ghost d: seq<byte>)
    returns (b': Evbuf, ghost g': Shape)
    requires Valid(b, g) && g.list != []
    requires c.Fits() && c.next == LastChunk(b, g).next && c.Data() == g.segs[|g.segs| - 1] + d
    ensures Valid(b', g') && g' == g.(segs := g.segs[|g.segs| - 1 := c.Data()])
    ensures b' == b.(heap := b.heap[b.last := c], totalLen := b'.totalLen)
    ensures Content(g') == Content(g) + d
  {
    assert ChunkAt(b.heap, g.list, g.segs, |g.list| - 1);
    b', g' := SetChunk(b, g, b.last, c, |g.list| - 1);
    assert g.segs[|g.segs|..] == [];
    Assoc(Flat(g.segs[..|g.segs| - 1]), g.segs[|g.segs| - 1], d);
  }

  // ----- evbuffer_add

  /** data does not fit into the last chunk, not even after realigning it. */
  ghost predicate AddSplits(b: Evbuf, g: Shape, data: seq<byte>)
    requires Valid(b, g)
  {
    && g.list != []
    && LastChunk(b, g).Space() < |data|
    && !LastChunk(b, g).ShouldRealign(|data|)
  }

  /** With c as its last chunk, evbuffer_add reaches its assertion with a chunk with data
      behind an empty one. */
  ghost predicate SplitTrips(c: Chunk, segs: seq<seq<byte>>, lwd: nat, data: seq<byte>)
    requires c.Fits() && lwd < |segs|
  {
    && c.Space() < |data| && !c.ShouldRealign(|data|)
    && if 0 < c.Space() then exists k | lwd <= k < |segs| - 1 :: segs[k] == [] else !TailOk(segs, lwd)
  }

  ghost predicate AddTrips(b: Evbuf, g: Shape, data: seq<byte>)
    requires Valid(b, g)
  {
    g.list != [] && SplitTrips(LastChunk(b, g), g.segs, g.lwd, data)
  }

  /** Also in the documented layout: two empty chunks, as reserving space can leave them,
      and more data than the last one takes. */
  lemma AddTripsInLayout()
    ensures exists b, g, data :: Valid(b, g) && Layout(g) && AddTrips(b, g, data)
  {
    var n := MIN_BUFFER_SIZE - CHAIN_SIZE;
    var b, g := TwoEmptyChunks([7]);
    var data := seq(n + 1, _ => 0);
    assert g.segs[1] == [];
    assert AddTrips(b, g, data);
  }

  /** Some data in the first chunk, and two empty chunks behind it */
  lemma TwoEmptyChunks(data: seq<byte>) returns (b: Evbuf, g: Shape)
    requires 0 < |data| <= MIN_BUFFER_SIZE - CHAIN_SIZE
    ensures Valid(b, g) && Layout(g) && g == Shape([1, 2, 3], [data, [], []], 0)
    ensures b.heap.Keys == {1, 2, 3} && forall p | p in b.heap ::
              |b.heap[p].mem| == MIN_BUFFER_SIZE - CHAIN_SIZE && b.heap[p].misalign == 0
              && b.heap[p].off == if p == 1 then |data| else 0
  {
    var zeros := seq(MIN_BUFFER_SIZE - CHAIN_SIZE, _ => 0);
    var c, d, e := Chunk(2, data + zeros[|data|..], 0, |data|), Chunk(3, zeros, 0, 0), Chunk(NULL, zeros, 0, 0);
    b := Evbuf(map[1 := c, 2 := d, 3 := e], 1, 3, NULL, |data|, false, false);
    g := Shape([1, 2, 3], [data, [], []], 0);
    assert c.Data() == data && d.Data() == [] && e.Data() == [];
    IsList(b.heap, g.list, g.segs);
    assert Content(g) == data by {
      FlatEmpty(g.segs[1..]);
    }
  }

  /** Two chunks with data, the slot still at the first: what is left when space was
      reserved behind the first chunk and evbuffer_add has written into it */
  lemma TwoFullChunks(d: seq<byte>, e: seq<byte>) returns (b: Evbuf, g: Shape)
    requires 0 < |d| <= MIN_BUFFER_SIZE - CHAIN_SIZE && 0 < |e| <= MIN_BUFFER_SIZE - CHAIN_SIZE
    ensures Valid(b, g) && g == Shape([1, 2], [d, e], 0)
    ensures b.heap.Keys == {1, 2} && b.last == 2 && forall p | p in b.heap ::
              |b.heap[p].mem| == MIN_BUFFER_SIZE - CHAIN_SIZE && b.heap[p].misalign == 0
              && b.heap[p].off == if p == 1 then |d| else |e|
  {
    var zeros := seq(MIN_BUFFER_SIZE - CHAIN_SIZE, _ => 0);
    var c1, c2 := Chunk(2, d + zeros[|d|..], 0, |d|), Chunk(NULL, e + zeros[|e|..], 0, |e|);
    b := Evbuf(map[1 := c1, 2 := c2], 1, 2, NULL, |d| + |e|, false, false);
    g := Shape([1, 2], [d, e], 0);
    assert c1.Data() == d && c2.Data() == e;
    IsList(b.heap, g.list, g.segs);
    assert Content(g) == d + e by {
      assert g.segs[1..] == [e];
      FlatOne(e);
    }
  }

  /** A heap with just these chunks */
  lemma IsList(heap: map<Ptr, Chunk>, list: seq<Ptr>, segs: seq<seq<byte>>)
    requires |segs| == |list| && heap.Keys == set p | p in list
    requires forall i, j | 0 <= i < j < |list| :: list[i] != list[j]
    requires forall i | 0 <= i < |list| :: ChunkAt(heap, list, segs, i) && LinkAt(heap, list, i)
    ensures ListOf(heap, list, segs)
  {
    forall i, j | 0 <= i < j < |list| ensures Apart(list, i, j) {}
  }

  ghost predicate AddKeepsLayout(b: Evbuf, g: Shape, data: seq<byte>)
    requires Valid(b, g)
  {
    || data == [] || g.list == [] || g.lwd == |g.list| - 1
    || (AddSplits(b, g, data) && (0 < LastChunk(b, g).Space() || g.segs[g.lwd] == []))
  }

  /** Writing into the last chunk keeps the layout only if that is the last chunk
      with data, or nothing was written. */
  lemma LayoutAfterWriteToLast(segs: seq<seq<byte>>, lwd: nat, data: seq<byte>)
    requires segs != [] && LayoutOf(segs, lwd)
    ensures LayoutOf(segs[|segs| - 1 := segs[|segs| - 1] + data], lwd) <==> lwd == |segs| - 1 || data == []
  {
    var n := |segs|;
    var g := segs[n - 1 := segs[n - 1] + data];
    assert g[n - 1] == segs[n - 1] + data;
    if data == [] {
      assert g[n - 1] == segs[n - 1];
      assert g == segs;
    }
  }

  /** What filling the last chunk with now and inserting a chunk with rest does. */
  lemma FillAndInsert(segs: seq<seq<byte>>, lwd: nat, now: seq<byte>, rest: seq<byte>)
    requires lwd < |segs| && rest != []
    ensures var e := segs[|segs| - 1 := segs[|segs| - 1] + now];
            var j := FirstEmpty(e, lwd);
            && (TailOk(e, lwd) <==>
                  if now != [] then forall k | lwd <= k < |segs| - 1 :: segs[k] != [] else TailOk(segs, lwd))
            && (TailOk(e, lwd) && LayoutOf(segs, lwd) ==>
                  (LayoutOf(e[..j] + [rest], if j == |segs| then j else lwd) <==>
                    lwd == |segs| - 1 || now != [] || segs[lwd] == []))
  {
    var n := |segs|;
    var e := segs[n - 1 := segs[n - 1] + now];
    var j := FirstEmpty(e, lwd);
    assert e[n - 1] == segs[n - 1] + now;
    assert forall k | lwd <= k < n - 1 :: e[k] == segs[k];
    if now == [] {
      assert segs[n - 1] + [] == segs[n - 1];
      assert e == segs;
    }
    var f := e[..j] + [rest];
    assert f[j] == rest;
    assert lwd < n - 1 && LayoutOf(segs, lwd) ==> segs[lwd + 1] == [];
  }

  /** Put now into the space of the last chunk; with no space there is nothing to do. */
  method FillLast(b: Evbuf, ghost g: Shape, now: seq<byte>) returns (b': Evbuf, ghost g': Shape)
    requires Valid(b, g) && g.list != [] && |now| <= LastChunk(b, g).Space()
    ensures Valid(b', g') && g' == g.(segs := g.segs[|g.segs| - 1 := g.segs[|g.segs| - 1] + now])
    ensures Content(g') == Content(g) + now
    ensures b' == b.(heap := b'.heap, totalLen := b'.totalLen) && b'.heap.Keys == b.heap.Keys
  {
    assert ChunkAt(b.heap, g.list, g.segs, |g.list| - 1);
    if now != [] {
      b', g' := ExtendLast(b, g, b.heap[b.last].Append(now), now);
    } else {
      b', g' := b, g;
      assert g.segs[|g.segs| - 1] + now == g.segs[|g.segs| - 1];
    }
  }

  /** An empty evbuffer gets its first chunk; any other stays as it is. */
  method EnsureFirst(b: Evbuf, ghost g: Shape, size: nat, p: Ptr) returns (b': Evbuf, ghost g': Shape)
    requires Valid(b, g) && p != NULL && p !in b.heap
    ensures g.list != [] ==> b' == b && g' == g
    ensures g.list == [] ==> b' == b.(heap := b'.heap, first := p, last := p) && b'.heap.Keys == {p}
    ensures g.list == [] ==> g' == Shape([p], [[]], 0) && size <= |b'.heap[p].mem| && b'.heap[p].misalign == 0
    ensures Valid(b', g') && g'.list != [] && Content(g') == Content(g) && (Layout(g) ==> Layout(g'))
  {
    assert g.list != [] ==> ChunkAt(b.heap, g.list, g.segs, 0);
    b', g' := b, g;
    if b.first == NULL {
      var c := ChainNew(size);
      var ok;
      ok, b', g' := ChainInsert(b, g, c, p);
      assert g'.segs == [[]] && g'.list == [p];
    }
  }

  /** The new-chunk end of evbuffer_add: fill the last chunk and add another. */
  method AddChunk(b: Evbuf, ghost g: Shape, data: seq<byte>, p: Ptr)
    returns (r: Outcome, b': Evbuf, ghost g': Shape)
    requires Valid(b, g) && AddSplits(b, g, data) && p != NULL && p !in b.heap
    ensures r == if AddTrips(b, g, data) then AssertFailed else Done
    ensures r == Done ==> Valid(b', g') && Content(g') == Content(g) + data
    ensures r == Done && Layout(g) ==> (Layout(g') <==> AddKeepsLayout(b, g, data))
    ensures r == Done && Tight(g) ==> Tight(g')
    ensures b'.heap.Keys <= b.heap.Keys + {p}
    ensures b'.freezeStart == b.freezeStart && b'.freezeEnd == b.freezeEnd
  {
    hide Flat, LayoutOf, FirstEmpty, ListOf, Content, Pow2;
    var c := LastChunk(b, g);
    var toAlloc := if |c.mem| <= CHAIN_MAX_AUTO_SIZE / 2 then 2 * |c.mem| else |c.mem|;
    var tmp := ChainNew(if toAlloc < |data| then |data| else toAlloc);
    var remain := c.Space();
    var now, rest := data[..remain], data[remain..];
    b', g' := FillLast(b, g, now);
    FillAndInsert(g.segs, g.lwd, now, rest);
    tmp := tmp.Append(rest);
    assert tmp.Data() == rest;
    TakeDrop(Content(g), data, remain);
    var ok;
    ok, b', g' := ChainInsert(b', g', tmp, p);
    r := if ok then Done else AssertFailed;
  }

  /** evbuffer_add on a list that has a chunk */
  method AddToList(b: Evbuf, ghost g: Shape, data: seq<byte>, p: Ptr)
    returns (r: Outcome, b': Evbuf, ghost g': Shape)
    requires Valid(b, g) && g.list != [] && p != NULL && p !in b.heap
    ensures r == if AddTrips(b, g, data) then AssertFailed else Done
    ensures r == Done ==> Valid(b', g') && Content(g') == Content(g) + data
    ensures r == Done && Layout(g) ==> (Layout(g') <==> AddKeepsLayout(b, g, data))
    ensures r == Done && Tight(g) ==> Tight(g')
    ensures r == Done && !AddSplits(b, g, data) ==>
              g' == g.(segs := g.segs[|g.segs| - 1 := g.segs[|g.segs| - 1] + data])
    ensures b'.heap.Keys <= b.heap.Keys + {p}
    ensures b'.freezeStart == b.freezeStart && b'.freezeEnd == b.freezeEnd
  {
    hide Flat, LayoutOf, FirstEmpty, ListOf;
    var c := LastChunk(b, g);
    if |data| <= c.Space() || c.ShouldRealign(|data|) {
      if Layout(g) {
        LayoutAfterWriteToLast(g.segs, g.lwd, data);
      }
      b', g' := ExtendLast(b, g, (if |data| <= c.Space() then c else c.Align()).Append(data), data);
      r := Done;
    } else {
      r, b', g' := AddChunk(b, g, data, p);
    }
  }

  /** evbuffer_add.  It appends, unless it has to add a chunk while a chunk with
      data follows an empty one.  It writes behind the last chunk, wherever the
      last chunk with data is: that breaks the documented layout exactly when
      empty chunks were in between and the new chunk did not make up for it. */
  method Add(b: Evbuf, ghost g: Shape, data: seq<byte>, p: Ptr)
    returns (r: Outcome, b': Evbuf, ghost g': Shape)
    requires Valid(b, g) && p != NULL && p !in b.heap
    ensures r == if b.freezeEnd then Frozen else if AddTrips(b, g, data) then AssertFailed else Done
    ensures r == Frozen ==> b' == b && g' == g
    ensures r == Done ==> Valid(b', g') && Content(g') == Content(g) + data
    ensures r == Done && Layout(g) ==> (Layout(g') <==> AddKeepsLayout(b, g, data))
    ensures r == Done && Tight(g) ==> Tight(g')
    ensures r == Done && g.list != [] && !AddSplits(b, g, data) ==>
              g' == g.(segs := g.segs[|g.segs| - 1 := g.segs[|g.segs| - 1] + data])
    ensures b'.heap.Keys <= b.heap.Keys + {p}
    ensures b'.freezeStart == b.freezeStart && b'.freezeEnd == b.freezeEnd
  {
    hide Flat, LayoutOf, FirstEmpty, ListOf;
    b', g' := b, g;
    assert g.list != [] ==> FirstChunk(b, g) == b.heap[b.first];
    if b.freezeEnd {
      r := Frozen;
    } else if b.first != NULL {
      r, b', g' := AddToList(b, g, data, p);
    } else {
      assert g.list == [];
      b', g' := EnsureFirst(b, g, |data|, p);
      var c := LastChunk(b', g');
      assert |c.Data()| == 0;
      if Layout(g) {
        LayoutAfterWriteToLast(g'.segs, g'.lwd, data);
      }
      b', g' := ExtendLast(b', g', c.Append(data), data);
      r := Done;
    }
  }
}
