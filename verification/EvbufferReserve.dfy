/** Space at the end of an evbuffer: evbuffer_expand, evbuffer_reserve_space and
    evbuffer_commit_space of buffer.c. */
module EvbufferReserve {
  import opened Bytes
  import opened Chunks
  import opened EvbufferCore
  import opened EvbufferMove
  import opened EvbufferTransfer

  const MAX_TO_COPY_IN_EXPAND: nat := 4096

  /** struct evbuffer_iovec: len bytes at position pos of a chunk's memory */
  datatype Iovec = Iovec(chunk: Ptr, pos: nat, len: nat)

  /** The first chunk with writable space: the last one with data or the next. */
  ghost function FirstSpace(b: Evbuf, g: Shape): (i: nat)
    requires Valid(b, g) && g.list != []
    ensures g.lwd <= i <= g.lwd + 1
  {
    if ChunkOf(b, g, g.lwd).Space() == 0 then g.lwd + 1 else g.lwd
  }

  ghost function Spaces(b: Evbuf, g: Shape): (s: seq<nat>)
    requires Valid(b, g)
    ensures |s| == |g.list|
    ensures forall i {:trigger s[i]} | 0 <= i < |s| :: s[i] == ChunkOf(b, g, i).Space()
  {
    seq(|g.list|, i requires 0 <= i < |g.list| => ChunkOf(b, g, i).Space())
  }

  ghost function Sum(s: seq<nat>): nat {
    if s == [] then 0 else Sum(s[..|s| - 1]) + s[|s| - 1]
  }

  lemma SumMore(s: seq<nat>, i: nat, j: nat)
    requires i <= j < |s|
    ensures Sum(s[i..j + 1]) == Sum(s[i..j]) + s[j]
  {
    assert s[i..j + 1][..j - i] == s[i..j];
  }

  lemma {:induction false} SumMonotonic(s: seq<nat>, i: nat, j: nat, k: nat)
    requires i <= j <= k <= |s|
    ensures Sum(s[i..j]) <= Sum(s[i..k])
  {
    if j < k {
      SumMonotonic(s, i, j, k - 1);
      SumMore(s, i, k - 1);
    }
  }

  /** The space in the first n chunks that have space for writing */
  ghost function SpaceInFirst(b: Evbuf, g: Shape, n: nat): nat
    requires Valid(b, g) && g.list != []
  {
    var i := FirstSpace(b, g);
    Sum(Spaces(b, g)[i..i + Min(n, |g.list| - i)])
  }

  // ----- evbuffer_expand_singlechain

  /** *chainp = tmp, where tmp takes the place of the chunk at index i. */
  lemma ReplaceAddress(b: Evbuf, g: Shape, i: nat, p: Ptr, c: Chunk)
    requires Valid(b, g) && i < |g.list| && p != NULL && p !in b.heap
    requires c.Fits() && c.next == ChunkOf(b, g, i).next && c.Data() == g.segs[i]
    ensures var h, s := (b.heap - {g.list[i]})[p := c], SlotOf(g.list, i);
            && (s != NULL ==> s in h) && (s == NULL <==> i == 0)
            && ListOf(SetSlot(h, s, p), g.list[i := p], g.segs)
  {
    var h, s, l := (b.heap - {g.list[i]})[p := c], SlotOf(g.list, i), g.list[i := p];
    OneIndex(b.heap, g.list, g.segs, i);
    if 0 < i {
      ChunkFacts(b, g, i - 1);
      OneIndex(b.heap, g.list, g.segs, i - 1);
    }
    var h' := SetSlot(h, s, p);
    forall k | 0 <= k < |l| ensures ChunkAt(h', l, g.segs, k) && LinkAt(h', l, k) {
      ChunkFacts(b, g, k);
    }
    forall k, m | 0 <= k < m < |l| ensures Apart(l, k, m) {
      assert Apart(g.list, k, m);
      ChunkFacts(b, g, k);
      ChunkFacts(b, g, m);
    }
    assert h'.Keys == Elements(l) by {
      forall q | q in h' ensures q in l {
        if q != p {
          var k :| 0 <= k < |g.list| && g.list[k] == q;
          assert l[k] == q;
        } else {
          assert l[i] == p;
        }
      }
      forall k | 0 <= k < |l| ensures l[k] in h' {
        ChunkFacts(b, g, k);
      }
    }
  }

  /** Resize the chunk at index i, which the slot of owner leads to. */
  method Resize(b: Evbuf, ghost g: Shape, owner: Ptr, chain: Ptr, ghost i: nat, size: nat, p: Ptr)
    returns (b': Evbuf, ghost g': Shape)
    requires Valid(b, g) && g.lwd <= i < |g.list| && owner == SlotOf(g.list, i) && chain == g.list[i]
    requires |g.segs[i]| <= size && p != NULL && p !in b.heap
    ensures Valid(b', g') && g' == g.(list := g.list[i := p])
    ensures p in b'.heap && b'.heap[p].misalign == 0 && size <= |b'.heap[p].mem| && b'.heap[p].off == |g.segs[i]|
    ensures b'.heap.Keys <= b.heap.Keys + {p}
    ensures b'.freezeStart == b.freezeStart && b'.freezeEnd == b.freezeEnd
    ensures i != g.lwd ==> ChunkOf(b', g', g.lwd).Space() == ChunkOf(b, g, g.lwd).Space()
  {
    hide Flat, ListOf;
    assert ChunkOf(b, g, i) == b.heap[chain];
    var c := b.heap[chain];
    var tmp := ChainNew(size);
    tmp := tmp.Append(c.Data()).(next := c.next);
    assert tmp.Data() == c.Data();
    ReplaceAddress(b, g, i, p, tmp);
    SlotKept(b, g, i);
    var h := (b.heap - {chain})[p := tmp];
    b' := b.(
      heap := SetSlot(h, owner, p),
      first := if owner == NULL then p else b.first,
      last := if b.last == chain then p else b.last);
    g' := g.(list := g.list[i := p]);
    if i != g.lwd {
      OtherSpace(b, g, i, owner, p, tmp, b', g');
    }
  }

  lemma OtherSpace(b: Evbuf, g: Shape, i: nat, owner: Ptr, p: Ptr, tmp: Chunk, b': Evbuf, g': Shape)
    requires Valid(b, g) && g.lwd < i < |g.list| && p !in b.heap
    requires Valid(b', g') && g' == g.(list := g.list[i := p])
    requires var h := (b.heap - {g.list[i]})[p := tmp];
             (owner != NULL ==> owner in h) && b'.heap == SetSlot(h, owner, p)
    ensures ChunkOf(b', g', g.lwd).Space() == ChunkOf(b, g, g.lwd).Space()
  {
    OneIndex(b.heap, g.list, g.segs, g.lwd);
    assert ChunkOf(b, g, g.lwd) == b.heap[g.list[g.lwd]];
    assert ChunkOf(b', g', g.lwd) == b'.heap[g.list[g.lwd]];
  }

  lemma SlotKept(b: Evbuf, g: Shape, i: nat)
    requires Valid(b, g) && g.lwd <= i < |g.list|
    ensures b.slot != NULL ==> b.slot != g.list[i]
    ensures b.last == g.list[i] <==> i == |g.list| - 1
  {
    OneIndex(b.heap, g.list, g.segs, i);
  }

  /** evbuffer_chain_insert_new: an empty chunk in place of the empty tail */
  method InsertNew(b: Evbuf, ghost g: Shape, datlen: nat, p: Ptr) returns (ok: bool, b': Evbuf, ghost g': Shape)
    requires Valid(b, g) && p != NULL && p !in b.heap
    ensures ok <==> TailOk(g.segs, g.lwd)
    ensures ok ==> Valid(b', g') && Content(g') == Content(g) && (Layout(g) ==> Layout(g'))
    ensures ok && !DataBehind(g) ==> |g'.segs| == |g'.list| && !DataBehind(g')
    ensures ok ==> g'.list != [] && g'.list[|g'.list| - 1] == p && g'.segs[|g'.segs| - 1] == []
    ensures ok ==> p in b'.heap && b'.heap[p].Fits() && datlen <= b'.heap[p].Space()
    ensures b'.heap.Keys <= b.heap.Keys + {p}
    ensures b'.freezeStart == b.freezeStart && b'.freezeEnd == b.freezeEnd
  {
    hide Flat, ListOf;
    if Layout(g) { VictimInLayout(g.segs, g.lwd); }
    var c := ChainNew(datlen);
    assert c.off == 0 by { assert |c.Data()| == 0; }
    ok, b', g' := ChainInsert(b, g, c, p);
    assert ok ==> Content(g') == Content(g);
  }

  lemma EmptyBehind(g: Shape)
    requires Layout(g)
    ensures forall k | g.lwd < k < |g.segs| :: g.segs[k] == []
    ensures g.segs != [] && g.segs[g.lwd] == [] ==> g.lwd == 0
  {}

  /** The chunk c has data and too little space for datlen, and neither realigning nor
      resizing it is worth it. */
  predicate Poor(c: Chunk, datlen: nat)
    requires c.Fits()
  {
    && c.Space() < datlen && c.off != 0 && !c.ShouldRealign(datlen)
    && (c.Space() < |c.mem| / 8 || MAX_TO_COPY_IN_EXPAND < c.off)
  }

  /** evbuffer_expand_singlechain hands out the chunk behind the first one with space. */
  ghost predicate TakesNext(b: Evbuf, g: Shape, datlen: nat)
    requires Valid(b, g)
  {
    g.list != [] && var i := FirstSpace(b, g);
    i + 1 < |g.list| && Poor(ChunkOf(b, g, i), datlen) && datlen <= ChunkOf(b, g, i + 1).Space()
  }

  /** evbuffer_expand_singlechain adds a chunk. */
  ghost predicate Inserts(b: Evbuf, g: Shape, datlen: nat)
    requires Valid(b, g)
  {
    g.list == [] || var i := FirstSpace(b, g);
    i == |g.list| || var c := ChunkOf(b, g, i);
    c.Space() < datlen && (c.off == 0 || (Poor(c, datlen) && !TakesNext(b, g, datlen)))
  }

  /** evbuffer_expand_singlechain: all the space in one chunk, whose address is q.
      i is its index.  It fails only where a chunk is added while data follows an empty
      chunk.  The chunk is the first with space or the last of all, unless it is the one
      behind a poor chunk and has others behind it. */
  method ExpandSingle(b: Evbuf, ghost g: Shape, datlen: nat, p: Ptr)
    returns (ok: bool, q: Ptr, b': Evbuf, ghost g': Shape, ghost i: nat)
    requires Valid(b, g) && p != NULL && p !in b.heap
    ensures ok <==> !(Inserts(b, g, datlen) && !TailOk(g.segs, g.lwd))
    ensures ok ==> Valid(b', g') && Content(g') == Content(g) && (Layout(g) ==> Layout(g'))
    ensures ok && !DataBehind(g) ==> |g'.segs| == |g'.list| && !DataBehind(g')
    ensures ok ==> g'.lwd <= i < |g'.list| && q == g'.list[i] && datlen <= ChunkOf(b', g', i).Space()
    ensures ok ==> (i == FirstSpace(b', g') || i == |g'.list| - 1 <==>
                      !(TakesNext(b, g, datlen) && FirstSpace(b, g) + 2 < |g.list|))
    ensures b'.heap.Keys <= b.heap.Keys + {p}
    ensures b'.freezeStart == b.freezeStart && b'.freezeEnd == b.freezeEnd
  {
    hide Flat, ListOf, LayoutOf, TailOk, FirstEmpty, TakesNext, Poor;
    ok, b', g', q := true, b, g, LastWithData(b, g);
    ghost var first := if g.list == [] then 0 else FirstSpace(b, g);
    i := first;
    var s := b.slot;
    if q != NULL {
      assert g.list != [];
      assert ChunkOf(b, g, g.lwd) == b.heap[q];
      if b.heap[q].Space() == 0 {
        s, q := q, b.heap[q].next;
      }
    }
    assert i <= |g.list| && q == InSlot(g.list, i) && s == SlotOf(g.list, i);
    if q != NULL && i < |g.list| {
      assert ChunkOf(b, g, i) == b.heap[q];
    }
    assert g.list == [] || i == |g.list| ==> !TakesNext(b, g, datlen) by { NoNext(b, g, datlen); }
    if q == NULL {
      NotNull(b, g);
      ok, b', g' := InsertNew(b, g, datlen, p);
      q, i := p, if ok then |g'.list| - 1 else 0;
    } else if datlen <= b.heap[q].Space() {
      NoNext(b, g, datlen);
    } else if b.heap[q].off == 0 {
      NoNext(b, g, datlen);
      ok, b', g' := InsertNew(b, g, datlen, p);
      q, i := p, if ok then |g'.list| - 1 else 0;
    } else {
      ok, q, b', g', i := ExpandChunk(b, g, datlen, p, s, q);
    }
  }

  lemma NoNext(b: Evbuf, g: Shape, datlen: nat)
    requires Valid(b, g)
    ensures TakesNext(b, g, datlen) ==>
              && g.list != [] && var i := FirstSpace(b, g);
              i + 1 < |g.list| && ChunkOf(b, g, i).off != 0 && ChunkOf(b, g, i).Space() < datlen
  {}

  /** The end of evbuffer_expand_singlechain: realign the first chunk with space, use
      the next one, add one, or resize. */
  method ExpandChunk(b: Evbuf, ghost g: Shape, datlen: nat, p: Ptr, s: Ptr, chain: Ptr)
    returns (ok: bool, q: Ptr, b': Evbuf, ghost g': Shape, ghost i: nat)
    requires Valid(b, g) && p != NULL && p !in b.heap && g.list != []
    requires var i := FirstSpace(b, g);
             && i < |g.list| && s == SlotOf(g.list, i) && chain == g.list[i]
             && ChunkOf(b, g, i).Space() < datlen && ChunkOf(b, g, i).off != 0
    ensures ok <==> !Poor(ChunkOf(b, g, FirstSpace(b, g)), datlen) || TakesNext(b, g, datlen) || TailOk(g.segs, g.lwd)
    ensures ok ==> Valid(b', g') && Content(g') == Content(g) && (Layout(g) ==> Layout(g'))
    ensures ok && !DataBehind(g) ==> |g'.segs| == |g'.list| && !DataBehind(g')
    ensures ok ==> g'.lwd <= i < |g'.list| && q == g'.list[i] && datlen <= ChunkOf(b', g', i).Space()
    ensures ok ==> (i == FirstSpace(b', g') || i == |g'.list| - 1 <==>
                      !(TakesNext(b, g, datlen) && FirstSpace(b, g) + 2 < |g.list|))
    ensures b'.heap.Keys <= b.heap.Keys + {p}
    ensures b'.freezeStart == b.freezeStart && b'.freezeEnd == b.freezeEnd
  {
    hide Flat, ListOf, LayoutOf, TailOk, FirstEmpty;
    ok, b', g', i, q := true, b, g, FirstSpace(b, g), chain;
    ghost var first := i;
    var c := b.heap[chain];
    assert ChunkOf(b, g, i) == c;
    if c.ShouldRealign(datlen) {
      b', g' := SetChunk(b, g, chain, c.Align(), i);
      assert g' == g;
      assert ChunkOf(b', g', i) == b'.heap[q];
      SameElsewhere(b, b', g, i);
    } else if c.Space() < |c.mem| / 8 || MAX_TO_COPY_IN_EXPAND < c.off {
      if c.next != NULL {
        assert ChunkOf(b, g, i + 1) == b.heap[c.next];
      }
      if c.next != NULL && datlen <= b.heap[c.next].Space() {
        q, i := c.next, i + 1;
      } else {
        NotNull(b, g);
        ok, b', g' := InsertNew(b, g, datlen, p);
        q, i := p, if ok then |g'.list| - 1 else 0;
      }
    } else {
      b', g' := Resize(b, g, s, chain, i, c.off + datlen, p);
      q := p;
      assert ChunkOf(b', g', i) == b'.heap[q];
    }
  }

  lemma SameElsewhere(b: Evbuf, b': Evbuf, g: Shape, i: nat)
    requires Valid(b, g) && Valid(b', g) && i < |g.list| && g.list[i] in b'.heap
    requires b'.heap == b.heap[g.list[i] := b'.heap[g.list[i]]]
    ensures forall k {:trigger ChunkOf(b', g, k)} | 0 <= k < |g.list| && k != i :: ChunkOf(b', g, k) == ChunkOf(b, g, k)
  {
    OneIndex(b.heap, g.list, g.segs, i);
  }

  // ----- _evbuffer_expand_fast

  lemma OneChunkIsEnough(b: Evbuf, g: Shape, n: nat, datlen: nat)
    requires Valid(b, g) && |g.list| == 1 && 0 < n && g.segs == [[]] && datlen <= ChunkOf(b, g, 0).Space()
    requires ChunkOf(b, g, 0).misalign == 0
    ensures datlen <= SpaceInFirst(b, g, n) && !DataBehind(g)
  {
    assert |ChunkOf(b, g, 0).Data()| == 0;
    var s := Spaces(b, g);
    SumMore(s, 0, 0);
    assert s[0..0] == [];
  }

  /** The space that every chunk can have: all of its memory if it is empty */
  ghost function Rooms(b: Evbuf, g: Shape): (s: seq<nat>)
    requires Valid(b, g)
    ensures |s| == |g.list|
    ensures forall i {:trigger s[i]} | 0 <= i < |s| :: s[i] == Room(b, g, i)
  {
    seq(|g.list|, i requires 0 <= i < |g.list| => Room(b, g, i))
  }

  ghost function Room(b: Evbuf, g: Shape, i: nat): nat
    requires Valid(b, g) && i < |g.list|
  {
    if g.segs[i] == [] then |ChunkOf(b, g, i).mem| else ChunkOf(b, g, i).Space()
  }

  ghost function FirstRoom(b: Evbuf, g: Shape): (i: nat)
    requires Valid(b, g) && g.list != []
    ensures g.lwd <= i <= g.lwd + 1
  {
    if Room(b, g, g.lwd) == 0 then g.lwd + 1 else g.lwd
  }

  /** The first loop of _evbuffer_expand_fast comes to the chunk at index m. */
  ghost predicate Reaches(b: Evbuf, g: Shape, datlen: nat, n: nat, m: nat)
    requires Valid(b, g) && g.lwd < m <= |g.list|
  {
    Sum(Rooms(b, g)[FirstRoom(b, g)..m]) < datlen && m - FirstRoom(b, g) < n
  }

  ghost predicate DataBehind(g: Shape)
    requires |g.segs| == |g.list|
  {
    exists m | g.lwd < m < |g.list| :: g.segs[m] != []
  }

  /** The loop comes to a chunk with data behind the one that the slot leads to. */
  ghost predicate LoopTrips(b: Evbuf, g: Shape, datlen: nat, n: nat)
    requires Valid(b, g) && g.list != []
  {
    exists m | g.lwd < m < |g.list| :: g.segs[m] != [] && Reaches(b, g, datlen, n, m)
  }

  /** n chunks with space are not enough: the empty ones go. */
  ghost predicate Nukes(b: Evbuf, g: Shape, datlen: nat, n: nat)
    requires Valid(b, g) && g.list != []
  {
    var i := FirstRoom(b, g);
    i + n <= |g.list| && Sum(Rooms(b, g)[i..i + n]) < datlen
  }

  /** _evbuffer_expand_fast reaches one of its assertions. */
  ghost predicate FastTrips(b: Evbuf, g: Shape, datlen: nat, n: nat)
    requires Valid(b, g)
  {
    g.list != [] &&
    (|| LoopTrips(b, g, datlen, n)
     || (Nukes(b, g, datlen, n) && (DataBehind(g) || (g.segs[g.lwd] == [] && g.lwd != 0))))
  }

  /** With data behind the slot, both ways to reserve space can trip: the loop comes to
      it, or it is behind an empty chunk in whose place a chunk is to be added. */
  lemma ReserveTripsHappens()
    ensures exists b, g, datlen :: Valid(b, g) && FastTrips(b, g, datlen, 2)
    ensures exists b, g, datlen :: Valid(b, g) && Inserts(b, g, datlen) && !TailOk(g.segs, g.lwd)
  {
    var b, g := TwoFullChunks([7], [8]);
    assert g.segs[1] != [];
    assert ChunkOf(b, g, 0) == b.heap[1] && Rooms(b, g)[0] == Room(b, g, 0);
    assert Rooms(b, g)[0..1] == [Room(b, g, 0)];
    SumMore(Rooms(b, g), 0, 0);
    assert Rooms(b, g)[0..0] == [];
    assert Reaches(b, g, 5000, 2, 1);
    assert Valid(b, g) && FastTrips(b, g, 5000, 2);
    InsertTripsHappens();
  }

  lemma InsertTripsHappens()
    ensures exists b, g, datlen :: Valid(b, g) && Inserts(b, g, datlen) && !TailOk(g.segs, g.lwd)
  {
    var zeros := seq(MIN_BUFFER_SIZE - CHAIN_SIZE, _ => 0);
    var c, d, e := Chunk(2, zeros, 0, |zeros|), Chunk(3, zeros, 0, 0), Chunk(NULL, zeros, 0, 1);
    var b := Evbuf(map[1 := c, 2 := d, 3 := e], 1, 3, NULL, |zeros| + 1, false, false);
    var g := Shape([1, 2, 3], [zeros, [], [0]], 0);
    assert c.Data() == zeros && d.Data() == [] && e.Data() == [0];
    IsList(b.heap, g.list, g.segs);
    assert Content(g) == zeros + [0] by {
      assert g.segs[1..][1..] == [[0]];
      FlatOne([0]);
      assert Flat(g.segs[1..]) == [] + [0] == [0];
    }
    assert ChunkOf(b, g, 0) == c && ChunkOf(b, g, 1) == d;
    assert g.segs[0] != [] && g.segs[1] == [] && g.segs[2] != [];
    assert FirstEmpty(g.segs, 0) == 1;
    assert Valid(b, g) && Inserts(b, g, 5000) && !TailOk(g.segs, g.lwd);
  }

  lemma NoTripsInLayout(b: Evbuf, g: Shape, datlen: nat, n: nat)
    requires Valid(b, g) && Layout(g)
    ensures !FastTrips(b, g, datlen, n) && TailOk(g.segs, g.lwd)
  {
    EmptyBehind(g);
    VictimInLayout(g.segs, g.lwd);
  }

  /** The first loop of _evbuffer_expand_fast: count the space in at most n chunks,
      and make all the memory of an empty chunk space.  k is the index it stops at. */
  method CountSpace(b: Evbuf, ghost g: Shape, datlen: nat, n: nat)
    returns (ok: bool, enough: bool, used: nat, avail: nat, b': Evbuf, ghost k: nat)
    requires Valid(b, g) && g.list != [] && 0 < n
    ensures Valid(b', g) && b' == b.(heap := b'.heap) && b'.heap.Keys == b.heap.Keys
    ensures ok <==> !LoopTrips(b, g, datlen, n)
    ensures ok && enough ==> datlen <= SpaceInFirst(b', g, n) && !Nukes(b, g, datlen, n)
    ensures ok && !enough ==> used <= n && avail < datlen && g.lwd < k && FirstSpace(b', g) + used == k <= |g.list|
    ensures ok && !enough ==> avail == Sum(Spaces(b', g)[FirstSpace(b', g)..k])
    ensures ok && !enough ==> if used < n then k == |g.list| && !Nukes(b, g, datlen, n) else Nukes(b, g, datlen, n)
  {
    hide Valid, Content, Layout, ChunkOf, LastWithData, FirstSpace, Spaces, Sum, SpaceInFirst, Rooms, Room, FirstRoom,
      LoopTrips, Nukes, Reaches;
    Fields(b, g);
    ok, b', used, avail, k := true, b, 0, 0, g.lwd;
    var lastWithData := LastWithData(b, g);
    var p := lastWithData;
    assert ChunkOf(b, g, k) == b.heap[p];
    while p != NULL
      invariant g.lwd <= k <= |g.list| && p == InSlot(g.list, k)
      invariant Valid(b', g) && b' == b.(heap := b'.heap) && b'.heap.Keys == b.heap.Keys
      invariant Counted(b, b', g, k) && forall m | g.lwd < m < k :: g.segs[m] == []
      invariant k == g.lwd ==> used == avail == 0
      invariant g.lwd < k ==> FirstRoom(b, g) + used == k && avail == Sum(Rooms(b, g)[FirstRoom(b, g)..k])
      invariant used < n && (g.lwd < k ==> avail < datlen)
      invariant k < |g.list| ==> p in b'.heap && ChunkOf(b', g, k) == b'.heap[p]
      decreases |g.list| - k
    {
      ghost var b0 := b';
      b' := SpaceAll(b', g, p, k);
      OneMoreCounted(b, b0, b', g, k);
      var c := b'.heap[p];
      DataOf(b', g, k, lastWithData);
      if c.off != 0 && p != lastWithData {   // EVUTIL_ASSERT(chain == *buf->last_with_datap)
        TripsAt(b, g, datlen, n, k, used);
        return false, false, used, avail, b', k;
      }
      if c.off == 0 || c.Space() != 0 {
        avail, used := avail + c.Space(), used + 1;
      }
      RoomCounted(b, b', g, k, used);
      p, k := c.next, k + 1;
      if datlen <= avail {
        enough := true;
        NoMoreTrips(b, g, datlen, n, k, used);
        SpacesCounted(b, b', g, k);
        CountedEnough(b', g, k, used, n, datlen);
        return;
      }
      if used == n {
        break;
      }
      if k < |g.list| {
        assert ChunkOf(b', g, k) == b'.heap[p];
      }
    }
    NotNull(b, g);
    enough := false;
    NoMoreTrips(b, g, datlen, n, k, used);
    SpacesCounted(b, b', g, k);
  }

  /** The chunks before index k have all their room as space. */
  ghost predicate Counted(b: Evbuf, b': Evbuf, g: Shape, k: nat)
    requires Valid(b, g) && Valid(b', g) && k <= |g.list|
  {
    Rooms(b', g) == Rooms(b, g) && forall i | g.lwd <= i < k :: Spaces(b', g)[i] == Rooms(b, g)[i]
  }

  lemma OneMoreCounted(b: Evbuf, b0: Evbuf, b': Evbuf, g: Shape, k: nat)
    requires Valid(b, g) && Valid(b0, g) && Valid(b', g) && g.lwd <= k < |g.list| && Counted(b, b0, g, k)
    requires Rooms(b', g) == Rooms(b0, g) && Spaces(b', g) == Spaces(b0, g)[k := Rooms(b0, g)[k]]
    ensures Counted(b, b', g, k + 1)
  {
    hide Valid, Spaces, Rooms, Room;
  }

  lemma DataOf(b: Evbuf, g: Shape, k: nat, lastWithData: Ptr)
    requires Valid(b, g) && k < |g.list| && lastWithData == InSlot(g.list, g.lwd)
    ensures ChunkOf(b, g, k).off == |g.segs[k]|
    ensures g.list[k] == lastWithData <==> k == g.lwd
  {
    assert |ChunkOf(b, g, k).Data()| == |g.segs[k]|;
    OneIndex(b.heap, g.list, g.segs, k);
  }

  lemma TripsAt(b: Evbuf, g: Shape, datlen: nat, n: nat, k: nat, used: nat)
    requires Valid(b, g) && g.lwd < k < |g.list| && g.segs[k] != [] && FirstRoom(b, g) + used == k && used < n
    requires Sum(Rooms(b, g)[FirstRoom(b, g)..k]) < datlen
    ensures LoopTrips(b, g, datlen, n)
  {
    assert Reaches(b, g, datlen, n, k);
  }

  lemma RoomCounted(b: Evbuf, b': Evbuf, g: Shape, k: nat, used: nat)
    requires Valid(b, g) && Valid(b', g) && g.lwd <= k < |g.list| && Counted(b, b', g, k + 1)
    requires k == g.lwd ==>
               used == if g.segs[k] == [] || ChunkOf(b', g, k).Space() != 0 then 1 else 0
    ensures FirstRoom(b, g) <= k + 1 && Rooms(b, g)[k] == ChunkOf(b', g, k).Space()
    ensures g.lwd < k ==>
              FirstRoom(b, g) <= k && Sum(Rooms(b, g)[FirstRoom(b, g)..k + 1]) ==
              Sum(Rooms(b, g)[FirstRoom(b, g)..k]) + ChunkOf(b', g, k).Space()
    ensures k == g.lwd ==> FirstRoom(b, g) + used == k + 1
    ensures k == g.lwd ==>
              Sum(Rooms(b, g)[FirstRoom(b, g)..k + 1]) == if used == 0 then 0 else ChunkOf(b', g, k).Space()
  {
    var s, i := Rooms(b, g), FirstRoom(b, g);
    assert Spaces(b', g)[k] == ChunkOf(b', g, k).Space() && s[k] == Room(b, g, k);
    ChunkFacts(b, g, k);
    if i <= k {
      SumMore(s, i, k);
      assert s[k..k] == [];
    } else {
      assert s[k + 1..k + 1] == [];
    }
  }

  /** When the loop stops at index k, what is behind does not matter. */
  lemma NoMoreTrips(b: Evbuf, g: Shape, datlen: nat, n: nat, k: nat, used: nat)
    requires Valid(b, g) && g.lwd < k <= |g.list| && FirstRoom(b, g) + used == k && used <= n
    requires forall m | g.lwd < m < k :: g.segs[m] == []
    requires datlen <= Sum(Rooms(b, g)[FirstRoom(b, g)..k]) || used == n || k == |g.list|
    ensures !LoopTrips(b, g, datlen, n)
    ensures datlen <= Sum(Rooms(b, g)[FirstRoom(b, g)..k]) || used < n ==> !Nukes(b, g, datlen, n) || used == n
    ensures datlen <= Sum(Rooms(b, g)[FirstRoom(b, g)..k]) ==> !Nukes(b, g, datlen, n)
    ensures Sum(Rooms(b, g)[FirstRoom(b, g)..k]) < datlen && used == n ==> Nukes(b, g, datlen, n)
    ensures used < n && k == |g.list| ==> !Nukes(b, g, datlen, n)
  {
    hide Valid, Rooms, Sum, FirstRoom;
    var s, i := Rooms(b, g), FirstRoom(b, g);
    forall m | k <= m <= |g.list| ensures Sum(s[i..k]) <= Sum(s[i..m]) {
      SumMonotonic(s, i, k, m);
    }
  }

  lemma SpacesCounted(b: Evbuf, b': Evbuf, g: Shape, k: nat)
    requires Valid(b, g) && Valid(b', g) && g.lwd < k <= |g.list| && Counted(b, b', g, k)
    ensures FirstSpace(b', g) == FirstRoom(b, g)
    ensures FirstRoom(b, g) <= k && Spaces(b', g)[FirstSpace(b', g)..k] == Rooms(b, g)[FirstRoom(b, g)..k]
  {
    assert Spaces(b', g)[g.lwd] == ChunkOf(b', g, g.lwd).Space() && Rooms(b, g)[g.lwd] == Room(b, g, g.lwd);
  }

  /** chain->misalign = 0 for an empty chunk */
  method SpaceAll(b: Evbuf, ghost g: Shape, p: Ptr, ghost k: nat) returns (b': Evbuf)
    requires Valid(b, g) && k < |g.list| && p == g.list[k] && p in b.heap
    ensures Valid(b', g) && b' == b.(heap := b'.heap) && b'.heap.Keys == b.heap.Keys
    ensures Rooms(b', g) == Rooms(b, g) && Spaces(b', g) == Spaces(b, g)[k := Rooms(b, g)[k]]
    ensures p in b'.heap && ChunkOf(b', g, k) == b'.heap[p]
  {
    hide Flat, ListOf;
    b' := b;
    var c := b.heap[p];
    assert ChunkOf(b, g, k) == c;
    assert |c.Data()| == |g.segs[k]|;
    if c.off == 0 {
      ghost var g';
      b', g' := SetChunk(b, g, p, c.(misalign := 0), k);
      assert g' == g;
    }
    forall i | 0 <= i < |g.list|
      ensures Spaces(b', g)[i] == Spaces(b, g)[k := Rooms(b, g)[k]][i] && Rooms(b', g)[i] == Rooms(b, g)[i]
    {
      OneIndex(b.heap, g.list, g.segs, k);
      assert i != k ==> ChunkOf(b', g, i) == ChunkOf(b, g, i);
      assert Rooms(b, g)[i] == Room(b, g, i) && Rooms(b', g)[i] == Room(b', g, i);
    }
  }

  lemma CountedEnough(b: Evbuf, g: Shape, k: nat, used: nat, n: nat, datlen: nat)
    requires Valid(b, g) && g.list != [] && used <= n && FirstSpace(b, g) + used == k <= |g.list|
    requires datlen <= Sum(Spaces(b, g)[FirstSpace(b, g)..k])
    ensures datlen <= SpaceInFirst(b, g, n)
  {
    var i := FirstSpace(b, g);
    SumMonotonic(Spaces(b, g), i, k, i + Min(n, |g.list| - i));
  }

  lemma SpacesKept(b: Evbuf, g: Shape, b': Evbuf, g': Shape, j: nat)
    requires Valid(b, g) && Valid(b', g') && g.list != [] && j < |g'.list| && j <= |g.list|
             && FrontKept(b, b', g.list, j)
    requires g'.list[..j] == g.list[..j] && g'.segs[..j] == g.segs[..j] && g'.lwd == g.lwd
    requires (j == 0 ==> g.lwd == 0 && ChunkOf(b', g', 0).Space() != 0) && (0 < j ==> g.lwd < j)
    ensures Spaces(b', g')[..j] == Spaces(b, g)[..j]
    ensures FirstSpace(b', g') == if j == 0 then 0 else FirstSpace(b, g)
  {
    forall k | 0 <= k < j ensures ChunkOf(b', g', k).Space() == ChunkOf(b, g, k).Space() {
      assert g'.list[k] == g'.list[..j][k] == g.list[k];
      assert |ChunkOf(b', g', k).Data()| == |g'.segs[..j][k]| == |ChunkOf(b, g, k).Data()|;
    }
  }

  /** The last part of _evbuffer_expand_fast: a new chunk in slot j, in place of the
      empty chunks there. */
  method HangSpace(b: Evbuf, ghost g: Shape, s: Ptr, q: Ptr, ghost j: nat, size: nat, ghost n: nat, ghost datlen: nat,
                   p: Ptr)
    returns (b': Evbuf, ghost g': Shape)
    requires Valid(b, g) && g.list != [] && p != NULL && p !in b.heap
    requires j <= |g.list| && s == SlotOf(g.list, j) && q == InSlot(g.list, j)
    requires g.lwd <= j && (j == g.lwd ==> j == 0) && forall k | j <= k < |g.list| :: g.segs[k] == []
    requires j == 0 ==> datlen <= size && 1 <= n
    requires 0 < j ==> var i := FirstSpace(b, g); i <= j < i + n && datlen <= Sum(Spaces(b, g)[i..j]) + size
    ensures Valid(b', g') && Content(g') == Content(g) && (Layout(g) ==> Layout(g'))
    ensures !DataBehind(g) ==> |g'.segs| == |g'.list| && !DataBehind(g')
    ensures g'.list != [] && datlen <= SpaceInFirst(b', g', n)
    ensures b'.heap.Keys <= b.heap.Keys + {p}
    ensures b'.freezeStart == b.freezeStart && b'.freezeEnd == b.freezeEnd
  {
    hide Flat, ListOf, FrontKept, Content, Sum, Spaces, SpaceInFirst, Pow2;
    var c := ChainNew(size);
    assert |c.Data()| == 0;
    b', g' := ReplaceTail(b, g, s, q, c, p, j);
    assert Content(g') == Content(g);
    HungSpace(b, g, b', g', j, size, n, datlen);
  }

  lemma HungSpace(b: Evbuf, g: Shape, b': Evbuf, g': Shape, j: nat, size: nat, n: nat, datlen: nat)
    requires Valid(b, g) && Valid(b', g') && g.list != [] && j <= |g.list| && FrontKept(b, b', g.list, j)
    requires |g'.list| == j + 1 && g'.list[..j] == g.list[..j] && g'.segs[..j] == g.segs[..j] && g'.lwd == g.lwd
    requires 0 < ChunkOf(b', g', j).Space() && size <= ChunkOf(b', g', j).Space()
    requires g.lwd <= j && (j == g.lwd ==> j == 0)
    requires j == 0 ==> datlen <= size && 1 <= n
    requires 0 < j ==> var i := FirstSpace(b, g); i <= j < i + n && datlen <= Sum(Spaces(b, g)[i..j]) + size
    ensures datlen <= SpaceInFirst(b', g', n)
  {
    hide Valid, ChunkOf, Sum, FirstSpace, FrontKept;
    var s, s' := Spaces(b, g), Spaces(b', g');
    SpacesKept(b, g, b', g', j);
    assert s'[j] == ChunkOf(b', g', j).Space();
    var i := FirstSpace(b', g');
    assert s'[i..j] == s'[..j][i..] == s[..j][i..] == s[i..j];
    SumMore(s', i, j);
    SumMonotonic(s', i, j + 1, i + Min(n, |g'.list| - i));
  }

  /** _evbuffer_expand_fast: at least datlen bytes of space in the first n chunks
      that have space, without moving any data. */
  method ExpandFast(b: Evbuf, ghost g: Shape, datlen: nat, n: nat, p: Ptr)
    returns (ok: bool, b': Evbuf, ghost g': Shape)
    requires Valid(b, g) && 2 <= n && p != NULL && p !in b.heap
    ensures ok <==> !FastTrips(b, g, datlen, n)
    ensures ok ==> Valid(b', g') && Content(g') == Content(g) && (Layout(g) ==> Layout(g'))
    ensures ok && !DataBehind(g) ==> |g'.segs| == |g'.list| && !DataBehind(g')
    ensures ok ==> g'.list != [] && datlen <= SpaceInFirst(b', g', n)
    ensures b'.heap.Keys <= b.heap.Keys + {p}
    ensures b'.freezeStart == b.freezeStart && b'.freezeEnd == b.freezeEnd
  {
    hide Flat, ListOf, LayoutOf, LoopTrips, Nukes, DataBehind, Content;
    assert b.last == NULL <==> g.list == [] by { NotNull(b, g); }
    if b.last == NULL {
      ok := true;
      b', g' := EnsureFirst(b, g, datlen, p);
      assert ChunkOf(b', g', 0) == b'.heap[p] && |ChunkOf(b', g', 0).Data()| == 0;
      OneChunkIsEnough(b', g', n, datlen);
      return;
    }
    var enough, used, avail;
    ghost var k;
    ok, enough, used, avail, b', k := CountSpace(b, g, datlen, n);
    g' := g;
    if ok && !enough {
      if used < n {
        // the loop ran off the end: add another chunk
        b', g' := HangSpace(b', g, b'.last, NULL, |g.list|, datlen - avail, n, datlen, p);
      } else {
        ok, b', g' := NukeEmpties(b', g, datlen, n, k, p);
      }
    }
  }

  /** Replace all empty chunks by one that has enough space. */
  method NukeEmpties(b: Evbuf, ghost g: Shape, datlen: nat, ghost n: nat, ghost k: nat, p: Ptr)
    returns (ok: bool, b': Evbuf, ghost g': Shape)
    requires Valid(b, g) && g.list != [] && 2 <= n && p != NULL && p !in b.heap
    requires g.lwd < k <= |g.list| && FirstSpace(b, g) <= k && Sum(Spaces(b, g)[FirstSpace(b, g)..k]) < datlen
    ensures ok <==> !(DataBehind(g) || (g.segs[g.lwd] == [] && g.lwd != 0))
    ensures ok ==> Valid(b', g') && Content(g') == Content(g) && (Layout(g) ==> Layout(g'))
    ensures ok && !DataBehind(g) ==> |g'.segs| == |g'.list| && !DataBehind(g')
    ensures ok ==> g'.list != [] && datlen <= SpaceInFirst(b', g', n)
    ensures b'.heap.Keys <= b.heap.Keys + {p}
    ensures b'.freezeStart == b.freezeStart && b'.freezeEnd == b.freezeEnd
  {
    hide Flat, ListOf, LayoutOf;
    b', g' := b, g;
    var chain := LastWithData(b, g);
    assert ChunkOf(b, g, g.lwd) == b.heap[chain];
    DataOf(b, g, g.lwd, chain);
    NotFirstAgain(b, g, g.lwd);
    var next := b.heap[chain].next;
    ok := AllEmpty(b, g, next, g.lwd + 1);
    if b.heap[chain].off == 0 {
      ok := ok && chain == b.first;   // EVUTIL_ASSERT(chain == buf->first)
      if ok {
        b', g' := HangSpace(b, g, NULL, chain, 0, datlen, n, datlen, p);
      }
    } else if ok {
      var avail := b.heap[chain].Space();
      SpaceOfLast(b, g, k);
      b', g' := HangSpace(b, g, chain, next, g.lwd + 1, datlen - avail, n, datlen, p);
    }
  }

  lemma SpaceOfLast(b: Evbuf, g: Shape, k: nat)
    requires Valid(b, g) && g.list != [] && g.lwd < k <= |g.list| && FirstSpace(b, g) <= k
    ensures ChunkOf(b, g, g.lwd).Space() <= Sum(Spaces(b, g)[FirstSpace(b, g)..k])
    ensures Sum(Spaces(b, g)[FirstSpace(b, g)..g.lwd + 1]) == ChunkOf(b, g, g.lwd).Space()
  {
    var s, i := Spaces(b, g), FirstSpace(b, g);
    assert s[g.lwd] == ChunkOf(b, g, g.lwd).Space();
    if i == g.lwd {
      SumMore(s, i, i);
      assert s[i..i] == [];
      SumMonotonic(s, i, i + 1, k);
    } else {
      assert s[g.lwd + 1..g.lwd + 1] == [];
    }
  }

  // ----- _evbuffer_read_setup_vecs, evbuffer_reserve_space

  /** v is a part of the space of the chunk at index i, or all of it. */
  ghost predicate VecAt(b: Evbuf, g: Shape, i: nat, v: Iovec, full: bool)
    requires Valid(b, g)
  {
    i < |g.list| && var c := ChunkOf(b, g, i);
    v.chunk == g.list[i] && v.pos == c.misalign + c.off && if full then v.len == c.Space() else v.len <= c.Space()
  }

  /** The vecs are space of the chunks from index i on, the first nFull of them all
      of it. */
  ghost predicate VecsAt(b: Evbuf, g: Shape, i: nat, vecs: seq<Iovec>, nFull: int)
    requires Valid(b, g)
  {
    forall k | 0 <= k < |vecs| :: VecAt(b, g, i + k, vecs[k], k < nFull)
  }

  function TotalLen(vecs: seq<Iovec>): nat {
    if vecs == [] then 0 else TotalLen(vecs[..|vecs| - 1]) + vecs[|vecs| - 1].len
  }

  lemma TotalLenMore(vecs: seq<Iovec>, v: Iovec)
    ensures TotalLen(vecs + [v]) == TotalLen(vecs) + v.len
  {
    assert (vecs + [v])[..|vecs|] == vecs;
  }

  /** _evbuffer_read_setup_vecs: the space of the first chunks that have any, in
      order, until it is enough; with exact, not a byte more. */
  method ReadSetupVecs(b: Evbuf, ghost g: Shape, howmuch: int, n: nat, exact: bool)
    returns (r: int, vecs: seq<Iovec>)
    requires Valid(b, g) && g.list != [] && howmuch <= SpaceInFirst(b, g, n)
    ensures if howmuch < 0 then r == -1 && vecs == [] else r == |vecs| <= n
    ensures VecsAt(b, g, FirstSpace(b, g), vecs, if exact then |vecs| - 1 else |vecs|)
    ensures howmuch <= TotalLen(vecs) && (exact && 0 <= howmuch ==> TotalLen(vecs) == howmuch)
    ensures vecs != [] ==> TotalLen(vecs[..|vecs| - 1]) < howmuch
  {
    hide Flat, ListOf, TotalLen, FirstSpace, SpaceInFirst;
    r, vecs := -1, [];
    assert TotalLen([]) == 0 by { NoLen(); }
    if howmuch < 0 {
      return;
    }
    ghost var first := FirstSpace(b, g);
    var p := FirstWithSpace(b, g);
    var soFar, i := 0, 0;
    while i < n && soFar < howmuch
      invariant i == |vecs| <= n && first + i <= |g.list| && p == InSlot(g.list, first + i)
      invariant VecsAt(b, g, first, vecs, if exact && howmuch <= soFar then i - 1 else i)
      invariant soFar == TotalLen(vecs) && (exact ==> soFar <= howmuch)
      invariant vecs != [] ==> TotalLen(vecs[..i - 1]) < howmuch
    {
      MoreSpace(b, g, n, vecs, howmuch);
      assert ChunkOf(b, g, first + i) == b.heap[p];
      var c := b.heap[p];
      var avail := c.Space();
      if howmuch - soFar < avail && exact {
        avail := howmuch - soFar;
      }
      var v := Iovec(p, c.misalign + c.off, avail);
      TotalLenMore(vecs, v);
      assert (vecs + [v])[..i] == vecs;
      vecs := vecs + [v];
      soFar := soFar + avail;
      p, i := c.next, i + 1;
    }
    r := i;
    if soFar < howmuch {
      EnoughSpace(b, g, n, vecs, howmuch);
    }
  }

  lemma NoLen()
    ensures TotalLen([]) == 0
  {}

  method FirstWithSpace(b: Evbuf, ghost g: Shape) returns (p: Ptr)
    requires Valid(b, g) && g.list != []
    ensures p == InSlot(g.list, FirstSpace(b, g))
  {
    p := LastWithData(b, g);
    assert ChunkOf(b, g, g.lwd) == b.heap[p];
    if b.heap[p].Space() == 0 {
      p := b.heap[p].next;
    }
  }

  /** As long as every vec is all of the space of its chunk, they add up to it. */
  lemma {:induction false} FullVecs(b: Evbuf, g: Shape, i: nat, vecs: seq<Iovec>)
    requires Valid(b, g) && i + |vecs| <= |g.list| && VecsAt(b, g, i, vecs, |vecs|)
    ensures TotalLen(vecs) == Sum(Spaces(b, g)[i..i + |vecs|])
  {
    hide Valid, ChunkOf, VecsAt, VecAt, Spaces;
    var s, n := Spaces(b, g), |vecs|;
    if n == 0 {
      assert s[i..i] == [];
    } else {
      LastFullVec(b, g, i, vecs);
      FullVecs(b, g, i, vecs[..n - 1]);
      SumMore(s, i, i + n - 1);
    }
  }

  lemma LastFullVec(b: Evbuf, g: Shape, i: nat, vecs: seq<Iovec>)
    requires Valid(b, g) && vecs != [] && i + |vecs| <= |g.list| && VecsAt(b, g, i, vecs, |vecs|)
    ensures VecsAt(b, g, i, vecs[..|vecs| - 1], |vecs| - 1)
    ensures vecs[|vecs| - 1].len == Spaces(b, g)[i + |vecs| - 1]
  {
    hide Valid, ChunkOf;
    var n := |vecs|;
    assert forall k {:trigger vecs[k]} | 0 <= k < n - 1 :: VecAt(b, g, i + k, vecs[k], k < n);
    assert VecAt(b, g, i + (n - 1), vecs[n - 1], true);
    assert Spaces(b, g)[i + n - 1] == ChunkOf(b, g, i + n - 1).Space();
  }

  lemma MoreSpace(b: Evbuf, g: Shape, n: nat, vecs: seq<Iovec>, howmuch: nat)
    requires Valid(b, g) && g.list != [] && |vecs| < n && howmuch <= SpaceInFirst(b, g, n)
    requires var i := FirstSpace(b, g); i + |vecs| <= |g.list| && VecsAt(b, g, i, vecs, |vecs|)
    requires TotalLen(vecs) < howmuch
    ensures FirstSpace(b, g) + |vecs| < |g.list|
  {
    hide Flat, ListOf, VecsAt, FirstSpace, TotalLen, Sum;
    FullVecs(b, g, FirstSpace(b, g), vecs);
  }

  lemma EnoughSpace(b: Evbuf, g: Shape, n: nat, vecs: seq<Iovec>, howmuch: nat)
    requires Valid(b, g) && g.list != [] && |vecs| == n && howmuch <= SpaceInFirst(b, g, n)
    requires var i := FirstSpace(b, g); i + |vecs| <= |g.list| && VecsAt(b, g, i, vecs, |vecs|)
    ensures howmuch <= TotalLen(vecs)
  {
    hide Flat, ListOf, VecsAt, FirstSpace, TotalLen, Sum;
    FullVecs(b, g, FirstSpace(b, g), vecs);
  }

  /** evbuffer_reserve_space reaches an assertion: only where data follows an empty
      chunk, or the slot is behind. */
  ghost predicate ReserveTrips(b: Evbuf, g: Shape, size: nat, n: nat)
    requires Valid(b, g)
  {
    if n == 1 then Inserts(b, g, size) && !TailOk(g.segs, g.lwd) else FastTrips(b, g, size, n)
  }

  /** evbuffer_reserve_space.  i is the index of the first chunk it exposes.  That is the
      first with space or the last of all, unless a single chunk was asked for, that
      was poor, and the next one was taken with others behind it. */
  method ReserveSpace(b: Evbuf, ghost g: Shape, size: nat, n: int, p: Ptr)
    returns (ok: bool, r: int, vecs: seq<Iovec>, b': Evbuf, ghost g': Shape, ghost i: nat)
    requires Valid(b, g) && p != NULL && p !in b.heap
    ensures ok <==> b.freezeEnd || n < 1 || !ReserveTrips(b, g, size, n)
    ensures b.freezeEnd || n < 1 ==> r == -1 && vecs == [] && b' == b && g' == g
    ensures ok ==> Valid(b', g') && Content(g') == Content(g) && (Layout(g) ==> Layout(g'))
    ensures ok && !DataBehind(g) ==> |g'.segs| == |g'.list| && !DataBehind(g')
    ensures ok && !b.freezeEnd && 1 <= n ==>
              && r == |vecs| <= n && size <= TotalLen(vecs) && (n == 1 ==> |vecs| == 1)
              && g'.list != [] && g'.lwd <= i && VecsAt(b', g', i, vecs, |vecs|)
              && (i == FirstSpace(b', g') || (|vecs| == 1 && i == |g'.list| - 1) <==> !ReservesBehind(b, g, size, n))
    ensures b'.heap.Keys <= b.heap.Keys + {p}
    ensures b'.freezeStart == b.freezeStart && b'.freezeEnd == b.freezeEnd
  {
    hide Flat, ListOf, LayoutOf, TotalLen, SpaceInFirst, FastTrips, Inserts, TailOk, TakesNext;
    ok, r, vecs, b', g', i := true, -1, [], b, g, 0;
    if b.freezeEnd || n < 1 {
      return;
    }
    if n == 1 {
      var q;
      ok, q, b', g', i := ExpandSingle(b, g, size, p);
      if ok {
        assert ChunkOf(b', g', i) == b'.heap[q];
        var c := b'.heap[q];
        var v := Iovec(q, c.misalign + c.off, c.Space());
        assert TotalLen([v]) == c.Space() by {
          NoLen();
          TotalLenMore([], v);
          assert [] + [v] == [v];
        }
        r, vecs := 1, [v];
      }
    } else {
      ok, b', g' := ExpandFast(b, g, size, n, p);
      if ok {
        r, vecs := ReadSetupVecs(b', g', size, n, false);
        i := FirstSpace(b', g');
      }
    }
  }

  /** That happens, in the documented layout, with one byte of space left in the chunk
      with data. */
  lemma ReservesBehindHappens()
    ensures exists b, g :: Valid(b, g) && Layout(g) && ReservesBehind(b, g, 100, 1)
  {
    var data := seq(MIN_BUFFER_SIZE - CHAIN_SIZE - 1, _ => 0);
    var b, g := TwoEmptyChunks(data);
    assert ChunkOf(b, g, 0) == b.heap[1] && ChunkOf(b, g, 1) == b.heap[2];
    assert ReservesBehind(b, g, 100, 1);
  }

  /** The one chunk that is reserved is neither the first with space nor the last. */
  ghost predicate ReservesBehind(b: Evbuf, g: Shape, size: nat, n: int)
    requires Valid(b, g)
  {
    n == 1 && TakesNext(b, g, size) && FirstSpace(b, g) + 2 < |g.list|
  }
}
