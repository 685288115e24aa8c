/** The operations of buffer.c on two evbuffers: whole chunks change hands. */
module EvbufferTransfer {
  import opened Bytes
  import opened Chunks
  import opened EvbufferCore
  import opened EvbufferMove

  /** APPEND_CHAIN, for two evbuffers that have chunks */
  method AppendChain(o: Evbuf, ghost go: Shape, i: Evbuf, ghost gi: Shape)
    returns (o': Evbuf, ghost go': Shape)
    requires Valid(o, go) && Valid(i, gi) && o.heap.Keys !! i.heap.Keys
    requires go.list != [] && gi.list != []
    ensures Valid(o', go') && Content(go') == Content(go) + Content(gi)
    ensures go' == Shape(go.list + gi.list, go.segs + gi.segs, |go.list| + gi.lwd)
    ensures o'.heap.Keys == o.heap.Keys + i.heap.Keys
    ensures o'.freezeStart == o.freezeStart && o'.freezeEnd == o.freezeEnd
  {
    hide Flat, ListOf;
    Join(o.heap, go.list, go.segs, i.heap, gi.list, gi.segs);
    FlatAppend(go.segs, gi.segs);
    var c, d := LastChunk(o, go), FirstChunk(i, gi);
    SlotIsLive(i, gi);
    o' := o.(
      heap := SetSlot(o.heap + i.heap, o.last, i.first),
      slot := if i.slot == NULL then o.last else i.slot,
      last := i.last,
      totalLen := o.totalLen + i.totalLen);
    go' := Shape(go.list + gi.list, go.segs + gi.segs, |go.list| + gi.lwd);
  }

  /** PREPEND_CHAIN, for two evbuffers that have chunks */
  method PrependChain(o: Evbuf, ghost go: Shape, i: Evbuf, ghost gi: Shape)
    returns (o': Evbuf, ghost go': Shape)
    requires Valid(o, go) && Valid(i, gi) && o.heap.Keys !! i.heap.Keys
    requires go.list != [] && gi.list != []
    ensures Valid(o', go') && Content(go') == Content(gi) + Content(go)
    ensures go' == Shape(gi.list + go.list, gi.segs + go.segs, |gi.list| + go.lwd)
    ensures o'.heap.Keys == o.heap.Keys + i.heap.Keys
    ensures o'.freezeStart == o.freezeStart && o'.freezeEnd == o.freezeEnd
  {
    hide Flat, ListOf;
    Join(i.heap, gi.list, gi.segs, o.heap, go.list, go.segs);
    FlatAppend(gi.segs, go.segs);
    var c, d := LastChunk(i, gi), FirstChunk(o, go);
    SlotIsLive(o, go);
    assert i.heap + o.heap == o.heap + i.heap;
    o' := o.(
      heap := SetSlot(o.heap + i.heap, i.last, o.first),
      slot := if o.slot == NULL then i.last else o.slot,
      first := i.first,
      totalLen := o.totalLen + i.totalLen);
    go' := Shape(gi.list + go.list, gi.segs + go.segs, |gi.list| + go.lwd);
  }

  lemma SlotIsLive(b: Evbuf, g: Shape)
    requires Valid(b, g)
    ensures b.slot == NULL <==> g.lwd == 0
    ensures b.slot != NULL ==> b.slot in b.heap
  {
    assert 0 < g.lwd ==> ChunkAt(b.heap, g.list, g.segs, g.lwd - 1);
  }

  lemma HasChunks(g: Shape)
    requires Content(g) != [] && |g.list| == |g.segs|
    ensures g.list != []
  {}

  lemma DataAtSlot(segs: seq<seq<byte>>, lwd: nat)
    requires LayoutOf(segs, lwd) && Flat(segs) != []
    ensures lwd < |segs| && segs[lwd] != []
  {
    if segs != [] && segs[lwd] == [] { FlatEmpty(segs); }
  }

  /** The layout of two joined chains, of which the second has data. */
  lemma LayoutAfterJoin(s1: seq<seq<byte>>, l1: nat, s2: seq<seq<byte>>, l2: nat)
    requires LayoutOf(s1, l1) && LayoutOf(s2, l2) && Flat(s1) != [] && Flat(s2) != []
    ensures LayoutOf(s1 + s2, |s1| + l2) <==> l1 == |s1| - 1
  {
    DataAtSlot(s1, l1);
    DataAtSlot(s2, l2);
    hide Flat;
    var s, l := s1 + s2, |s1| + l2;
    if l1 + 1 < |s1| {
      assert s[l1 + 1] == s1[l1 + 1] == [];
    } else {
      forall i | 0 <= i <= l ensures s[i] != [] {
        assert s[i] == if i < |s1| then s1[i] else s2[i - |s1|];
      }
      forall i | l < i < |s| ensures s[i] == [] {
        assert s[i] == s2[i - |s1|];
      }
    }
  }

  /** evbuffer_add_buffer, for two different evbuffers */
  method AddBuffer(o: Evbuf, ghost go: Shape, i: Evbuf, ghost gi: Shape)
    returns (r: Outcome, o': Evbuf, ghost go': Shape, i': Evbuf, ghost gi': Shape)
    requires Valid(o, go) && Valid(i, gi) && o.heap.Keys !! i.heap.Keys
    ensures r == if Content(gi) != [] && (o.freezeEnd || i.freezeStart) then Frozen else Done
    ensures r == Frozen || Content(gi) == [] ==> o' == o && go' == go && i' == i && gi' == gi
    ensures Valid(o', go') && Valid(i', gi')
    ensures r == Done ==> Content(go') == Content(go) + Content(gi) && Content(gi') == []
    ensures r == Done && Layout(go) && Layout(gi) ==>
              && Layout(gi')
              && (Layout(go') <==> Content(gi) == [] || Content(go) == [] || Tight(go))
    ensures Tight(go) && Tight(gi) ==> Tight(go') && Tight(gi')
    ensures Layout(gi) ==> Layout(gi')
    ensures o'.heap.Keys + i'.heap.Keys <= o.heap.Keys + i.heap.Keys && o'.heap.Keys !! i'.heap.Keys
    ensures o'.freezeStart == o.freezeStart && o'.freezeEnd == o.freezeEnd
    ensures i'.freezeStart == i.freezeStart && i'.freezeEnd == i.freezeEnd
  {
    hide Flat, ListOf, LayoutOf;
    o', go', i', gi' := o, go, i, gi;
    r := if i.totalLen != 0 && (o.freezeEnd || i.freezeStart) then Frozen else Done;
    if r == Frozen || i.totalLen == 0 {
      return;
    }
    assert gi.list != [] by { HasChunks(gi); }
    if o.totalLen == 0 {
      o', go' := CopyChain(o, go, i, gi);
    } else {
      assert go.list != [] by { HasChunks(go); }
      if Layout(go) && Layout(gi) {
        LayoutAfterJoin(go.segs, go.lwd, gi.segs, gi.lwd);
      }
      o', go' := AppendChain(o, go, i, gi);
    }
    ZeroedIsValid(i);
    i', gi' := Zeroed(i), NoShape;
  }

  /** evbuffer_free_all_chains and COPY_CHAIN, into an evbuffer without data */
  method CopyChain(o: Evbuf, ghost go: Shape, i: Evbuf, ghost gi: Shape)
    returns (o': Evbuf, ghost go': Shape)
    requires Valid(o, go) && Valid(i, gi) && Content(go) == []
    ensures Valid(o', go') && Content(go') == Content(gi) && go' == gi
    ensures o'.heap == i.heap
    ensures o'.freezeStart == o.freezeStart && o'.freezeEnd == o.freezeEnd
  {
    var h := FreeAllChains(o, go, o.first, 0);
    assert go.list[0..] == go.list;
    assert h + i.heap == i.heap;
    o' := o.(heap := h + i.heap, first := i.first, last := i.last, slot := i.slot, totalLen := i.totalLen);
    go' := gi;
  }

  /** evbuffer_prepend_buffer, for two different evbuffers */
  method PrependBuffer(o: Evbuf, ghost go: Shape, i: Evbuf, ghost gi: Shape)
    returns (r: Outcome, o': Evbuf, ghost go': Shape, i': Evbuf, ghost gi': Shape)
    requires Valid(o, go) && Valid(i, gi) && o.heap.Keys !! i.heap.Keys
    ensures r == if Content(gi) != [] && (o.freezeStart || i.freezeStart) then Frozen else Done
    ensures r == Frozen || Content(gi) == [] ==> o' == o && go' == go && i' == i && gi' == gi
    ensures Valid(o', go') && Valid(i', gi')
    ensures r == Done ==> Content(go') == Content(gi) + Content(go) && Content(gi') == []
    ensures r == Done && Layout(go) && Layout(gi) ==>
              && Layout(gi')
              && (Layout(go') <==> Content(gi) == [] || Content(go) == [] || Tight(gi))
    ensures Tight(go) && Tight(gi) ==> Tight(go') && Tight(gi')
    ensures o'.heap.Keys + i'.heap.Keys <= o.heap.Keys + i.heap.Keys && o'.heap.Keys !! i'.heap.Keys
    ensures o'.freezeStart == o.freezeStart && o'.freezeEnd == o.freezeEnd
    ensures i'.freezeStart == i.freezeStart && i'.freezeEnd == i.freezeEnd
  {
    hide Flat, ListOf, LayoutOf;
    o', go', i', gi' := o, go, i, gi;
    r := if i.totalLen != 0 && (o.freezeStart || i.freezeStart) then Frozen else Done;
    if r == Frozen || i.totalLen == 0 {
      return;
    }
    assert gi.list != [] by { HasChunks(gi); }
    if o.totalLen == 0 {
      o', go' := CopyChain(o, go, i, gi);
    } else {
      assert go.list != [] by { HasChunks(go); }
      if Layout(go) && Layout(gi) {
        LayoutAfterJoin(gi.segs, gi.lwd, go.segs, go.lwd);
      }
      o', go' := PrependChain(o, go, i, gi);
    }
    ZeroedIsValid(i);
    i', gi' := Zeroed(i), NoShape;
  }

  // ----- evbuffer_remove_buffer

  /** advance_last_with_data: the slot moves forward while the next chunk has data. */
  method AdvanceLastWithData(b: Evbuf, ghost g: Shape) returns (b': Evbuf, ghost g': Shape)
    requires Valid(b, g)
    ensures b' == b.(slot := b'.slot) && g' == g.(lwd := g'.lwd) && Valid(b', g')
    ensures g'.lwd == if g.list == [] then 0 else FirstEmpty(g.segs, g.lwd + 1) - 1
  {
    hide Flat, ListOf;
    b', g' := b, g;
    var p := LastWithData(b, g);
    if p == NULL {
      NotNull(b, g);
      return;
    }
    ChunkFacts(b, g, g.lwd);
    var s, next := b.slot, b.heap[p].next;
    ghost var i := g.lwd;
    if next != NULL { ChunkFacts(b, g, i + 1); }
    while next != NULL && b.heap[next].off != 0
      invariant g.lwd <= i < FirstEmpty(g.segs, g.lwd + 1)
      invariant s == SlotOf(g.list, i) && p == g.list[i] && next == InSlot(g.list, i + 1)
      invariant next != NULL ==> i + 1 < |g.list| && ChunkAt(b.heap, g.list, g.segs, i + 1)
      decreases |g.list| - i
    {
      assert g.segs[i + 1] != [];
      ChunkFacts(b, g, i + 1);
      s, p, next, i := p, next, b.heap[next].next, i + 1;
      if next != NULL { ChunkFacts(b, g, i + 1); }
    }
    if i + 1 < |g.list| { ChunkFacts(b, g, i + 1); }
    b', g' := b.(slot := s), g.(lwd := i);
  }

  lemma NotNull(b: Evbuf, g: Shape)
    requires Valid(b, g)
    ensures forall k | 0 <= k < |g.list| :: g.list[k] != NULL
  {
    forall k | 0 <= k < |g.list| ensures g.list[k] != NULL {
      ChunkFacts(b, g, k);
    }
  }

  /** The first half of evbuffer_remove_buffer: walk over the chunks that fit into n
      bytes.  moved collects them, h is what stays with src.  The assertion in the loop
      looks at what the slot leads to now: the loop sets the slot back to the first chunk
      when it passes it, and so notices that it goes beyond the last chunk with data only
      if that is the first. */
  method TakeChunks(b: Evbuf, ghost g: Shape, n: nat)
    returns (ok: bool, h: map<Ptr, Chunk>, moved: map<Ptr, Chunk>, p: Ptr, previous: Ptr, s: Ptr, taken: nat,
             ghost k: nat)
    requires Valid(b, g) && n < b.totalLen
    ensures ok <==> g.lwd != 0 || Uncovered(g.segs, n) == 0
    ensures ok ==>
              && k == Uncovered(g.segs, n) && k < |g.list| && p == g.list[k]
              && previous == (if k == 0 then g.list[0] else g.list[k - 1])
              && h == Freed(b.heap, g.list, 0, k) && moved == Freed(b.heap, g.list, k, |g.list|)
              && s == (if k < g.lwd then SlotOf(g.list, g.lwd) else NULL)
              && taken == |Flat(g.segs[..k])| <= n < taken + |g.segs[k]|
  {
    hide Flat, ListOf, Freed, LayoutOf;
    ok, h, moved, s, taken := true, b.heap, map[], b.slot, 0;
    FirstOfContent(b, g);
    p, previous, k := b.first, b.first, 0;
    NothingTaken(b, g);
    CutList(b, g, 0, 0);
    while h[p].off <= n - taken
      invariant k < |g.list| && p == g.list[k] && previous == (if k == 0 then g.list[0] else g.list[k - 1])
      invariant h == Freed(b.heap, g.list, 0, k) && moved == Freed(b.heap, g.list, k, |g.list|)
      invariant p in h && h[p].off == |g.segs[k]|
      invariant s == if k < g.lwd then SlotOf(g.list, g.lwd) else NULL
      invariant taken == |Flat(g.segs[..k])| <= n
      invariant 0 < k ==> g.lwd != 0
      decreases |g.list| - k
    {
      FlatTakeMore(g.segs, k);
      NotAllTaken(g, k);
      StepOver(b, g, k);
      OneMoreTaken(b, g, k);
      NotFirstAgain(b, g, k);
      if p == (if s == NULL then b.first else h[s].next) {   // EVUTIL_ASSERT(chain != *src->last_with_datap)
        FirstCovered(g.segs, n);
        return false, h, moved, p, previous, s, taken, k;
      }
      taken := taken + h[p].off;
      previous := p;
      if s == p {   // src->last_with_datap == &chain->next
        s := NULL;
      }
      moved := moved[p := h[p]];
      var next := h[p].next;
      h := h - {p};
      p, k := next, k + 1;
      CutList(b, g, k, 0);
    }
    UncoveredIs(g.segs, n, k);
  }

  lemma NotFirstAgain(b: Evbuf, g: Shape, k: nat)
    requires Valid(b, g) && k < |g.list|
    ensures b.first == g.list[k] <==> k == 0
  {
    OneIndex(b.heap, g.list, g.segs, k);
  }

  lemma FirstCovered(segs: seq<seq<byte>>, n: nat)
    requires n < |Flat(segs)| && segs != [] && |segs[0]| <= n
    ensures Uncovered(segs, n) != 0
  {}

  lemma NothingTaken(b: Evbuf, g: Shape)
    requires Valid(b, g)
    ensures Freed(b.heap, g.list, 0, 0) == b.heap && Freed(b.heap, g.list, 0, |g.list|) == map[]
  {
    NothingFreed(b.heap, g.list, 0);
    assert g.list[0..|g.list|] == g.list;
  }

  lemma OneMoreTaken(b: Evbuf, g: Shape, k: nat)
    requires Valid(b, g) && k < |g.list|
    ensures var p := g.list[k];
            && p in Freed(b.heap, g.list, 0, k)
            && Freed(b.heap, g.list, k, |g.list|)[p := Freed(b.heap, g.list, 0, k)[p]] ==
               Freed(b.heap, g.list, k + 1, |g.list|)
  {
    var n, p := |g.list|, g.list[k];
    OneMoreFreed(b.heap, g.list, g.segs, 0, k);
    OneIndex(b.heap, g.list, g.segs, k);
    ChunkFacts(b, g, k);
    assert g.list[k..n] == [p] + g.list[k + 1..n];
    assert p !in g.list[k + 1..n];
  }

  lemma FirstEmptyOfNone(segs: seq<seq<byte>>, i: nat)
    requires i <= |segs| && forall k | i <= k < |segs| :: segs[k] != []
    ensures FirstEmpty(segs, i) == |segs|
  {}

  /** Where the chunks of another evbuffer can be hung into a proper layout. */
  lemma VictimInLayout(segs: seq<seq<byte>>, lwd: nat)
    requires LayoutOf(segs, lwd)
    ensures TailOk(segs, lwd)
    ensures forall k | 0 <= k < FirstEmpty(segs, lwd) :: segs[k] != []
    ensures FirstEmpty(segs, lwd) == if segs == [] || segs[lwd] == [] then 0 else lwd + 1
  {}

  /** What hanging the first k chunks of gs in place of the empty tail of gd gives */
  ghost function Hung(gd: Shape, list: seq<Ptr>, segs: seq<seq<byte>>): Shape
    requires |gd.list| == |gd.segs| && gd.lwd <= |gd.segs| && list != [] && |segs| == |list|
  {
    var j := FirstEmpty(gd.segs, gd.lwd);
    var all := gd.segs[..j] + segs;
    Shape(gd.list[..j] + list, all, FirstEmpty(all, gd.lwd + 1) - 1)
  }

  lemma HungInLayout(gd: Shape, list: seq<Ptr>, segs: seq<seq<byte>>)
    requires |gd.list| == |gd.segs| && Layout(gd) && list != [] && |segs| == |list|
    requires forall k | 0 <= k < |segs| :: segs[k] != []
    ensures TailOk(gd.segs, gd.lwd)
    ensures var e := Hung(gd, list, segs); Layout(e) && Tight(e) && e.lwd == |e.segs| - 1
  {
    hide LayoutOf, FirstEmpty;
    VictimInLayout(gd.segs, gd.lwd);
    var all := gd.segs[..FirstEmpty(gd.segs, gd.lwd)] + segs;
    FirstEmptyOfNone(all, gd.lwd + 1);
    AllDataLayout(all);
  }

  /** The second half of evbuffer_remove_buffer: the moved chunks replace the empty
      tail of dst. */
  method HangChunks(d: Evbuf, ghost gd: Shape, moved: map<Ptr, Chunk>, from: Ptr, previous: Ptr, taken: nat,
                    ghost list: seq<Ptr>, ghost segs: seq<seq<byte>>)
    returns (ok: bool, d': Evbuf, ghost gd': Shape)
    requires Valid(d, gd) && d.heap.Keys !! moved.Keys
    requires list != [] && from == list[0] && previous == list[|list| - 1] && previous in moved
    requires ListOf(SetSlot(moved, previous, NULL), list, segs) && taken == |Flat(segs)| && |segs| == |list|
    ensures ok <==> TailOk(gd.segs, gd.lwd)
    ensures ok ==> Valid(d', gd') && Content(gd') == Content(gd) + Flat(segs) && gd' == Hung(gd, list, segs)
    ensures ok ==> gd'.list != []
    ensures ok ==> d'.last == previous && previous in d'.heap && SameMemory(d'.heap[previous], moved[previous])
    ensures !ok ==> d' == d && gd' == gd
    ensures d'.heap.Keys <= d.heap.Keys + moved.Keys
    ensures d'.freezeStart == d.freezeStart && d'.freezeEnd == d.freezeEnd
  {
    hide Flat, ListOf, LayoutOf, FirstEmpty;
    ghost var j := FirstEmpty(gd.segs, gd.lwd);
    d', gd' := d, gd;
    var ch, victim := FindVictim(d, gd);
    ok := AllEmpty(d, gd, victim, j);
    if ok {
      d', gd' := HangTail(d, gd, ch, victim, j, moved, from, previous, taken, list, segs);
      d', gd' := AdvanceLastWithData(d', gd');
    }
  }

  /** The same chunk, apart from its link */
  predicate SameMemory(c: Chunk, d: Chunk) {
    c.(next := d.next) == d
  }

  /** evbuffer_free_trailing_empty_chains, and the moved chunks in their place */
  method HangTail(d: Evbuf, ghost gd: Shape, ch: Ptr, victim: Ptr, ghost j: nat, moved: map<Ptr, Chunk>, from: Ptr,
                  previous: Ptr, taken: nat, ghost list: seq<Ptr>, ghost segs: seq<seq<byte>>)
    returns (d': Evbuf, ghost gd': Shape)
    requires Valid(d, gd) && d.heap.Keys !! moved.Keys
    requires j <= |gd.list| && ch == SlotOf(gd.list, j) && victim == InSlot(gd.list, j)
    requires gd.lwd <= j && forall k | j <= k < |gd.segs| :: gd.segs[k] == []
    requires list != [] && from == list[0] && previous == list[|list| - 1] && previous in moved
    requires ListOf(SetSlot(moved, previous, NULL), list, segs) && taken == |Flat(segs)|
    ensures Valid(d', gd') && Content(gd') == Content(gd) + Flat(segs)
    ensures gd' == Shape(gd.list[..j] + list, gd.segs[..j] + segs, gd.lwd)
    ensures d'.last == previous && previous in d'.heap && SameMemory(d'.heap[previous], moved[previous])
    ensures d'.heap.Keys <= d.heap.Keys + moved.Keys
    ensures d'.freezeStart == d.freezeStart && d'.freezeEnd == d.freezeEnd
  {
    hide Flat, ListOf;
    var h := FreeAllChains(d, gd, victim, j);
    HangList(d.heap, gd.list, gd.segs, j, moved, list, segs);
    ReplaceEmptyTail(gd.segs, j, []);
    FlatAppend(gd.segs[..j], segs);
    h := SetSlot(h, ch, NULL) + SetSlot(moved, previous, NULL);
    d' := d.(
      heap := SetSlot(h, ch, from),
      first := if ch == NULL then from else d.first,   // dst->first became NULL
      last := previous,
      totalLen := d.totalLen + taken);
    gd' := Shape(gd.list[..j] + list, gd.segs[..j] + segs, gd.lwd);
  }

  lemma HangList(heap: map<Ptr, Chunk>, l1: seq<Ptr>, g1: seq<seq<byte>>, j: nat,
                 moved: map<Ptr, Chunk>, l2: seq<Ptr>, g2: seq<seq<byte>>)
    requires ListOf(heap, l1, g1) && j <= |l1| && heap.Keys !! moved.Keys
    requires l2 != [] && l2[|l2| - 1] in moved && ListOf(SetSlot(moved, l2[|l2| - 1], NULL), l2, g2)
    ensures var h, s := heap - Elements(l1[j..]), SlotOf(l1, j);
            && (s != NULL ==> s in h) && (s == NULL <==> j == 0)
            && ListOf(SetSlot(SetSlot(h, s, NULL) + SetSlot(moved, l2[|l2| - 1], NULL), s, l2[0]),
                      l1[..j] + l2, g1[..j] + g2)
    ensures |g1| == |l1| && |g2| == |l2|
  {
    CutTail(heap, l1, g1, j);
    var h, s := heap - Elements(l1[j..]), SlotOf(l1, j);
    Join(SetSlot(h, s, NULL), l1[..j], g1[..j], SetSlot(moved, l2[|l2| - 1], NULL), l2, g2);
    assert SlotOf(l1[..j], j) == s;
  }

  lemma AllDataLayout(segs: seq<seq<byte>>)
    requires segs != [] && forall k | 0 <= k < |segs| :: segs[k] != []
    ensures LayoutOf(segs, |segs| - 1)
  {}

  /** Removing n bytes from src leaves the layout of dst intact. */
  ghost predicate RemoveKeepsLayout(gs: Shape, d: Evbuf, gd: Shape, n: nat)
    requires Valid(d, gd)
  {
    if n == 0 || Content(gs) == [] then true
    else if |Content(gs)| <= n then Content(gd) == [] || Tight(gd)
    else gs.segs != [] && (|gs.segs[0]| <= n || AddKeepsLayout(d, gd, gs.segs[0][..n]))
  }

  /** evbuffer_remove_buffer reaches an assertion: that of its loop, that of
      evbuffer_free_trailing_empty_chains, or that of evbuffer_add at its end. */
  ghost predicate RemoveTrips(s: Evbuf, gs: Shape, d: Evbuf, gd: Shape, n: nat)
    requires Valid(s, gs) && Valid(d, gd)
  {
    && 0 < n < |Content(gs)|
    && var k := Uncovered(gs.segs, n);
       || (gs.lwd == 0 && k != 0)
       || RestTrips(s, gs, d, gd, k, gs.segs[k][..n - |Flat(gs.segs[..k])|])
  }

  /** After k whole chunks, dst trips over them or over the rest. */
  ghost predicate RestTrips(s: Evbuf, gs: Shape, d: Evbuf, gd: Shape, k: nat, rest: seq<byte>)
    requires Valid(s, gs) && Valid(d, gd) && k < |gs.list|
  {
    if Flat(gs.segs[..k]) == [] then AddTrips(d, gd, rest)
    else
      || !TailOk(gd.segs, gd.lwd)
      || var e := Hung(gd, gs.list[..k], gs.segs[..k]);
         SplitTrips(ChunkOf(s, gs, k - 1), e.segs, e.lwd, rest)
  }

  /** With both in the documented layout, only a read that stays inside the first chunk
      of src depends on the empty chunks of dst. */
  lemma RemoveTripsInLayout(s: Evbuf, gs: Shape, d: Evbuf, gd: Shape, n: nat)
    requires Valid(s, gs) && Valid(d, gd) && Layout(gs) && Layout(gd)
    ensures RemoveTrips(s, gs, d, gd, n) <==>
              0 < n < |Content(gs)| && gs.segs != [] && n < |gs.segs[0]| && AddTrips(d, gd, gs.segs[0][..n])
  {
    hide Flat, ListOf, LayoutOf, FirstEmpty, Hung, SplitTrips;
    if 0 < n < |Content(gs)| {
      var k := Uncovered(gs.segs, n);
      FirstOfContent(s, gs);
      CoveredInLayout(gs, n);
      if k != 0 {
        HungInLayout(gd, gs.list[..k], gs.segs[..k]);
        var e := Hung(gd, gs.list[..k], gs.segs[..k]);
        NoSplitTrip(ChunkOf(s, gs, k - 1), e.segs, e.lwd, gs.segs[k][..n - |Flat(gs.segs[..k])|]);
      }
    }
  }

  lemma NoSplitTrip(c: Chunk, segs: seq<seq<byte>>, lwd: nat, data: seq<byte>)
    requires c.Fits() && lwd == |segs| - 1
    ensures !SplitTrips(c, segs, lwd, data)
  {}

  lemma SameSplitTrips(c: Chunk, d: Chunk, segs: seq<seq<byte>>, lwd: nat, data: seq<byte>)
    requires c.Fits() && d.Fits() && SameMemory(c, d) && lwd < |segs|
    ensures SplitTrips(c, segs, lwd, data) == SplitTrips(d, segs, lwd, data)
  {}

  lemma CoveredInLayout(g: Shape, n: nat)
    requires Layout(g) && |g.list| == |g.segs| && n < |Content(g)|
    ensures var k := Uncovered(g.segs, n);
            && k <= g.lwd && (forall i | 0 <= i < k :: g.segs[i] != [])
            && (Flat(g.segs[..k]) == [] <==> k == 0) && (k == 0 <==> n < |g.segs[0]|)
  {
    var k := Uncovered(g.segs, n);
    FlatTakeMore(g.segs, k);
    if 0 < k {
      FlatElementLength(g.segs[..k], 0);
    }
  }

  /** evbuffer_remove_buffer, for two different evbuffers */
  method RemoveBuffer(s: Evbuf, ghost gs: Shape, d: Evbuf, ghost gd: Shape, n: nat, p: Ptr)
    returns (r: Outcome, s': Evbuf, ghost gs': Shape, d': Evbuf, ghost gd': Shape)
    requires Valid(s, gs) && Valid(d, gd)
    requires s.heap.Keys !! d.heap.Keys && p != NULL && p !in s.heap && p !in d.heap
    ensures r == if n != 0 && (d.freezeEnd || s.freezeStart) then Frozen
                 else if RemoveTrips(s, gs, d, gd, n) then AssertFailed else Done
    ensures r == Frozen ==> s' == s && gs' == gs && d' == d && gd' == gd
    ensures r == Done ==> Valid(s', gs') && Valid(d', gd') && (Layout(gs) ==> Layout(gs'))
    ensures r == Done ==> var m := Min(n, |Content(gs)|);
              Content(gd') == Content(gd) + Content(gs)[..m] && Content(gs') == Content(gs)[m..]
    ensures r == Done && Layout(gs) && Layout(gd) ==>
              && (Layout(gd') <==> RemoveKeepsLayout(gs, d, gd, n))
              && (Tight(gs) && Tight(gd) ==> Tight(gs') && Tight(gd'))
    ensures s'.heap.Keys + d'.heap.Keys <= s.heap.Keys + d.heap.Keys + {p} && s'.heap.Keys !! d'.heap.Keys
    ensures s'.freezeStart == s.freezeStart && s'.freezeEnd == s.freezeEnd
    ensures d'.freezeStart == d.freezeStart && d'.freezeEnd == d.freezeEnd
  {
    hide Flat, ListOf, LayoutOf, RestTrips;
    s', gs', d', gd' := s, gs, d, gd;
    r := if n != 0 && (d.freezeEnd || s.freezeStart) then Frozen else Done;
    if r == Frozen || n == 0 {
      return;
    }
    if s.totalLen <= n {
      r, d', gd', s', gs' := AddBuffer(d, gd, s, gs);
    } else {
      r, s', gs', d', gd' := RemoveSome(s, gs, d, gd, n, p);
    }
  }

  /** The chunks that change hands form a list of their own. */
  lemma MovedChunks(b: Evbuf, g: Shape, k: nat)
    requires Valid(b, g) && k < |g.list|
    ensures Freed(b.heap, g.list, 0, k).Keys !! Freed(b.heap, g.list, k, |g.list|).Keys
    ensures 0 < k ==>
              var moved, l := Freed(b.heap, g.list, k, |g.list|), g.list[..k];
              && l[k - 1] in moved && l[0] == b.first && moved[l[k - 1]] == ChunkOf(b, g, k - 1)
              && ListOf(SetSlot(moved, l[k - 1], NULL), l, g.segs[..k])
  {
    CutTail(b.heap, g.list, g.segs, k);
    assert g.list[k..|g.list|] == g.list[k..] && g.list[0..k] == g.list[..k];
    assert Freed(b.heap, g.list, 0, k).Keys !! Freed(b.heap, g.list, k, |g.list|).Keys by {
      assert g.list == g.list[..k] + g.list[k..];
    }
  }

  /** The partial case of evbuffer_remove_buffer */
  method RemoveSome(s: Evbuf, ghost gs: Shape, d: Evbuf, ghost gd: Shape, n: nat, p: Ptr)
    returns (r: Outcome, s': Evbuf, ghost gs': Shape, d': Evbuf, ghost gd': Shape)
    requires Valid(s, gs) && Valid(d, gd) && 0 < n < s.totalLen && !d.freezeEnd
    requires s.heap.Keys !! d.heap.Keys && p != NULL && p !in s.heap && p !in d.heap
    ensures r == if RemoveTrips(s, gs, d, gd, n) then AssertFailed else Done
    ensures r == Done ==> Valid(s', gs') && Valid(d', gd') && (Layout(gs) ==> Layout(gs'))
    ensures r == Done ==> Content(gd') == Content(gd) + Content(gs)[..n] && Content(gs') == Content(gs)[n..]
    ensures gs.segs != []
    ensures r == Done && Layout(gs) && Layout(gd) ==>
              && (Layout(gd') <==> |gs.segs[0]| <= n || AddKeepsLayout(d, gd, gs.segs[0][..n]))
              && (Tight(gs) && Tight(gd) ==> Tight(gs') && Tight(gd'))
    ensures s'.heap.Keys + d'.heap.Keys <= s.heap.Keys + d.heap.Keys + {p} && s'.heap.Keys !! d'.heap.Keys
    ensures s'.freezeStart == s.freezeStart && s'.freezeEnd == s.freezeEnd
    ensures d'.freezeStart == d.freezeStart && d'.freezeEnd == d.freezeEnd
  {
    hide Flat, ListOf, LayoutOf, Freed, FirstEmpty, AddTrips, AddKeepsLayout, Tight, RestTrips, Cut;
    s', gs', d', gd' := s, gs, d, gd;
    FirstOfContent(s, gs);
    var ok, h, moved, chain, previous, slot, taken;
    ghost var k;
    ok, h, moved, chain, previous, slot, taken, k := TakeChunks(s, gs, n);
    if !ok {
      r := AssertFailed;
      return;
    }
    if Layout(gs) { CoveredInLayout(gs, n); }
    if taken != 0 {
      if Layout(gs) { LayoutAfterCut(gs, k, n - taken); }
      if k <= gs.lwd && Tight(gs) { TightAfterCut(gs, k, n - taken); }
      r, s', gs', d', gd' := MoveWhole(s, gs, d, gd, n, p, h, moved, chain, previous, slot, taken, k);
    } else {
      r, s', gs', d', gd' := MoveNone(s, gs, d, gd, n, p, chain, slot, k);
    }
  }

  lemma TightAfterCut(g: Shape, k: nat, n: nat)
    requires Tight(g) && k < |g.list| == |g.segs| && k <= g.lwd && n <= |g.segs[k]|
    ensures Tight(Cut(g, k, n))
  {}

  /** With no byte in the chunks that were passed they stay where they are. */
  method MoveNone(s: Evbuf, ghost gs: Shape, d: Evbuf, ghost gd: Shape, n: nat, p: Ptr, chain: Ptr, slot: Ptr,
                  ghost k: nat)
    returns (r: Outcome, s': Evbuf, ghost gs': Shape, d': Evbuf, ghost gd': Shape)
    requires Valid(s, gs) && Valid(d, gd) && !d.freezeEnd && n < s.totalLen
    requires s.heap.Keys !! d.heap.Keys && p != NULL && p !in s.heap && p !in d.heap
    requires k < |gs.list| && chain == gs.list[k] && Flat(gs.segs[..k]) == [] && n < |gs.segs[k]|
    requires slot == if k < gs.lwd then SlotOf(gs.list, gs.lwd) else NULL
    ensures r == if RestTrips(s, gs, d, gd, k, gs.segs[k][..n]) then AssertFailed else Done
    ensures r == Done ==> Valid(s', gs') && Valid(d', gd')
    ensures r == Done ==> Content(gd') == Content(gd) + Content(gs)[..n] && Content(gs') == Content(gs)[n..]
    ensures r == Done && k == 0 && Layout(gs) ==> Layout(gs') && (Tight(gs) ==> Tight(gs'))
    ensures r == Done && Layout(gd) ==> (Layout(gd') <==> AddKeepsLayout(d, gd, gs.segs[k][..n]))
    ensures r == Done && Tight(gd) ==> Tight(gd')
    ensures s'.heap.Keys + d'.heap.Keys <= s.heap.Keys + d.heap.Keys + {p} && s'.heap.Keys !! d'.heap.Keys
    ensures s'.freezeStart == s.freezeStart && s'.freezeEnd == s.freezeEnd
    ensures d'.freezeStart == d.freezeStart && d'.freezeEnd == d.freezeEnd
  {
    hide Flat, ListOf, LayoutOf, FirstEmpty, AddTrips, AddKeepsLayout;
    ChunkFacts(s, gs, k);
    var c := s.heap[chain];
    r, d', gd' := Add(d, gd, c.Data()[..n], p);
    s', gs' := SetChunk(s, gs, chain, c.Skip(n), k);
    s', gs' := s'.(slot := slot), gs'.(lwd := if k < gs.lwd then gs.lwd else 0);
    FlatCut(gs.segs, k, n);
    Skipped(gs.segs, k, n);
    if k == 0 && Layout(gs) {
      LayoutAfterCut(gs, 0, n);
    }
  }

  lemma Skipped(segs: seq<seq<byte>>, k: nat, n: nat)
    requires k < |segs| && n <= |segs[k]| && n <= |Flat(segs)| && Flat(segs[..k]) == []
    ensures Flat(segs)[..n] == segs[k][..n] && Flat(segs[k := segs[k][n..]]) == Flat(segs)[n..]
    ensures k == 0 ==> segs[k..][0 := segs[k][n..]] == segs[k := segs[k][n..]]
  {
    hide Flat;
    var e := segs[k := segs[k][n..]];
    FlatCut(segs, k, n);
    FlatSplit(e, k);
    assert e[..k] == segs[..k] && e[k..] == segs[k..][0 := segs[k][n..]];
  }

  /** The chunks that fit into n bytes go to dst, and then the rest of the bytes. */
  method MoveWhole(s: Evbuf, ghost gs: Shape, d: Evbuf, ghost gd: Shape, n: nat, p: Ptr, h: map<Ptr, Chunk>,
                   moved: map<Ptr, Chunk>, chain: Ptr, previous: Ptr, slot: Ptr, taken: nat, ghost k: nat)
    returns (r: Outcome, s': Evbuf, ghost gs': Shape, d': Evbuf, ghost gd': Shape)
    requires Valid(s, gs) && Valid(d, gd) && !d.freezeEnd && n < s.totalLen
    requires s.heap.Keys !! d.heap.Keys && p != NULL && p !in s.heap && p !in d.heap
    requires 0 < k < |gs.list| && chain == gs.list[k] && previous == gs.list[k - 1]
    requires h == Freed(s.heap, gs.list, 0, k) && moved == Freed(s.heap, gs.list, k, |gs.list|)
    requires slot == if k < gs.lwd then SlotOf(gs.list, gs.lwd) else NULL
    requires 0 < taken == |Flat(gs.segs[..k])| <= n < taken + |gs.segs[k]|
    ensures r == if RestTrips(s, gs, d, gd, k, gs.segs[k][..n - taken]) then AssertFailed else Done
    ensures r == Done ==> Valid(s', gs') && Valid(d', gd') && gs' == Cut(gs, k, n - taken)
    ensures r == Done ==> Content(gd') == Content(gd) + Content(gs)[..n] && Content(gs') == Content(gs)[n..]
    ensures r == Done && Layout(gd) && (forall i | 0 <= i < k :: gs.segs[i] != []) ==> Layout(gd') && Tight(gd')
    ensures s'.heap.Keys + d'.heap.Keys <= s.heap.Keys + d.heap.Keys + {p} && s'.heap.Keys !! d'.heap.Keys
    ensures s'.freezeStart == s.freezeStart && s'.freezeEnd == s.freezeEnd
    ensures d'.freezeStart == d.freezeStart && d'.freezeEnd == d.freezeEnd
  {
    hide Flat, ListOf, LayoutOf, Freed, FirstEmpty, AddKeepsLayout, Hung, TailOk, SplitTrips, Cut, AddSplits;
    s', gs' := s, gs;
    MovedChunks(s, gs, k);
    var ok;
    ok, d', gd' := HangChunks(d, gd, moved, s.first, previous, taken, gs.list[..k], gs.segs[..k]);
    if !ok {
      r := AssertFailed;
      return;
    }
    ghost var data := gs.segs[k][..n - taken];
    if Layout(gd) && (forall i | 0 <= i < k :: gs.segs[i] != []) {
      HungInLayout(gd, gs.list[..k], gs.segs[..k]);
      NoTripWhenTight(d', gd', data);
    }
    var rest;
    rest, s', gs' := KeepRest(s, gs, h, chain, slot, k, n - taken, n);
    SameSplitTrips(LastChunk(d', gd'), ChunkOf(s, gs, k - 1), gd'.segs, gd'.lwd, data);
    r, d', gd' := Add(d', gd', rest, p);
    Assoc(Content(gd), Flat(gs.segs[..k]), data);
  }

  /** src goes on with its chunk k, without the first left bytes of that. */
  method KeepRest(s: Evbuf, ghost gs: Shape, h: map<Ptr, Chunk>, chain: Ptr, slot: Ptr, ghost k: nat, left: nat, n: nat)
    returns (rest: seq<byte>, s': Evbuf, ghost gs': Shape)
    requires Valid(s, gs) && k < |gs.list| && chain == gs.list[k] && h == Freed(s.heap, gs.list, 0, k)
    requires slot == if k < gs.lwd then SlotOf(gs.list, gs.lwd) else NULL
    requires left <= |gs.segs[k]| && n == |Flat(gs.segs[..k])| + left <= s.totalLen
    ensures rest == gs.segs[k][..left] && Valid(s', gs') && gs' == Cut(gs, k, left)
    ensures Content(gs) == Flat(gs.segs[..k]) + rest + Content(gs') && |Flat(gs.segs[..k]) + rest| == n
    ensures Content(gs)[..n] == Flat(gs.segs[..k]) + rest && Content(gs)[n..] == Content(gs')
    ensures s'.heap.Keys == h.Keys && s'.freezeStart == s.freezeStart && s'.freezeEnd == s.freezeEnd
  {
    hide Flat, ListOf, LayoutOf, Freed;
    CutList(s, gs, k, left);
    var c := h[chain];
    rest := c.Data()[..left];
    FlatCut(gs.segs, k, left);
    Halves(Content(gs), n);
    s' := s.(heap := h[chain := c.Skip(left)], first := chain, slot := slot, totalLen := s.totalLen - n);
    gs' := Cut(gs, k, left);
  }

  lemma NoTripWhenTight(b: Evbuf, g: Shape, data: seq<byte>)
    requires Valid(b, g) && Tight(g)
    ensures !AddTrips(b, g, data) && AddKeepsLayout(b, g, data)
  {}

  /** evbuffer_add, on a buffer with one byte in its first chunk and an empty chunk behind
      it, as reserving space leaves it, writes into the empty chunk and leaves the slot. */
  method AddBehindReserved() returns (b: Evbuf, ghost g: Shape)
    ensures Valid(b, g) && g == Shape([1, 2], [[7], [8]], 0)
  {
    var zeros := seq(MIN_BUFFER_SIZE - CHAIN_SIZE, _ => 0);
    var c, e := Chunk(2, [7] + zeros[1..], 0, 1), Chunk(NULL, zeros, 0, 0);
    b := Evbuf(map[1 := c, 2 := e], 1, 2, NULL, 1, false, false);
    g := Shape([1, 2], [[7], []], 0);
    assert c.Data() == [7] && e.Data() == [];
    IsList(b.heap, g.list, g.segs);
    assert Content(g) == [7] by {
      FlatEmpty(g.segs[1..]);
    }
    assert Valid(b, g) && Layout(g) && LastChunk(b, g) == e;
    ghost var was := g;
    var r;
    hide ListOf, Flat, FirstEmpty, LayoutOf;
    r, b, g := Add(b, g, [8], 3);
    assert was.segs[1] + [8] == [8];
  }

  /** On such a buffer the assertion of the loop fails when the first byte is removed. */
  lemma LoopAssertionFails()
    ensures exists s, gs, d, gd, n: nat ::
              && Valid(s, gs) && Valid(d, gd) && gs == Shape([1, 2], [[7], [8]], 0)
              && n < |Content(gs)| && gs.lwd == 0 && Uncovered(gs.segs, n) != 0 && RemoveTrips(s, gs, d, gd, n)
  {
    var s, gs := TwoFullChunks([7], [8]);
    var d := Evbuf(map[], NULL, NULL, NULL, 0, false, false);
    ZeroedIsValid(d);
    assert |Flat(gs.segs[..1])| == 1;
    UncoveredIs(gs.segs, 1, 1);
    assert Valid(s, gs) && Valid(d, NoShape) && RemoveTrips(s, gs, d, NoShape, 1);
  }
}
