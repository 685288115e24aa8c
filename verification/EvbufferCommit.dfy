/** evbuffer_commit_space of buffer.c: count bytes that were written into reserved
    space as data. */
module EvbufferCommit {
  import opened Bytes
  import opened Chunks
  import opened EvbufferCore
  import opened EvbufferMove
  import opened EvbufferTransfer
  import opened EvbufferReserve

  /** The bytes that are in memory where v points. */
  ghost function Written(b: Evbuf, v: Iovec): seq<byte> {
    if v.chunk in b.heap && v.pos + v.len <= |b.heap[v.chunk].mem|
    then b.heap[v.chunk].mem[v.pos..v.pos + v.len] else []
  }

  ghost function AllWritten(b: Evbuf, vecs: seq<Iovec>): seq<byte> {
    if vecs == [] then [] else AllWritten(b, vecs[..|vecs| - 1]) + Written(b, vecs[|vecs| - 1])
  }

  /** The caller used one chunk only, the last of the list. */
  predicate OnlyLast(b: Evbuf, ghost g: Shape, vecs: seq<Iovec>)
    requires Valid(b, g)
  {
    && |vecs| == 1 && b.last != NULL && vecs[0].chunk == b.last
    && assert g.list != [] ==> ChunkAt(b.heap, g.list, g.segs, |g.list| - 1);
       vecs[0].pos == b.heap[b.last].misalign + b.heap[b.last].off
  }

  /** The vecs fit where they point to. */
  ghost predicate CommitFits(b: Evbuf, g: Shape, vecs: seq<Iovec>)
    requires Valid(b, g)
  {
    if OnlyLast(b, g, vecs) then vecs[0].len <= LastChunk(b, g).Space()
    else g.list != [] && VecsAt(b, g, FirstSpace(b, g), vecs, 0)
  }

  /** No chunk stays empty before one that gets data. */
  ghost predicate CommitKeepsLayout(b: Evbuf, g: Shape, vecs: seq<Iovec>)
    requires Valid(b, g) && g.list != [] && CommitFits(b, g, vecs)
  {
    if OnlyLast(b, g, vecs) then
      vecs[0].len == 0 || Tight(g) || (g.lwd == |g.list| - 2 && g.segs[g.lwd] != [])
    else
      var i := FirstSpace(b, g);
      forall m | 0 <= m < |vecs| && 0 < vecs[m].len ::
        (i == g.lwd || g.segs[g.lwd] != []) && forall k | 0 <= k < m :: 0 < vecs[k].len || g.segs[i + k] != []
  }

  /** No data follows a chunk that gets some. */
  ghost predicate NoneBehind(g: Shape, i: nat, vecs: seq<Iovec>) {
    forall m | 0 <= m < |vecs| && 0 < vecs[m].len :: NoneBehindVec(g, i, m)
  }

  /** What is committed comes at the end. */
  ghost predicate CommitAppends(b: Evbuf, g: Shape, vecs: seq<Iovec>)
    requires Valid(b, g)
  {
    vecs == [] || OnlyLast(b, g, vecs) || (g.list != [] && NoneBehind(g, FirstSpace(b, g), vecs))
  }

  lemma AppendsInLayout(b: Evbuf, g: Shape, vecs: seq<Iovec>)
    requires Valid(b, g) && Layout(g) && (vecs == [] || CommitFits(b, g, vecs))
    ensures CommitAppends(b, g, vecs)
  {
    EmptyBehind(g);
  }

  /** Count the bytes at the space pointer of the chunk at index i as data. */
  method Grow(b: Evbuf, ghost g: Shape, p: Ptr, len: nat, ghost i: nat)
    returns (b': Evbuf, ghost g': Shape)
    requires Valid(b, g) && i < |g.list| && p == g.list[i] && len <= ChunkOf(b, g, i).Space()
    ensures var c := ChunkOf(b, g, i);
            var w := c.mem[c.misalign + c.off..c.misalign + c.off + len];
            && Valid(b', g') && g' == g.(segs := g.segs[i := g.segs[i] + w])
            && (len == 0 || (forall k | i < k < |g.list| :: g.segs[k] == []) ==> Content(g') == Content(g) + w)
            && |w| == len && |Content(g')| == |Content(g)| + len
            && b' == b.(heap := b.heap[p := c.(off := c.off + len)], totalLen := b.totalLen + len)
  {
    hide Flat, ListOf;
    assert ChunkOf(b, g, i) == b.heap[p];
    var c := b.heap[p];
    ghost var w := c.mem[c.misalign + c.off..c.misalign + c.off + len];
    assert c.(off := c.off + len).Data() == c.Data() + w;
    b', g' := SetChunk(b, g, p, c.(off := c.off + len), i);
    if len == 0 {
      assert w == [] && g.segs[i] + w == g.segs[i] && Content(g) + w == Content(g);
    } else if forall k | i < k < |g.list| :: g.segs[k] == [] {
      assert Flat(g.segs[i + 1..]) == [] by { FlatEmpty(g.segs[i + 1..]); }
      AppendAt(Flat(g.segs[..i]), g.segs[i], w);
    }
  }

  lemma AppendAt<T>(a: seq<T>, x: seq<T>, w: seq<T>)
    ensures a + (x + w) + [] == a + x + [] + w
  {}

  /** The case in which the caller used the last chunk only */
  method CommitLast(b: Evbuf, ghost g: Shape, vecs: seq<Iovec>) returns (ok: bool, b': Evbuf, ghost g': Shape)
    requires Valid(b, g) && OnlyLast(b, g, vecs)
    ensures ok <==> CommitFits(b, g, vecs)
    ensures !ok ==> b' == b && g' == g
    ensures ok ==> g.list != [] && Valid(b', g') && Content(g') == Content(g) + AllWritten(b, vecs)
    ensures ok ==> g'.list == g.list && g'.segs == g.segs[|g.segs| - 1 := g.segs[|g.segs| - 1] + Written(b, vecs[0])]
    ensures ok && Layout(g) ==> (Layout(g') <==> CommitKeepsLayout(b, g, vecs))
    ensures b'.heap.Keys == b.heap.Keys
    ensures b'.freezeStart == b.freezeStart && b'.freezeEnd == b.freezeEnd
  {
    hide Flat, ListOf, LayoutOf, FirstEmpty, AllWritten;
    var c, len := LastChunk(b, g), vecs[0].len;
    ok, b', g' := len <= c.Space(), b, g;
    if !ok {
      return;
    }
    ghost var last := |g.list| - 1;
    assert ChunkOf(b, g, last) == c;
    OneWritten(b, vecs);
    b', g' := Grow(b, g, b.last, len, last);
    if Layout(g) {
      LayoutAfterGrowLast(g.segs, g.lwd, Written(b, vecs[0]));
    }
    if len != 0 {
      b', g' := AdvanceLastWithData(b', g');
    }
  }

  lemma OneWritten(b: Evbuf, vecs: seq<Iovec>)
    requires |vecs| == 1
    ensures AllWritten(b, vecs) == Written(b, vecs[0])
  {
    assert vecs[..0] == [];
  }

  lemma LayoutAfterGrowLast(segs: seq<seq<byte>>, lwd: nat, w: seq<byte>)
    requires LayoutOf(segs, lwd) && segs != []
    ensures var n := |segs|;
            var e := segs[n - 1 := segs[n - 1] + w];
            && (w == [] ==> LayoutOf(e, lwd))
            && (w != [] ==> (LayoutOf(e, FirstEmpty(e, lwd + 1) - 1) <==>
                               lwd == n - 1 || (lwd == n - 2 && segs[lwd] != [])))
  {
    var n := |segs|;
    var e := segs[n - 1 := segs[n - 1] + w];
    if w == [] {
      assert e[n - 1] == segs[n - 1];
      assert e == segs;
    } else {
      assert e[n - 1] == segs[n - 1] + w;
      if lwd < n - 2 {
        assert e[lwd + 1] == [];
      } else if lwd == n - 2 {
        assert e[lwd] == segs[lwd];
        FirstEmptyOfNone(e, lwd + 1);
      }
    }
  }

  /** Pass 1: every vec must start at the space of its chunk and fit there. */
  method VecsFit(b: Evbuf, ghost g: Shape, p: Ptr, vecs: seq<Iovec>) returns (ok: bool)
    requires Valid(b, g) && g.list != [] && p == InSlot(g.list, FirstSpace(b, g))
    ensures ok <==> VecsAt(b, g, FirstSpace(b, g), vecs, 0)
  {
    hide Flat, ListOf, FirstSpace;
    ghost var first := FirstSpace(b, g);
    var chain, i := p, 0;
    while i < |vecs|
      invariant i <= |vecs| && first + i <= |g.list| && chain == InSlot(g.list, first + i)
      invariant VecsAt(b, g, first, vecs[..i], 0)
    {
      if first + i < |g.list| {
        assert ChunkOf(b, g, first + i) == b.heap[chain];
      }
      if chain == NULL || vecs[i].chunk != chain
          || vecs[i].pos != b.heap[chain].misalign + b.heap[chain].off || b.heap[chain].Space() < vecs[i].len {
        assert !VecAt(b, g, first + i, vecs[i], false);
        return false;
      }
      assert VecAt(b, g, first + i, vecs[i], false);
      assert vecs[..i + 1] == vecs[..i] + [vecs[i]];
      chain, i := b.heap[chain].next, i + 1;
    }
    assert vecs[..i] == vecs;
    ok := true;
  }

  /** g' is g after the first n vecs have been added to the chunks from index i on. */
  ghost predicate Grown(b: Evbuf, g: Shape, g': Shape, i: nat, vecs: seq<Iovec>, n: nat)
    requires n <= |vecs|
  {
    && g'.list == g.list && |g'.segs| == |g.segs|
    && (forall k | 0 <= k < |g.segs| :: g'.segs[k] == g.segs[k] + Added(b, vecs, n, k - i))
    && if forall m | 0 <= m < n :: vecs[m].len == 0 then g'.lwd == g.lwd
       else i <= g'.lwd < i + n && 0 < vecs[g'.lwd - i].len && forall m | g'.lwd - i < m < n :: vecs[m].len == 0
  }

  ghost function Added(b: Evbuf, vecs: seq<Iovec>, n: nat, m: int): seq<byte>
    requires n <= |vecs|
  {
    if 0 <= m < n then Written(b, vecs[m]) else []
  }

  /** Chunks that have not had their turn are as before. */
  ghost predicate Untouched(b: Evbuf, b': Evbuf, g: Shape, i: nat) {
    forall k | i <= k < |g.list| ::
      g.list[k] in b.heap && g.list[k] in b'.heap && b'.heap[g.list[k]] == b.heap[g.list[k]]
  }

  /** What pass 2 keeps after n vecs. */
  ghost predicate InPass2(b: Evbuf, g: Shape, b': Evbuf, g': Shape, i: nat, vecs: seq<Iovec>, n: nat) {
    && n <= |vecs| && Valid(b', g') && g'.list == g.list && |g'.segs| == |g.list| && i + n <= |g.list|
    && b' == b.(heap := b'.heap, totalLen := b'.totalLen, slot := b'.slot) && b'.heap.Keys == b.heap.Keys
    && (NoneBehind(g, i, vecs) ==> Content(g') == Content(g) + AllWritten(b, vecs[..n]))
    && |Content(g')| == |Content(g)| + |AllWritten(b, vecs[..n])|
    && Grown(b, g, g', i, vecs, n) && Untouched(b, b', g, i + n)
  }

  /** Pass 2: count the bytes of every vec as data. */
  method GrowAll(b: Evbuf, ghost g: Shape, s: Ptr, p: Ptr, vecs: seq<Iovec>)
    returns (b': Evbuf, ghost g': Shape)
    requires Valid(b, g) && g.list != [] && VecsAt(b, g, FirstSpace(b, g), vecs, 0)
    requires var i := FirstSpace(b, g); i <= |g.list| && s == SlotOf(g.list, i) && p == InSlot(g.list, i)
    ensures InPass2(b, g, b', g', FirstSpace(b, g), vecs, |vecs|)
  {
    hide Valid, Content, Layout, ChunkOf, AllWritten, FirstSpace, VecsAt, Grown, Untouched, NoneBehind;
    b', g' := b, g;
    ghost var first := FirstSpace(b, g);
    var owner, chain, j := s, p, 0;
    NoneGrown(b, g, first, vecs);
    while j < |vecs|
      invariant j <= |vecs| && InPass2(b, g, b', g', first, vecs, j)
      invariant owner == SlotOf(g.list, first + j) && chain == InSlot(g.list, first + j)
    {
      VecOfUntouched(b, b', g, g', first, vecs, j);
      b', g' := GrowOne(b, g, b', g', owner, chain, first, vecs, j);
      assert ChunkOf(b', g', first + j) == b'.heap[chain];
      owner, chain, j := chain, b'.heap[chain].next, j + 1;
    }
  }

  /** One step of pass 2, on the chunk that the slot of owner leads to */
  method GrowOne(ghost b: Evbuf, ghost g: Shape, b0: Evbuf, ghost g0: Shape, owner: Ptr, chain: Ptr, ghost i: nat,
                 vecs: seq<Iovec>, j: nat)
    returns (b': Evbuf, ghost g': Shape)
    requires Valid(b, g) && g.lwd <= i && InPass2(b, g, b0, g0, i, vecs, j) && j < |vecs| && i + j < |g.list|
    requires owner == SlotOf(g.list, i + j) && chain == InSlot(g.list, i + j)
    requires ChunkOf(b0, g0, i + j) == ChunkOf(b, g, i + j) && VecAt(b, g, i + j, vecs[j], false)
    ensures InPass2(b, g, b', g', i, vecs, j + 1)
  {
    hide Valid, Content, Layout, ChunkOf, AllWritten, FirstSpace, Grown, Untouched, NoneBehind;
    if NoneBehind(g, i, vecs) { EmptyAfter(b, g, g0, i, vecs, j); }
    ghost var c, w := ChunkOf(b, g, i + j), Written(b, vecs[j]);
    b', g' := Grow(b0, g0, chain, vecs[j].len, i + j);
    assert |w| == vecs[j].len;
    SlotMoved(b', g', owner, i + j);
    if vecs[j].len != 0 {
      b', g' := b'.(slot := owner), g'.(lwd := i + j);
    }
    OneMoreGrown(b, g, g0, g', i, vecs, j);
    FewerUntouched(b, b0, b', g, i + j);
    Assoc(Content(g), AllWritten(b, vecs[..j]), w);
  }

  lemma SlotMoved(b: Evbuf, g: Shape, owner: Ptr, i: nat)
    requires Valid(b, g) && i < |g.list| && owner == SlotOf(g.list, i)
    ensures Valid(b.(slot := owner), g.(lwd := i)) && Content(g.(lwd := i)) == Content(g)
  {}

  lemma EmptyAfter(b: Evbuf, g: Shape, g0: Shape, i: nat, vecs: seq<Iovec>, j: nat)
    requires NoneBehind(g, i, vecs) && j < |vecs| && Grown(b, g, g0, i, vecs, j)
    ensures 0 < vecs[j].len ==> forall k | i + j < k < |g0.segs| :: g0.segs[k] == []
  {}

  lemma NoneGrown(b: Evbuf, g: Shape, i: nat, vecs: seq<Iovec>)
    requires Valid(b, g) && i <= |g.list|
    ensures InPass2(b, g, b, g, i, vecs, 0)
  {
    assert vecs[..0] == [];
    AllUntouched(b, g, i);
  }

  lemma VecOfUntouched(b: Evbuf, b': Evbuf, g: Shape, g': Shape, i: nat, vecs: seq<Iovec>, j: nat)
    requires Valid(b, g) && Valid(b', g') && g'.list == g.list && j < |vecs|
    requires VecsAt(b, g, i, vecs, 0) && Untouched(b, b', g, i + j)
    ensures i + j < |g.list| && ChunkOf(b', g', i + j) == ChunkOf(b, g, i + j)
    ensures VecAt(b, g, i + j, vecs[j], false)
  {
    assert VecAt(b, g, i + j, vecs[j], false);
  }

  lemma OneMoreGrown(b: Evbuf, g: Shape, g0: Shape, g': Shape, i: nat, vecs: seq<Iovec>, j: nat)
    requires j < |vecs| && Grown(b, g, g0, i, vecs, j) && i + j < |g0.segs|
    requires g'.segs == g0.segs[i + j := g0.segs[i + j] + Written(b, vecs[j])] && g'.list == g0.list
    requires g'.lwd == if vecs[j].len != 0 then i + j else g0.lwd
    ensures Grown(b, g, g', i, vecs, j + 1)
    ensures AllWritten(b, vecs[..j + 1]) == AllWritten(b, vecs[..j]) + Written(b, vecs[j])
  {
    hide Written;
    assert vecs[..j + 1][..j] == vecs[..j];
    forall k | 0 <= k < |g.segs| ensures g'.segs[k] == g.segs[k] + Added(b, vecs, j + 1, k - i) {
      assert g0.segs[k] == g.segs[k] + Added(b, vecs, j, k - i);
    }
  }

  lemma AllUntouched(b: Evbuf, g: Shape, i: nat)
    requires Valid(b, g)
    ensures Untouched(b, b, g, i)
  {
    forall k | i <= k < |g.list| ensures g.list[k] in b.heap {
      ChunkFacts(b, g, k);
    }
  }

  lemma FewerUntouched(b: Evbuf, b0: Evbuf, b': Evbuf, g: Shape, i: nat)
    requires Valid(b, g) && i < |g.list| && Untouched(b, b0, g, i)
    requires g.list[i] in b'.heap && b'.heap == b0.heap[g.list[i] := b'.heap[g.list[i]]]
    ensures Untouched(b, b', g, i + 1)
  {
    OneIndex(b.heap, g.list, g.segs, i);
  }

  /** Growing chunks from index i on keeps the layout exactly if no chunk that stays
      empty is left before one that grew. */
  lemma LayoutOfGrown(b: Evbuf, g: Shape, g': Shape, i: nat, vecs: seq<Iovec>)
    requires LayoutOf(g.segs, g.lwd) && g.segs != [] && g.lwd <= i <= g.lwd + 1 && i + |vecs| <= |g.segs|
    requires Grown(b, g, g', i, vecs, |vecs|)
    requires forall m | 0 <= m < |vecs| :: |Written(b, vecs[m])| == vecs[m].len
    ensures LayoutOf(g'.segs, g'.lwd) <==>
              forall m | 0 <= m < |vecs| && 0 < vecs[m].len ::
                (i == g.lwd || g.segs[g.lwd] != []) && forall k | 0 <= k < m :: 0 < vecs[k].len || g.segs[i + k] != []
  {
    hide Written, Grown;
    var segs, lwd, e, l, n := g.segs, g.lwd, g'.segs, g'.lwd, |vecs|;
    GrownLast(b, g, g', i, vecs);
    forall k | 0 <= k < |segs| ensures e[k] == [] <==> segs[k] == [] && !(i <= k < i + n && 0 < vecs[k - i].len) {
      GrownAt(b, g, g', i, vecs, k);
    }
    if forall m | 0 <= m < n :: vecs[m].len == 0 {
    } else if LayoutOf(e, l) {
      assert i == lwd || e[lwd] != [];
      forall m, k | 0 <= k < m < n && 0 < vecs[m].len ensures 0 < vecs[k].len || segs[i + k] != [] {
        assert e[i + k] != [];
      }
    } else {
      var k :| 0 <= k < l && e[k] == [];
      assert k == lwd < i || segs[i + (k - i)] == [];
    }
  }

  lemma GrownAt(b: Evbuf, g: Shape, g': Shape, i: nat, vecs: seq<Iovec>, k: nat)
    requires Grown(b, g, g', i, vecs, |vecs|) && k < |g.segs|
    requires forall m | 0 <= m < |vecs| :: |Written(b, vecs[m])| == vecs[m].len
    ensures |g'.segs| == |g.segs|
    ensures g'.segs[k] == [] <==> g.segs[k] == [] && !(i <= k < i + |vecs| && 0 < vecs[k - i].len)
  {
    assert g'.segs[k] == g.segs[k] + Added(b, vecs, |vecs|, k - i);
  }

  lemma GrownLast(b: Evbuf, g: Shape, g': Shape, i: nat, vecs: seq<Iovec>)
    requires Grown(b, g, g', i, vecs, |vecs|)
    ensures |g'.segs| == |g.segs|
    ensures (forall m | 0 <= m < |vecs| :: vecs[m].len == 0) ==> g'.lwd == g.lwd
    ensures !(forall m | 0 <= m < |vecs| :: vecs[m].len == 0) ==>
              && i <= g'.lwd < i + |vecs| && 0 < vecs[g'.lwd - i].len
              && forall m | g'.lwd - i < m < |vecs| :: vecs[m].len == 0
  {}

  /** The layout after pass 2 */
  lemma LayoutAfterGrowth(b: Evbuf, g: Shape, g': Shape, vecs: seq<Iovec>)
    requires Valid(b, g) && Layout(g) && g.list != [] && VecsAt(b, g, FirstSpace(b, g), vecs, 0)
    requires vecs != [] && Grown(b, g, g', FirstSpace(b, g), vecs, |vecs|)
    requires !OnlyLast(b, g, vecs)
    ensures Layout(g') <==> CommitKeepsLayout(b, g, vecs)
  {
    hide Valid, ChunkOf, Written, FirstSpace, VecsAt, LayoutOf, Grown;
    var i := FirstSpace(b, g);
    forall m | 0 <= m < |vecs| ensures i + m < |g.segs| && |Written(b, vecs[m])| == vecs[m].len {
      WrittenLength(b, g, i, vecs, m);
    }
    WrittenLength(b, g, i, vecs, |vecs| - 1);
    LayoutOfGrown(b, g, g', i, vecs);
  }

  lemma WrittenLength(b: Evbuf, g: Shape, i: nat, vecs: seq<Iovec>, m: nat)
    requires Valid(b, g) && VecsAt(b, g, i, vecs, 0) && m < |vecs|
    ensures i + m < |g.segs| && |Written(b, vecs[m])| == vecs[m].len
  {
    assert VecAt(b, g, i + m, vecs[m], false);
  }

  /** The first chunk with space, and the slot that leads to it */
  method SpaceSlot(b: Evbuf, ghost g: Shape) returns (s: Ptr, p: Ptr)
    requires Valid(b, g) && g.list != []
    ensures var i := FirstSpace(b, g); i <= |g.list| && s == SlotOf(g.list, i) && p == InSlot(g.list, i)
  {
    s, p := b.slot, LastWithData(b, g);
    assert ChunkOf(b, g, g.lwd) == b.heap[p];
    if b.heap[p].Space() == 0 {
      s, p := p, b.heap[p].next;
    }
  }

  // ----- where the bytes come

  /** The position in the new content of what was written into vec m */
  ghost function Position(g: Shape, g': Shape, i: nat, m: nat): nat
    requires i + m < |g.segs| == |g'.segs|
  {
    |Flat(g'.segs[..i + m])| + |g.segs[i + m]|
  }

  /** Every byte comes behind the old content and the vecs before its own. */
  ghost predicate AllAtEnd(b: Evbuf, g: Shape, g': Shape, i: nat, vecs: seq<Iovec>) {
    forall m | 0 <= m < |vecs| && 0 < vecs[m].len :: AtEnd(b, g, g', i, vecs, m)
  }

  ghost predicate AtEnd(b: Evbuf, g: Shape, g': Shape, i: nat, vecs: seq<Iovec>, m: nat) {
    && m < |vecs| && i + m < |g.segs| == |g'.segs|
    && Position(g, g', i, m) == |Content(g)| + |AllWritten(b, vecs[..m])|
  }

  /** The chunks before index n have grown by the vecs that belong to them. */
  lemma {:induction false} FlatGrown(b: Evbuf, g: Shape, g': Shape, i: nat, vecs: seq<Iovec>, n: nat)
    requires Grown(b, g, g', i, vecs, |vecs|) && n <= i + |vecs| <= |g.segs|
    ensures |g'.segs| == |g.segs|
    ensures |Flat(g'.segs[..n])| == |Flat(g.segs[..n])| + |AllWritten(b, vecs[..if i <= n then n - i else 0])|
  {
    hide Flat, Written;
    if n == 0 {
      assert g'.segs[..0] == g.segs[..0] && vecs[..0] == [];
      assert Flat(g'.segs[..0]) == Flat(g.segs[..0]);
    } else {
      FlatGrown(b, g, g', i, vecs, n - 1);
      FlatTakeMore(g.segs, n - 1);
      FlatTakeMore(g'.segs, n - 1);
      assert g'.segs[n - 1] == g.segs[n - 1] + Added(b, vecs, |vecs|, n - 1 - i);
      if i < n {
        assert vecs[..n - i][..n - i - 1] == vecs[..n - i - 1];
      } else {
        assert vecs[..0] == [];
      }
    }
  }

  /** What was written into vec m is at its position, and that is the end exactly if no
      chunk behind has data. */
  lemma WhereItComes(b: Evbuf, g: Shape, g': Shape, i: nat, vecs: seq<Iovec>, m: nat)
    requires Grown(b, g, g', i, vecs, |vecs|) && i + |vecs| <= |g.segs| && m < |vecs|
    ensures |g'.segs| == |g.segs|
    ensures var p, w := Position(g, g', i, m), Written(b, vecs[m]);
            p + |w| <= |Content(g')| && Content(g')[p..p + |w|] == w
    ensures AtEnd(b, g, g', i, vecs, m) <==> forall k | i + m < k < |g.segs| :: g.segs[k] == []
    ensures Position(g, g', i, m) <= |Content(g)| + |AllWritten(b, vecs[..m])|
  {
    hide Flat, Written, AllWritten;
    FlatGrown(b, g, g', i, vecs, i + m);
    FlatAt(g.segs, i + m);
    FlatAt(g'.segs, i + m);
    assert g'.segs[i + m] == g.segs[i + m] + Added(b, vecs, |vecs|, i + m - i);
    var w := Written(b, vecs[m]);
    InTheMiddle(Flat(g'.segs[..i + m]), g.segs[i + m], w, Flat(g'.segs[i + m + 1..]));
    EmptyIfFlat(g.segs, i + m + 1);
  }

  lemma InTheMiddle<T>(a: seq<T>, x: seq<T>, w: seq<T>, c: seq<T>)
    ensures (a + (x + w) + c)[|a| + |x|..|a| + |x| + |w|] == w
  {}

  lemma EmptyIfFlat(segs: seq<seq<byte>>, n: nat)
    requires n <= |segs|
    ensures Flat(segs[n..]) == [] <==> forall k | n <= k < |segs| :: segs[k] == []
  {
    if forall k | n <= k < |segs| :: segs[k] == [] {
      FlatEmpty(segs[n..]);
    } else {
      var k :| n <= k < |segs| && segs[k] != [];
      FlatElementLength(segs[n..], k - n);
      assert segs[n..][k - n] == segs[k];
    }
  }

  lemma AppendsExactly(b: Evbuf, g: Shape, g': Shape, vecs: seq<Iovec>)
    requires Valid(b, g) && g.list != [] && vecs != [] && !OnlyLast(b, g, vecs)
    requires VecsAt(b, g, FirstSpace(b, g), vecs, 0) && Grown(b, g, g', FirstSpace(b, g), vecs, |vecs|)
    ensures CommitAppends(b, g, vecs) <==> AllAtEnd(b, g, g', FirstSpace(b, g), vecs)
    ensures forall m | 0 <= m < |vecs| && 0 < vecs[m].len && !NoneBehindVec(g, FirstSpace(b, g), m) ::
              InFront(b, g, g', FirstSpace(b, g), vecs, m)
  {
    hide Valid, Grown, Content, AtEnd, VecsAt, FirstSpace, OnlyLast, Written;
    var i := FirstSpace(b, g);
    WrittenLength(b, g, i, vecs, |vecs| - 1);
    forall m | 0 <= m < |vecs|
      ensures AtEnd(b, g, g', i, vecs, m) <==> NoneBehindVec(g, i, m)
      ensures NoneBehindVec(g, i, m) || InFront(b, g, g', i, vecs, m)
    {
      WhereItComes(b, g, g', i, vecs, m);
      Strictly(b, g, g', i, vecs, m);
    }
  }

  lemma Strictly(b: Evbuf, g: Shape, g': Shape, i: nat, vecs: seq<Iovec>, m: nat)
    requires m < |vecs| && i + m < |g.segs| == |g'.segs|
    requires Position(g, g', i, m) <= |Content(g)| + |AllWritten(b, vecs[..m])|
    ensures AtEnd(b, g, g', i, vecs, m) || InFront(b, g, g', i, vecs, m)
  {}

  ghost predicate NoneBehindVec(g: Shape, i: nat, m: nat) {
    forall k | i + m < k < |g.segs| :: g.segs[k] == []
  }

  /** What was written into vec m comes before the end of the old content. */
  ghost predicate InFront(b: Evbuf, g: Shape, g': Shape, i: nat, vecs: seq<Iovec>, m: nat) {
    && m < |vecs| && i + m < |g.segs| == |g'.segs|
    && Position(g, g', i, m) < |Content(g)| + |AllWritten(b, vecs[..m])|
  }

  /** evbuffer_commit_space.  It fails without a change unless every vec starts at the
      space of its chunk and fits there; then each chunk gets what was written into it.
      That appends what was written, in order, exactly if no chunk behind one that gets
      bytes has data. */
  method CommitSpace(b: Evbuf, ghost g: Shape, vecs: seq<Iovec>)
    returns (ok: bool, b': Evbuf, ghost g': Shape)
    requires Valid(b, g)
    ensures ok <==> !b.freezeEnd && (vecs == [] || CommitFits(b, g, vecs))
    ensures !ok || vecs == [] ==> b' == b && g' == g
    ensures ok ==> Valid(b', g') && (CommitAppends(b, g, vecs) ==> Content(g') == Content(g) + AllWritten(b, vecs))
    ensures ok ==> |Content(g')| == |Content(g)| + |AllWritten(b, vecs)|
    ensures ok && vecs != [] ==> g.list != [] && g'.list == g.list
    ensures ok && vecs != [] ==>
              if OnlyLast(b, g, vecs) then g'.segs == g.segs[|g.segs| - 1 := g.segs[|g.segs| - 1] + Written(b, vecs[0])]
              else Grown(b, g, g', FirstSpace(b, g), vecs, |vecs|)
    ensures ok && vecs != [] && !OnlyLast(b, g, vecs) ==>
              (CommitAppends(b, g, vecs) <==> AllAtEnd(b, g, g', FirstSpace(b, g), vecs))
    ensures ok && vecs != [] && Layout(g) ==> (Layout(g') <==> CommitKeepsLayout(b, g, vecs))
    ensures b'.heap.Keys == b.heap.Keys
    ensures b'.freezeStart == b.freezeStart && b'.freezeEnd == b.freezeEnd
  {
    hide AllAtEnd;
    hide Valid, Content, Layout, FirstSpace, VecsAt, Grown, Untouched, OnlyLast, CommitKeepsLayout, NoneBehind;
    b', g' := b, g;
    ok := !b.freezeEnd;
    assert vecs == [] ==> Content(g) + AllWritten(b, vecs) == Content(g);
    if b.freezeEnd || vecs == [] {
    } else if OnlyLast(b, g, vecs) {
      ok, b', g' := CommitLast(b, g, vecs);
    } else if LastWithData(b, g) == NULL {
      NoneWithData(b, g);
      ok := false;
    } else {
      NoneWithData(b, g);
      var s, p := SpaceSlot(b, g);
      ok := VecsFit(b, g, p, vecs);
      if ok {
        b', g' := GrowAll(b, g, s, p, vecs);
        assert vecs[..|vecs|] == vecs;
        AppendsExactly(b, g, g', vecs);
        if Layout(g) {
          LayoutAfterGrowth(b, g, g', vecs);
        }
      }
    }
  }

  lemma NoneWithData(b: Evbuf, g: Shape)
    requires Valid(b, g)
    ensures LastWithData(b, g) == NULL <==> g.list == []
  {
    NotNull(b, g);
  }

  /** With data behind the slot, a committed byte can come between two others. */
  lemma CommitInTheMiddle()
    ensures exists b, g, vecs :: Valid(b, g) && CommitFits(b, g, vecs) && !CommitAppends(b, g, vecs)
  {
    var b, g := TwoFullChunks([7], [8]);
    assert ChunkOf(b, g, 0) == b.heap[1] && ChunkOf(b, g, 1) == b.heap[2];
    var v := Iovec(1, 1, 1);
    assert VecAt(b, g, 0, v, false);
    assert !NoneBehindVec(g, 0, 0) by {
      assert g.segs[1] != [];
    }
    assert Valid(b, g) && CommitFits(b, g, [v]) && !CommitAppends(b, g, [v]);
  }

  // ----- reserving and committing

  /** used says of some of the reserved vecs, from the first on, how much of each was
      filled. */
  predicate UsedOf(used: seq<Iovec>, vecs: seq<Iovec>) {
    |used| <= |vecs| && forall k | 0 <= k < |used| ::
      used[k].chunk == vecs[k].chunk && used[k].pos == vecs[k].pos && used[k].len <= vecs[k].len
  }

  lemma UsedFits(b: Evbuf, g: Shape, i: nat, vecs: seq<Iovec>, used: seq<Iovec>)
    requires Valid(b, g) && g.list != [] && VecsAt(b, g, i, vecs, |vecs|) && UsedOf(used, vecs) && used != []
    requires i == FirstSpace(b, g) || (|vecs| == 1 && i == |g.list| - 1)
    ensures CommitFits(b, g, used)
  {
    forall k | 0 <= k < |used| ensures VecAt(b, g, i + k, used[k], k < 0) {
      assert VecAt(b, g, i + k, vecs[k], k < |vecs|);
    }
    assert ChunkOf(b, g, |g.list| - 1) == LastChunk(b, g);
    if OnlyLast(b, g, used) {
      OneIndex(b.heap, g.list, g.segs, |g.list| - 1);
    }
  }

  lemma UsedDoesNotFit(b: Evbuf, g: Shape, i: nat, vecs: seq<Iovec>, used: seq<Iovec>)
    requires Valid(b, g) && g.list != [] && VecsAt(b, g, i, vecs, |vecs|) && UsedOf(used, vecs) && used != []
    requires i != FirstSpace(b, g) && !(|vecs| == 1 && i == |g.list| - 1) && |vecs| == 1
    ensures !CommitFits(b, g, used)
  {
    assert VecAt(b, g, i, vecs[0], true);
    OneIndex(b.heap, g.list, g.segs, i);
    assert !VecAt(b, g, FirstSpace(b, g) + 0, used[0], 0 < 0);
  }

  /** The same chunks with other bytes outside their data */
  ghost predicate SameSpace(b: Evbuf, b': Evbuf, g: Shape) {
    && Valid(b, g) && Valid(b', g) && b' == b.(heap := b'.heap) && b'.heap.Keys == b.heap.Keys
    && forall k | 0 <= k < |g.list| :: SameRoom(b, b', g, k)
  }

  ghost predicate SameRoom(b: Evbuf, b': Evbuf, g: Shape, k: nat)
    requires Valid(b, g) && Valid(b', g) && k < |g.list|
  {
    var c, c' := ChunkOf(b, g, k), ChunkOf(b', g, k);
    c'.misalign == c.misalign && c'.off == c.off && |c'.mem| == |c.mem|
  }

  lemma SpaceIsSame(b: Evbuf, b': Evbuf, g: Shape, i: nat, vecs: seq<Iovec>)
    requires SameSpace(b, b', g) && g.list != [] && VecsAt(b, g, i, vecs, |vecs|)
    ensures VecsAt(b', g, i, vecs, |vecs|) && FirstSpace(b', g) == FirstSpace(b, g)
  {
    forall k | 0 <= k < |vecs| ensures VecAt(b', g, i + k, vecs[k], k < |vecs|) {
      assert VecAt(b, g, i + k, vecs[k], k < |vecs|) && SameRoom(b, b', g, i + k);
    }
    assert SameRoom(b, b', g, g.lwd);
  }

  /** memcpy to the start of a chunk's space */
  method WriteAt(b: Evbuf, ghost g: Shape, v: Iovec, data: seq<byte>, ghost i: nat) returns (b': Evbuf)
    requires Valid(b, g) && VecAt(b, g, i, v, true) && |data| <= v.len
    ensures SameSpace(b, b', g) && Written(b', v.(len := |data|)) == data
    ensures b'.heap == b.heap[v.chunk := b'.heap[v.chunk]]
  {
    hide Flat, ListOf;
    assert ChunkOf(b, g, i) == b.heap[v.chunk];
    var c := b.heap[v.chunk];
    ghost var g';
    assert c.Store(v.pos, data).Data() == c.Data();
    b', g' := SetChunk(b, g, v.chunk, c.Store(v.pos, data), i);
    assert g' == g;
    OneIndex(b.heap, g.list, g.segs, i);
    forall k | 0 <= k < |g.list| ensures SameRoom(b, b', g, k) {
      assert k != i ==> ChunkOf(b', g, k) == ChunkOf(b, g, k);
    }
  }

  lemma {:induction false} WrittenElsewhere(b: Evbuf, b': Evbuf, p: Ptr, vecs: seq<Iovec>)
    requires p in b'.heap && b'.heap == b.heap[p := b'.heap[p]]
    requires forall k | 0 <= k < |vecs| :: vecs[k].chunk != p
    ensures AllWritten(b', vecs) == AllWritten(b, vecs)
  {
    if vecs != [] {
      WrittenElsewhere(b, b', p, vecs[..|vecs| - 1]);
    }
  }

  /** What a caller of evbuffer_reserve_space does: copy data into the vecs, in order.
      used says how much of each was filled. */
  method Fill(b: Evbuf, ghost g: Shape, ghost i: nat, vecs: seq<Iovec>, data: seq<byte>)
    returns (b': Evbuf, used: seq<Iovec>)
    requires Valid(b, g) && g.list != [] && VecsAt(b, g, i, vecs, |vecs|) && |data| <= TotalLen(vecs)
    ensures SameSpace(b, b', g) && UsedOf(used, vecs) && AllWritten(b', used) == data
    ensures used == [] <==> data == []
  {
    hide Valid, ListOf, Flat, ChunkOf, VecsAt, VecAt, AllWritten, Written, TotalLen, SameSpace;
    b', used := b, [];
    var m := 0;
    SameAsBefore(b, g);
    NoLen();
    NothingWritten(b);
    assert vecs[..0] == [];
    while m < |data|
      invariant m <= |data| && |used| <= |vecs| && (m == |data| || m == TotalLen(vecs[..|used|]))
      invariant Valid(b', g) && SameSpace(b, b', g) && UsedOf(used, vecs) && AllWritten(b', used) == data[..m]
      invariant (used == [] ==> m == 0) && (data == [] ==> used == [])
      decreases |vecs| - |used|
    {
      assert |used| == |vecs| ==> vecs[..|used|] == vecs;
      var j := |used|;
      SpaceIsSame(b, b', g, i, vecs);
      VecIsThere(b', g, i, vecs, j);
      var v := vecs[j];
      var n := if v.len <= |data| - m then v.len else |data| - m;
      var piece := data[m..m + n];
      ghost var b0 := b';
      b' := WriteAt(b', g, v, piece, i + j);
      SameTwice(b, b0, b', g);
      WrittenElsewhere(b0, b', v.chunk, used);
      OneMoreWritten(b', used, v.(len := n));
      assert data[..m] + piece == data[..m + n];
      assert vecs[..j + 1] == vecs[..j] + [v];
      TotalLenMore(vecs[..j], v);
      used, m := used + [v.(len := n)], m + n;
    }
    assert data[..m] == data;
  }

  lemma SameAsBefore(b: Evbuf, g: Shape)
    requires Valid(b, g)
    ensures SameSpace(b, b, g)
  {}

  lemma SameTwice(b: Evbuf, b0: Evbuf, b': Evbuf, g: Shape)
    requires SameSpace(b, b0, g) && SameSpace(b0, b', g)
    ensures SameSpace(b, b', g) && Valid(b', g)
  {
    hide Valid, ChunkOf;
    forall k | 0 <= k < |g.list| ensures SameRoom(b, b', g, k) {
      assert SameRoom(b, b0, g, k) && SameRoom(b0, b', g, k);
    }
  }

  lemma NothingWritten(b: Evbuf)
    ensures AllWritten(b, []) == []
  {}

  lemma OneMoreWritten(b: Evbuf, vecs: seq<Iovec>, v: Iovec)
    ensures AllWritten(b, vecs + [v]) == AllWritten(b, vecs) + Written(b, v)
  {
    assert (vecs + [v])[..|vecs|] == vecs;
  }

  lemma VecIsThere(b: Evbuf, g: Shape, i: nat, vecs: seq<Iovec>, j: nat)
    requires Valid(b, g) && VecsAt(b, g, i, vecs, |vecs|) && j < |vecs|
    ensures VecAt(b, g, i + j, vecs[j], true)
    ensures forall k | 0 <= k < j :: vecs[k].chunk != vecs[j].chunk
  {
    assert VecAt(b, g, i + j, vecs[j], j < |vecs|);
    OneIndex(b.heap, g.list, g.segs, i + j);
    forall k | 0 <= k < j ensures vecs[k].chunk != vecs[j].chunk {
      assert VecAt(b, g, i + k, vecs[k], k < |vecs|);
    }
  }

  /** Reserve space, fill it and commit what was filled, on any valid evbuffer: the
      data comes to the end of the content, unless data is behind the slot.  ok says
      that no assertion failed.  Only where a single chunk was asked for, and the one
      handed out is behind one with space and has others behind it, evbuffer_commit_space
      refuses it. */
  method FillSpace(b: Evbuf, ghost g: Shape, data: seq<byte>, n: nat, p: Ptr)
    returns (ok: bool, done: bool, b': Evbuf, ghost g': Shape)
    requires Valid(b, g) && p != NULL && p !in b.heap
    ensures ok <==> b.freezeEnd || n == 0 || !ReserveTrips(b, g, |data|, n)
    ensures ok ==> Valid(b', g') && (done <==> !FillRefused(b, g, data, n))
    ensures ok && !done ==> Content(g') == Content(g)
    ensures ok && done ==> |Content(g')| == |Content(g)| + |data|
    ensures ok && done && !DataBehind(g) ==> Content(g') == Content(g) + data
    ensures b'.heap.Keys <= b.heap.Keys + {p}
    ensures b'.freezeStart == b.freezeStart && b'.freezeEnd == b.freezeEnd
  {
    hide Valid, Layout, Content, FirstSpace, VecsAt, CommitFits, CommitAppends, ReservesBehind, TotalLen, ReserveTrips,
      AllWritten, Written, Grown, OnlyLast, CommitKeepsLayout, SameSpace, UsedOf, DataBehind, AllAtEnd;
    var r, vecs, used;
    ghost var g1, i;
    SegsOf(b, g);
    ok, r, vecs, b', g1, i := ReserveSpace(b, g, |data|, n, p);
    done, g' := false, g1;
    if !ok || b.freezeEnd || n == 0 {
      return;
    }
    ghost var b1 := b';
    b', used := Fill(b', g1, i, vecs, data);
    Filled(b1, b', g1, i, vecs, used);
    if used != [] && ReservesBehind(b, g, |data|, n) {
      OneReserved(b, g, |data|, n);
      UsedDoesNotFit(b', g1, i, vecs, used);
    } else if used != [] {
      UsedFits(b', g1, i, vecs, used);
    }
    if !DataBehind(g) && (used == [] || CommitFits(b', g1, used)) {
      AppendsBehindNone(b', g1, used);
    }
    done, b', g' := CommitSpace(b', g1, used);
  }

  lemma SegsOf(b: Evbuf, g: Shape)
    requires Valid(b, g)
    ensures |g.segs| == |g.list|
  {}

  /** evbuffer_reserve_space or evbuffer_commit_space refuses. */
  ghost predicate FillRefused(b: Evbuf, g: Shape, data: seq<byte>, n: nat)
    requires Valid(b, g)
  {
    b.freezeEnd || n == 0 || (data != [] && ReservesBehind(b, g, |data|, n))
  }

  lemma AppendsBehindNone(b: Evbuf, g: Shape, vecs: seq<Iovec>)
    requires Valid(b, g) && !DataBehind(g) && (vecs == [] || CommitFits(b, g, vecs))
    ensures CommitAppends(b, g, vecs)
  {}

  /** In the documented layout no assertion fails, and what is filled is appended. */
  method AddThroughReserve(b: Evbuf, ghost g: Shape, data: seq<byte>, n: nat, p: Ptr)
    returns (done: bool, b': Evbuf, ghost g': Shape)
    requires Valid(b, g) && Layout(g) && !b.freezeEnd && 1 <= n && p != NULL && p !in b.heap
    ensures done <==> data == [] || !ReservesBehind(b, g, |data|, n)
    ensures Valid(b', g') && Content(g') == if done then Content(g) + data else Content(g)
  {
    hide Valid, Content, ReservesBehind, ReserveTrips;
    NoReserveTrips(b, g, |data|, n);
    NoneBehindInLayout(b, g);
    var ok;
    ok, done, b', g' := FillSpace(b, g, data, n, p);
  }

  lemma NoneBehindInLayout(b: Evbuf, g: Shape)
    requires Valid(b, g) && Layout(g)
    ensures |g.segs| == |g.list| && !DataBehind(g)
  {}

  lemma NoReserveTrips(b: Evbuf, g: Shape, size: nat, n: nat)
    requires Valid(b, g) && Layout(g)
    ensures !ReserveTrips(b, g, size, n)
  {
    NoTripsInLayout(b, g, size, n);
  }

  lemma OneReserved(b: Evbuf, g: Shape, size: nat, n: nat)
    requires Valid(b, g) && ReservesBehind(b, g, size, n)
    ensures n == 1
  {}

  lemma Filled(b: Evbuf, b': Evbuf, g: Shape, i: nat, vecs: seq<Iovec>, used: seq<Iovec>)
    requires SameSpace(b, b', g) && g.list != [] && VecsAt(b, g, i, vecs, |vecs|)
    ensures Valid(b, g) && Valid(b', g) && b'.heap.Keys == b.heap.Keys
    ensures b'.freezeStart == b.freezeStart && b'.freezeEnd == b.freezeEnd
    ensures VecsAt(b', g, i, vecs, |vecs|) && FirstSpace(b', g) == FirstSpace(b, g)
  {
    SpaceIsSame(b, b', g, i, vecs);
  }
}
