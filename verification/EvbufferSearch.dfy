/** Positions and search of buffer.c: evbuffer_ptr_set, evbuffer_ptr_memcmp and
    evbuffer_search_range, which find a pattern wherever chunks divide it. */
module EvbufferSearch {
  import opened Bytes
  import opened Chunks
  import opened EvbufferCore
  import opened EvbufferMove
  import opened Lists

  const EV_SSIZE_MAX: nat := 0x7FFF_FFFF_FFFF_FFFF

  /** struct evbuffer_ptr: a position, with the chunk it is in and the offset there */
  datatype Pos = Pos(pos: int, chunk: Ptr, inChain: nat) {
    predicate Nowhere() {
      pos == -1 && chunk == NULL
    }
  }

  /** The number of bytes before chunk k */
  ghost function Before(g: Shape, k: nat): nat
    requires k <= |g.segs|
  {
    |Flat(g.segs[..k])|
  }

  /** q is a position of chunk k or just behind its data; behind the last chunk, k is
      the number of chunks. */
  ghost predicate At(g: Shape, q: Pos, k: nat) {
    && k <= |g.list| && |g.segs| == |g.list|
    && q.chunk == InSlot(g.list, k) && q.pos == Before(g, k) + q.inChain
    && if k < |g.list| then q.inChain <= |g.segs[k]| else q.inChain == 0
  }

  /** There is a byte at q. */
  ghost predicate InChunk(g: Shape, q: Pos, k: nat) {
    At(g, q, k) && k < |g.list| && q.inChain < |g.segs[k]|
  }

  lemma BeforeAndIn(b: Evbuf, g: Shape, k: nat)
    requires Valid(b, g) && k < |g.list|
    ensures |g.segs| == |g.list| && b.totalLen == |Content(g)|
    ensures Before(g, k) + |g.segs[k]| == Before(g, k + 1) <= |Content(g)|
    ensures Content(g)[Before(g, k)..Before(g, k + 1)] == g.segs[k]
  {
    FlatTakeMore(g.segs, k);
    FlatAt(g.segs, k);
    hide Flat;
    Middle(Flat(g.segs[..k]), g.segs[k], Flat(g.segs[k + 1..]));
  }

  lemma Middle<T>(a: seq<T>, b: seq<T>, c: seq<T>)
    ensures (a + b + c)[|a|..|a| + |b|] == b
  {}

  lemma BeforeEnds(b: Evbuf, g: Shape)
    requires Valid(b, g)
    ensures |g.segs| == |g.list| && b.first == InSlot(g.list, 0) && b.totalLen == |Content(g)|
    ensures Before(g, 0) == 0 && Before(g, |g.list|) == |Content(g)|
    ensures forall k | 0 <= k < |g.list| :: InSlot(g.list, k) != NULL
  {
    assert g.segs[..0] == [] && g.segs[..|g.list|] == g.segs;
    forall k | 0 <= k < |g.list| ensures g.list[k] != NULL {
      assert ChunkAt(b.heap, g.list, g.segs, k);
    }
  }

  lemma SlicesOf<T>(t: seq<T>, a: nat, e: nat, i: nat, j: nat)
    requires a <= e <= |t| && i <= j <= e - a
    ensures t[a..e][i..j] == t[a + i..a + j]
  {
    forall k | 0 <= k < j - i ensures t[a..e][i..j][k] == t[a + i..a + j][k] {
      assert t[a..e][i..j][k] == t[a..e][i + k] == t[a + i + k];
    }
  }

  lemma ThreeParts<T>(t: seq<T>, i: nat, j: nat, k: nat, l: nat)
    requires i <= j <= k <= l <= |t|
    ensures t[i..j] + t[j..k] == t[i..k] && t[i..k] + t[k..l] == t[i..l]
  {}

  /** Bytes i..j of chunk k */
  lemma PartOfChunk(b: Evbuf, g: Shape, k: nat, i: nat, j: nat)
    requires Valid(b, g) && k < |g.list| && i <= j <= |g.segs[k]|
    ensures Before(g, k) + j <= |Content(g)| && b.totalLen == |Content(g)|
    ensures Content(g)[Before(g, k) + i..Before(g, k) + j] == g.segs[k][i..j]
  {
    BeforeAndIn(b, g, k);
    hide Flat, Before, Content, Valid;
    SlicesOf(Content(g), Before(g, k), Before(g, k + 1), i, j);
  }

  // ----- evbuffer_ptr_set

  /** The loop of evbuffer_ptr_set */
  method Advance(b: Evbuf, ghost g: Shape, from: Ptr, inChain: nat, step: nat, target: int, ghost k0: nat)
    returns (ok: bool, q: Pos, ghost k: nat)
    requires Valid(b, g) && k0 <= |g.list| && from == InSlot(g.list, k0) && target == Before(g, k0) + inChain + step
    requires if k0 < |g.list| then inChain <= |g.segs[k0]| else inChain == 0
    ensures ok <==> target < |Content(g)|
    ensures if ok then InChunk(g, q, k) && q.pos == target else q.Nowhere()
  {
    hide Valid, ChunkOf, Content, Before;
    BeforeEnds(b, g);
    var chain := from;
    var position: nat, left: nat := inChain, step;
    k := k0;
    if k < |g.list| {
      assert ChunkOf(b, g, k) == b.heap[chain];
      assert |b.heap[chain].Data()| == |g.segs[k]|;
    }
    while chain != NULL && position + left >= b.heap[chain].off
      invariant k <= |g.list| && chain == InSlot(g.list, k) && target == Before(g, k) + position + left
      invariant if k < |g.list| then position <= |g.segs[k]| else position == 0
      invariant k < |g.list| ==>
                  chain in b.heap && b.heap[chain] == ChunkOf(b, g, k) && b.heap[chain].off == |g.segs[k]|
      decreases |g.list| - k
    {
      BeforeAndIn(b, g, k);
      left := left - (b.heap[chain].off - position);
      chain, position, k := b.heap[chain].next, 0, k + 1;
      if k < |g.list| {
        assert ChunkOf(b, g, k) == b.heap[chain];
        assert |b.heap[chain].Data()| == |g.segs[k]|;
      }
    }
    ok := chain != NULL;
    if ok {
      BeforeAndIn(b, g, k);
      q := Pos(target, chain, position + left);
    } else {
      q := Pos(-1, NULL, inChain);
    }
  }

  /** evbuffer_ptr_set with EVBUFFER_PTR_SET.  The end of the data is no position. */
  method PtrSet(b: Evbuf, ghost g: Shape, position: nat) returns (ok: bool, q: Pos, ghost k: nat)
    requires Valid(b, g)
    ensures ok <==> position < |Content(g)|
    ensures if ok then InChunk(g, q, k) && q.pos == position else q.Nowhere()
  {
    hide Valid, Content, Before;
    BeforeEnds(b, g);
    ok, q, k := Advance(b, g, b.first, 0, position, position, 0);
  }

  /** evbuffer_ptr_set with EVBUFFER_PTR_ADD: the same position as counting from the
      start of the evbuffer. */
  method PtrAdd(b: Evbuf, ghost g: Shape, p: Pos, step: nat, ghost k0: nat) returns (ok: bool, q: Pos, ghost k: nat)
    requires Valid(b, g) && (p.Nowhere() || At(g, p, k0))
    ensures ok <==> !p.Nowhere() && p.pos + step < |Content(g)|
    ensures if ok then InChunk(g, q, k) && q.pos == p.pos + step else q.Nowhere()
  {
    hide Valid, Content;
    BeforeEnds(b, g);
    if p.chunk == NULL {
      ok, q, k := false, Pos(-1, NULL, p.inChain), 0;
    } else {
      ok, q, k := Advance(b, g, p.chunk, p.inChain, step, p.pos + step, k0);
    }
  }

  // ----- evbuffer_ptr_memcmp

  /** memcmp: zero, or the sign of the first difference */
  function Memcmp(s: seq<byte>, t: seq<byte>): int
    requires |s| == |t|
  {
    if s == [] then 0
    else if s[0] != t[0] then s[0] - t[0]
    else Memcmp(s[1..], t[1..])
  }

  lemma {:induction false} MemcmpZero(s: seq<byte>, t: seq<byte>)
    requires |s| == |t|
    ensures Memcmp(s, t) == 0 <==> s == t
  {
    if s != [] {
      MemcmpZero(s[1..], t[1..]);
      assert s == [s[0]] + s[1..] && t == [t[0]] + t[1..];
    }
  }

  lemma {:induction false} MemcmpConcat(s1: seq<byte>, s2: seq<byte>, t1: seq<byte>, t2: seq<byte>)
    requires |s1| == |t1| && |s2| == |t2|
    ensures Memcmp(s1 + s2, t1 + t2) == if Memcmp(s1, t1) != 0 then Memcmp(s1, t1) else Memcmp(s2, t2)
  {
    if s1 == [] {
      assert s1 + s2 == s2 && t1 + t2 == t2;
    } else {
      assert (s1 + s2)[1..] == s1[1..] + s2 && (t1 + t2)[1..] == t1[1..] + t2;
      MemcmpConcat(s1[1..], s2, t1[1..], t2);
    }
  }

  /** evbuffer_ptr_memcmp: memcmp on the content, chunk by chunk */
  method PtrMemcmp(b: Evbuf, ghost g: Shape, q: Pos, mem: seq<byte>, ghost k0: nat) returns (r: int)
    requires Valid(b, g) && At(g, q, k0)
    ensures r == if |Content(g)| < q.pos + |mem| then -1
                 else Memcmp(Content(g)[q.pos..q.pos + |mem|], mem)
  {
    hide Valid, ChunkOf, Content, Before, Memcmp;
    BeforeEnds(b, g);
    if q.pos + |mem| > b.totalLen {
      return -1;
    }
    ghost var t, k, all := Content(g), k0, mem;
    var chain, rest := q.chunk, mem;
    var position: nat := q.inChain;
    assert mem[0..0] == [] && mem[0..|mem|] == mem && t[q.pos..q.pos] == [];
    assert Memcmp([], []) == 0 by { MemcmpZero([], []); }
    ghost var done := 0;
    while rest != [] && chain != NULL
      invariant k <= |g.list| && chain == InSlot(g.list, k) && done <= |mem| && rest == mem[done..|mem|]
      invariant rest != [] ==> q.pos + done == Before(g, k) + position
      invariant if k < |g.list| then position <= |g.segs[k]| else position == 0
      invariant Memcmp(t[q.pos..q.pos + done], mem[0..done]) == 0
      decreases |g.list| - k
    {
      assert ChunkOf(b, g, k) == b.heap[chain];
      var c := b.heap[chain];
      assert |c.Data()| == |g.segs[k]|;
      var n := if |rest| + position > c.off then c.off - position else |rest|;
      PartOfChunk(b, g, k, position, position + n);
      BeforeAndIn(b, g, k);
      ghost var at := q.pos + done;
      NextPart(t, mem, q.pos, done, n);
      r := Memcmp(c.Data()[position..position + n], rest[0..n]);
      if r != 0 {
        return;
      }
      done := done + n;
      rest, position, chain, k := rest[n..|rest|], 0, c.next, k + 1;
    }
    r := 0;
  }

  lemma MemcmpParts(a1: seq<byte>, a2: seq<byte>, a3: seq<byte>, m1: seq<byte>, m2: seq<byte>, m3: seq<byte>)
    requires |a1| == |m1| && |a2| == |m2| && |a3| == |m3| && Memcmp(a1, m1) == 0
    ensures Memcmp(a1 + a2, m1 + m2) == Memcmp(a2, m2)
    ensures Memcmp(a2, m2) != 0 ==> Memcmp(a1 + a2 + a3, m1 + m2 + m3) == Memcmp(a2, m2)
  {
    hide Memcmp;
    MemcmpConcat(a1, a2, m1, m2);
    MemcmpConcat(a1 + a2, a3, m1 + m2, m3);
  }

  lemma NextPart(t: seq<byte>, mem: seq<byte>, pos: nat, done: nat, n: nat)
    requires pos + |mem| <= |t| && done + n <= |mem| && Memcmp(t[pos..pos + done], mem[0..done]) == 0
    ensures mem[done..|mem|][0..n] == mem[done..done + n] && mem[done..|mem|][n..|mem| - done] == mem[done + n..|mem|]
    ensures var r := Memcmp(t[pos + done..pos + done + n], mem[done..done + n]);
            && Memcmp(t[pos..pos + done + n], mem[0..done + n]) == r
            && (r != 0 ==> Memcmp(t[pos..pos + |mem|], mem[0..|mem|]) == r)
  {
    hide Memcmp;
    SlicesOf(mem, done, |mem|, 0, n);
    SlicesOf(mem, done, |mem|, n, |mem| - done);
    var i, j, k := pos + done, pos + done + n, pos + |mem|;
    var a1, a2, a3, m1, m2, m3 := t[pos..i], t[i..j], t[j..k], mem[0..done], mem[done..done + n], mem[done + n..|mem|];
    assert a1 + a2 == t[pos..j] && a1 + a2 + a3 == t[pos..k] by { ThreeParts(t, pos, i, j, k); }
    assert m1 + m2 == mem[0..done + n] && m1 + m2 + m3 == mem[0..|mem|] by {
      ThreeParts(mem, 0, done, done + n, |mem|);
    }
    MemcmpParts(a1, a2, a3, m1, m2, m3);
  }

  // ----- evbuffer_search_range

  /** memchr: the index of the first c in s, or the length of s */
  function Memchr(s: seq<byte>, c: byte): (m: nat)
    ensures m <= |s| && (m < |s| ==> s[m] == c)
    ensures forall j | 0 <= j < m :: s[j] != c
  {
    if s == [] || s[0] == c then 0 else 1 + Memchr(s[1..], c)
  }

  predicate IsMatch(t: seq<byte>, what: seq<byte>, i: nat) {
    i + |what| <= |t| && t[i..i + |what|] == what
  }

  /** A match at i ends by end, if there is one; no match ends by a position that is
      nowhere. */
  predicate EndsBy(i: nat, what: seq<byte>, end: Option<Pos>) {
    end == None || i + |what| <= end.value.pos
  }

  ghost predicate NoMatch(t: seq<byte>, what: seq<byte>, i: nat, j: nat) {
    forall m | i <= m < j :: !IsMatch(t, what, m)
  }

  /** evbuffer_search_range returns the first match at or after start, if that ends by
      end.  k0 and ke are the indices of the chunks of start and end. */
  method SearchRange(b: Evbuf, ghost g: Shape, what: seq<byte>, start: Option<Pos>, end: Option<Pos>,
                     ghost k0: nat, ghost ke: nat)
    returns (r: Pos, ghost k: nat)
    requires Valid(b, g)
    requires start.Some? ==> start.value.Nowhere() || At(g, start.value, k0)
    requires end.Some? ==> end.value.Nowhere() || At(g, end.value, ke)
    ensures what == [] || EV_SSIZE_MAX < |what| ==> r == if start.Some? then start.value else Pos(0, b.first, 0)
    ensures 0 < |what| <= EV_SSIZE_MAX && start.Some? && start.value.Nowhere() ==> r.Nowhere()
    ensures 0 < |what| <= EV_SSIZE_MAX && (start.Some? ==> !start.value.Nowhere()) ==>
              var s: nat := if start.Some? then start.value.pos else 0;
              if r.Nowhere() then
                forall i: nat | s <= i && IsMatch(Content(g), what, i) :: !EndsBy(i, what, end)
              else
                && InChunk(g, r, k) && s <= r.pos && IsMatch(Content(g), what, r.pos) && EndsBy(r.pos, what, end)
                && NoMatch(Content(g), what, s, r.pos)
  {
    hide Valid, ChunkOf, Content, Before, IsMatch, NoMatch, Memcmp, Memchr, EndsBy;
    BeforeEnds(b, g);
    r, k := if start.Some? then start.value else Pos(0, b.first, 0), if start.Some? then k0 else 0;
    if what == [] || EV_SSIZE_MAX < |what| || r.Nowhere() {
      return;
    }
    var lastChain := if end.Some? then end.value.chunk else NULL;
    ghost var s, t := r.pos, Content(g);
    NoneAtFirst(t, what, s);
    while r.chunk != NULL
      invariant At(g, r, k) && s <= r.pos && NoMatch(t, what, s, r.pos)
      decreases |g.list| - k, if k < |g.list| then |g.segs[k]| - r.inChain else 0
    {
      assert ChunkOf(b, g, k) == b.heap[r.chunk];
      var c := b.heap[r.chunk];
      assert |c.Data()| == |g.segs[k]|;
      BeforeAndIn(b, g, k);
      PartOfChunk(b, g, k, r.inChain, |g.segs[k]|);
      var m := Memchr(c.Data()[r.inChain..c.off], what[0]);
      NotBeforeFirstByte(t, what, s, r.pos, c.Data()[r.inChain..c.off], m);
      if m < c.off - r.inChain {
        r := r.(pos := r.pos + m, inChain := r.inChain + m);
        var cmp := PtrMemcmp(b, g, r, what, k);
        MatchOrNot(t, what, r.pos, cmp);
        if cmp == 0 {
          if !EndsBy(r.pos, what, end) {
            OnlyLater(t, what, s, r.pos, end);
            r := Pos(-1, NULL, r.inChain);
          }
          return;
        }
        OneMoreNoMatch(t, what, s, r.pos);
        r := r.(pos := r.pos + 1, inChain := r.inChain + 1);
        if r.inChain == c.off {
          r, k := r.(chunk := c.next, inChain := 0), k + 1;
        }
      } else {
        if r.chunk == lastChain {
          NoneByEnd(b, g, what, s, k, end, ke);
          r := Pos(-1, NULL, r.inChain);
          return;
        }
        r, k := r.(pos := r.pos + (c.off - r.inChain), chunk := c.next, inChain := 0), k + 1;
      }
    }
    NoneAtAll(t, what, s, end);
    r := Pos(-1, NULL, r.inChain);
  }

  lemma NoneAtFirst(t: seq<byte>, what: seq<byte>, s: nat)
    ensures NoMatch(t, what, s, s)
  {}

  lemma OneMoreNoMatch(t: seq<byte>, what: seq<byte>, s: nat, i: nat)
    requires s <= i && NoMatch(t, what, s, i) && !IsMatch(t, what, i)
    ensures NoMatch(t, what, s, i + 1)
  {}

  /** A match has to start with the first byte. */
  lemma NotBeforeFirstByte(t: seq<byte>, what: seq<byte>, s: nat, i: nat, part: seq<byte>, m: nat)
    requires what != [] && s <= i && i + |part| <= |t| && t[i..i + |part|] == part && NoMatch(t, what, s, i)
    requires m <= |part| && forall j | 0 <= j < m :: part[j] != what[0]
    ensures NoMatch(t, what, s, i + m)
  {
    forall j | i <= j < i + m ensures !IsMatch(t, what, j) {
      assert t[j] == part[j - i];
      assert j + |what| <= |t| ==> t[j..j + |what|][0] == t[j];
    }
  }

  lemma MatchOrNot(t: seq<byte>, what: seq<byte>, i: nat, cmp: int)
    requires cmp == if |t| < i + |what| then -1 else Memcmp(t[i..i + |what|], what)
    ensures cmp == 0 <==> IsMatch(t, what, i)
  {
    if i + |what| <= |t| {
      MemcmpZero(t[i..i + |what|], what);
    }
  }

  /** If the first match ends too late, so do the others. */
  lemma OnlyLater(t: seq<byte>, what: seq<byte>, s: nat, i: nat, end: Option<Pos>)
    requires s <= i && NoMatch(t, what, s, i) && !EndsBy(i, what, end)
    ensures forall j: nat | s <= j && IsMatch(t, what, j) :: !EndsBy(j, what, end)
  {}

  lemma NoneAtAll(t: seq<byte>, what: seq<byte>, s: nat, end: Option<Pos>)
    requires what != [] && NoMatch(t, what, s, |t|)
    ensures forall j: nat | s <= j && IsMatch(t, what, j) :: !EndsBy(j, what, end)
  {}

  /** No match before the end of the chunk of end. */
  lemma NoneByEnd(b: Evbuf, g: Shape, what: seq<byte>, s: nat, k: nat, end: Option<Pos>, ke: nat)
    requires Valid(b, g) && k < |g.list| && what != []
    requires end.Some? ==> end.value.Nowhere() || At(g, end.value, ke)
    requires g.list[k] == if end.Some? then end.value.chunk else NULL
    requires NoMatch(Content(g), what, s, Before(g, k + 1))
    ensures forall j: nat | s <= j && IsMatch(Content(g), what, j) :: !EndsBy(j, what, end)
  {
    hide Content, Before, Flat;
    BeforeEnds(b, g);
    BeforeAndIn(b, g, k);
    OneIndex(b.heap, g.list, g.segs, k);
    assert InSlot(g.list, k) != NULL;
    assert end.Some? && ke == k;
    hide At;
    forall j: nat | s <= j && IsMatch(Content(g), what, j) ensures !EndsBy(j, what, end) {
      assert Before(g, k + 1) <= j;
    }
  }
}
