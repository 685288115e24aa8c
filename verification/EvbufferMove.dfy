/** The operations of buffer.c that take bytes off the front of an evbuffer, put
    bytes there, or move chunks from one evbuffer to another. */
module EvbufferMove {
  import opened Bytes
  import opened Chunks
  import opened EvbufferCore

  // ----- evbuffer_prepend

  /** Put data into the space before the first chunk.  If that chunk is empty, its
      whole memory counts as space before it. */
  method FillFirst(b: Evbuf, ghost g: Shape, data: seq<byte>)
    returns (rest: seq<byte>, b': Evbuf, ghost g': Shape)
    requires Valid(b, g) && g.list != []
    ensures Valid(b', g') && rest <= data && Content(g') == data[|rest|..] + Content(g)
    ensures g' == g.(segs := g.segs[0 := data[|rest|..] + g.segs[0]])
    ensures var room := FirstChunk(b, g).Rear().misalign; |rest| == if |data| <= room then 0 else |data| - room
    ensures b' == b.(heap := b'.heap, totalLen := b'.totalLen) && b'.heap.Keys == b.heap.Keys
  {
    hide Flat, ListOf;
    var c := FirstChunk(b, g).Rear();
    var n := if |data| <= c.misalign then |data| else c.misalign;
    rest := data[..|data| - n];
    var now := data[|data| - n..];
    b', g' := SetChunk(b, g, b.first, c.Prepend(now), 0);
    NoSegs(g.segs);
    AssocFirst(now, g.segs[0], Flat(g.segs[1..]));
  }

  lemma NoSegs(segs: seq<seq<byte>>)
    ensures Flat(segs[..0]) == []
  {}

  /** evbuffer_prepend on a list that has a chunk */
  method PrependToList(b: Evbuf, ghost g: Shape, data: seq<byte>, p: Ptr)
    returns (b': Evbuf, ghost g': Shape)
    requires Valid(b, g) && g.list != [] && p != NULL && p !in b.heap
    ensures Valid(b', g') && Content(g') == data + Content(g) && (Layout(g) ==> Layout(g')) && (Tight(g) ==> Tight(g'))
    ensures b'.heap.Keys <= b.heap.Keys + {p}
    ensures b'.freezeStart == b.freezeStart && b'.freezeEnd == b.freezeEnd
  {
    hide Flat, ListOf, LayoutOf;
    var rest;
    rest, b', g' := FillFirst(b, g, data);
    ghost var now := data[|rest|..];
    if Layout(g) {
      LayoutAfterFill(g.segs, g.lwd, now);
    }
    if rest != [] {
      LayoutAfterPush(g'.segs, g'.lwd, rest);
      var c := ChainNew(|rest|);
      c := c.(next := b'.first, misalign := |c.mem|).Prepend(rest);
      b', g' := PushChunk(b', g', c, p);
      Assoc(rest, now, Content(g));
      Halves(data, |rest|);
    }
  }

  /** evbuffer_prepend */
  method Prepend(b: Evbuf, ghost g: Shape, data: seq<byte>, p: Ptr)
    returns (r: Outcome, b': Evbuf, ghost g': Shape)
    requires Valid(b, g) && p != NULL && p !in b.heap
    ensures r == if b.freezeStart then Frozen else Done
    ensures r == Frozen ==> b' == b && g' == g
    ensures r == Done ==> Valid(b', g') && Content(g') == data + Content(g)
    ensures r == Done ==> (Layout(g) ==> Layout(g')) && (Tight(g) ==> Tight(g'))
    ensures b'.heap.Keys <= b.heap.Keys + {p}
    ensures b'.freezeStart == b.freezeStart && b'.freezeEnd == b.freezeEnd
  {
    hide Flat, ListOf, LayoutOf;
    b', g' := b, g;
    r := if b.freezeStart then Frozen else Done;
    assert g.list != [] ==> FirstChunk(b, g) == b.heap[b.first];
    if r == Done && b.first != NULL {
      b', g' := PrependToList(b, g, data, p);
    } else if r == Done {
      b', g' := EnsureFirst(b, g, |data|, p);
      var rest;
      assert |FirstChunk(b', g').Data()| == 0;
      if Layout(g) {
        LayoutAfterFill(g'.segs, g'.lwd, data);
      }
      rest, b', g' := FillFirst(b', g', data);
    }
  }

  /** Filling the first chunk up keeps the layout, and so does a chunk with data
      in front of it. */
  lemma LayoutAfterFill(segs: seq<seq<byte>>, lwd: nat, now: seq<byte>)
    requires segs != [] && LayoutOf(segs, lwd)
    ensures LayoutOf(segs[0 := now + segs[0]], lwd)
  {
    var e := segs[0 := now + segs[0]];
    assert e[0] == now + segs[0];
  }

  lemma LayoutAfterPush(segs: seq<seq<byte>>, lwd: nat, rest: seq<byte>)
    requires segs != [] && segs[0] != [] && rest != []
    ensures LayoutOf(segs, lwd) ==> LayoutOf([rest] + segs, lwd + 1)
  {
    var f := [rest] + segs;
    assert forall i | 0 < i < |f| :: f[i] == segs[i - 1];
  }

  /** A new first chunk. */
  method PushChunk(b: Evbuf, ghost g: Shape, c: Chunk, p: Ptr) returns (b': Evbuf, ghost g': Shape)
    requires Valid(b, g) && g.list != [] && p != NULL && p !in b.heap
    requires c.Fits() && c.next == b.first
    ensures Valid(b', g') && Content(g') == c.Data() + Content(g)
    ensures g' == Shape([p] + g.list, [c.Data()] + g.segs, g.lwd + 1)
    ensures b' == b.(heap := b.heap[p := c], first := p, totalLen := b.totalLen + c.off, slot := b'.slot)
  {
    hide Flat;
    PushFront(b.heap, g.list, g.segs, p, c);
    assert 0 < g.lwd ==> ChunkAt(b.heap, g.list, g.segs, g.lwd - 1);
    FlatAppend([c.Data()], g.segs);
    FlatOne(c.Data());
    b' := b.(heap := b.heap[p := c], first := p, totalLen := b.totalLen + c.off,
             slot := if b.slot == NULL then p else b.slot);
    g' := Shape([p] + g.list, [c.Data()] + g.segs, g.lwd + 1);
  }

  // ----- evbuffer_drain, evbuffer_copyout, evbuffer_remove

  /** The chunks from k on, the first of them without its first n bytes. */
  ghost function Cut(g: Shape, k: nat, n: nat): Shape
    requires k < |g.list| == |g.segs| && n <= |g.segs[k]|
  {
    Shape(g.list[k..], g.segs[k..][0 := g.segs[k][n..]], if k < g.lwd then g.lwd - k else 0)
  }

  lemma LayoutAfterCut(g: Shape, k: nat, n: nat)
    requires Layout(g) && k < |g.list| == |g.segs| && n < |g.segs[k]|
    ensures Layout(Cut(g, k, n))
  {
    var e := Cut(g, k, n).segs;
    assert e[0] == g.segs[k][n..];
    assert forall i | 0 < i < |e| :: e[i] == g.segs[k + i];
  }

  /** Freeing k chunks and skipping n bytes of the next leaves a proper list. */
  lemma CutList(b: Evbuf, g: Shape, k: nat, n: nat)
    requires Valid(b, g) && k < |g.list| && n <= |g.segs[k]|
    ensures var h, p := Freed(b.heap, g.list, 0, k), g.list[k];
            && p in h && h[p] == b.heap[p] && h[p].Fits() && h[p].off == |g.segs[k]| && h[p].Data() == g.segs[k]
            && ListOf(h[p := h[p].Skip(n)], g.list[k..], Cut(g, k, n).segs)
            && |Flat(Cut(g, k, n).segs)| == |Content(g)| - |Flat(g.segs[..k])| - n
  {
    hide Flat;
    DropFront(b.heap, g.list, g.segs, k);
    assert g.list[0..k] == g.list[..k];
    assert ChunkAt(b.heap, g.list, g.segs, k);
    var h, p := Freed(b.heap, g.list, 0, k), g.list[k];
    assert g.list[k..][0] == p;
    ReplaceChunk(h, g.list[k..], g.segs[k..], 0, h[p].Skip(n));
    FlatCut(g.segs, k, n);
  }

  /** The partial case of evbuffer_drain */
  method DrainSome(b: Evbuf, ghost g: Shape, len: nat) returns (b': Evbuf, ghost g': Shape)
    requires Valid(b, g) && len < b.totalLen
    ensures Valid(b', g') && Content(g') == Content(g)[len..] && (Layout(g) ==> Layout(g')) && (Tight(g) ==> Tight(g'))
    ensures b'.heap.Keys <= b.heap.Keys
    ensures b'.freezeStart == b.freezeStart && b'.freezeEnd == b.freezeEnd
  {
    hide Flat, ListOf, LayoutOf, Freed;
    var h, s, p := b.heap, b.slot, b.first;
    var remaining: nat := len;
    ghost var k, list := 0, g.list;
    FirstOfContent(b, g);
    assert Freed(b.heap, list, 0, 0) == b.heap by {
      NothingFreed(b.heap, list, 0);
    }
    CutList(b, g, 0, 0);
    while h[p].off <= remaining
      invariant k < |list| && p == list[k]
      invariant h == Freed(b.heap, list, 0, k)
      invariant p in h && h[p].off == |g.segs[k]|
      invariant s == if k < g.lwd then list[g.lwd - 1] else NULL
      invariant remaining + |Flat(g.segs[..k])| == len
      decreases |list| - k
    {
      FlatTakeMore(g.segs, k);
      NotAllTaken(g, k);
      StepOver(b, g, k);
      var next := h[p].next;
      remaining := remaining - h[p].off;
      // *buf->last_with_datap, while buf->first is still the old one
      if p == (if s == NULL then b.first else h[s].next) {
        s := NULL;
      }
      if s == p {
        s := NULL;
      }
      h := h - {p};
      p, k := next, k + 1;
      CutList(b, g, k, 0);
    }
    CutList(b, g, k, remaining);
    FlatCut(g.segs, k, remaining);
    if Layout(g) {
      LayoutAfterCut(g, k, remaining);
    }
    b' := b.(heap := h[p := h[p].Skip(remaining)], first := p, slot := s, totalLen := b.totalLen - len);
    g' := Cut(g, k, remaining);
  }

  lemma FirstOfContent(b: Evbuf, g: Shape)
    requires Valid(b, g) && Content(g) != []
    ensures g.list != [] && b.first == g.list[0] && Flat(g.segs[..0]) == []
  {
    NoSegs(g.segs);
  }

  lemma NotAllTaken(g: Shape, k: nat)
    requires k < |g.segs| && |Flat(g.segs[..k + 1])| < |Content(g)|
    ensures k + 1 < |g.segs|
  {
    assert g.segs[..|g.segs|] == g.segs;
  }

  /** One round of the loop: chunk k is freed, and the slot is looked at. */
  lemma StepOver(b: Evbuf, g: Shape, k: nat)
    requires Valid(b, g) && k + 1 < |g.list|
    ensures var h := Freed(b.heap, g.list, 0, k);
            && g.list[k] in h && h[g.list[k]].next == g.list[k + 1]
            && Freed(b.heap, g.list, 0, k + 1) == h - {g.list[k]}
    ensures var h := Freed(b.heap, g.list, 0, k);
            k < g.lwd ==>
              && g.list[g.lwd - 1] != NULL && g.list[g.lwd - 1] in h
              && h[g.list[g.lwd - 1]].next == g.list[g.lwd] != g.list[k]
              && (g.list[g.lwd - 1] == g.list[k] <==> g.lwd == k + 1)
  {
    OneMoreFreed(b.heap, g.list, g.segs, 0, k);
    assert LinkAt(b.heap, g.list, k);
    if k < g.lwd {
      DropFront(b.heap, g.list, g.segs, k);
      assert g.list[0..k] == g.list[..k];
      assert LinkAt(b.heap, g.list, g.lwd - 1) && ChunkAt(b.heap, g.list, g.segs, g.lwd - 1);
      OneIndex(b.heap, g.list, g.segs, k);
    }
  }

  function Min(a: nat, b: nat): nat {
    if a <= b then a else b
  }

  /** ZERO_CHAIN, after the chunks have gone elsewhere */
  function Zeroed(b: Evbuf): Evbuf {
    b.(heap := map[], first := NULL, last := NULL, slot := NULL, totalLen := 0)
  }

  lemma ZeroedIsValid(b: Evbuf)
    ensures Valid(Zeroed(b), NoShape) && Layout(NoShape) && Content(NoShape) == []
  {}

  /** evbuffer_drain */
  method Drain(b: Evbuf, ghost g: Shape, len: nat)
    returns (r: Outcome, b': Evbuf, ghost g': Shape)
    requires Valid(b, g)
    ensures r == if b.freezeStart && Content(g) != [] then Frozen else Done
    ensures r == Frozen ==> b' == b && g' == g
    ensures r == Done ==> Valid(b', g') && Content(g') == Content(g)[Min(len, |Content(g)|)..]
    ensures r == Done ==> (Layout(g) ==> Layout(g')) && (Tight(g) ==> Tight(g'))
    ensures b'.heap.Keys <= b.heap.Keys
    ensures b'.freezeStart == b.freezeStart && b'.freezeEnd == b.freezeEnd
  {
    hide Flat, LayoutOf;
    b', g' := b, g;
    r := if b.freezeStart && b.totalLen != 0 then Frozen else Done;
    if r == Frozen || b.totalLen == 0 {
      return;
    }
    if b.totalLen <= len {
      var h := FreeAllChains(b, g, b.first, 0);
      ZeroedIsValid(b);
      assert g.list[0..] == g.list;
      b', g' := Zeroed(b).(heap := h), NoShape;
    } else {
      b', g' := DrainSome(b, g, len);
    }
  }

  /** evbuffer_copyout */
  method CopyOut(b: Evbuf, ghost g: Shape, n: nat) returns (r: Outcome, data: seq<byte>)
    requires Valid(b, g)
    ensures r == if b.freezeStart && n != 0 && Content(g) != [] then Frozen else Done
    ensures r == Done ==> data == Content(g)[..Min(n, |Content(g)|)]
  {
    hide Flat, ListOf;
    var left: nat := if b.totalLen <= n then b.totalLen else n;
    data := [];
    r := if b.freezeStart && left != 0 then Frozen else Done;
    if r == Frozen || left == 0 {
      return;
    }
    ghost var want := left;
    var p := b.first;
    ghost var k := 0;
    FirstOfContent(b, g);
    ChunkFacts(b, g, 0);
    while left != 0 && b.heap[p].off <= left
      invariant k <= |g.list| && p == InSlot(g.list, k)
      invariant left != 0 ==> k < |g.list| && ChunkAt(b.heap, g.list, g.segs, k)
      invariant |data| + left == want <= |Content(g)| && data == Flat(g.segs[..k])
      decreases |g.list| - k
    {
      FlatTakeMore(g.segs, k);
      ChunkFacts(b, g, k);
      var c := b.heap[p];
      data := data + c.Data();
      left := left - c.off;
      p, k := c.next, k + 1;
      if left != 0 {
        NotAllTaken(g, k - 1);
        ChunkFacts(b, g, k);
      }
    }
    if left != 0 {
      FlatCut(g.segs, k, left);
      data := data + b.heap[p].Data()[..left];
    } else {
      FlatPrefix(g.segs, k);
    }
  }

  lemma FlatPrefix(ss: seq<seq<byte>>, k: nat)
    requires k <= |ss|
    ensures Flat(ss[..k]) <= Flat(ss)
  {
    FlatSplit(ss, k);
  }

  lemma ChunkFacts(b: Evbuf, g: Shape, k: nat)
    requires Valid(b, g) && k < |g.list|
    ensures ChunkAt(b.heap, g.list, g.segs, k) && LinkAt(b.heap, g.list, k)
  {}

  /** The chunk at index i */
  ghost function ChunkOf(b: Evbuf, g: Shape, i: nat): (c: Chunk)
    requires Valid(b, g) && i < |g.list|
    ensures g.list[i] in b.heap && g.list[i] != NULL && c == b.heap[g.list[i]]
    ensures c.Fits() && c.Data() == g.segs[i] && c.next == InSlot(g.list, i + 1)
  {
    ChunkFacts(b, g, i);
    b.heap[g.list[i]]
  }

  /** evbuffer_remove */
  method Remove(b: Evbuf, ghost g: Shape, n: nat)
    returns (r: Outcome, data: seq<byte>, b': Evbuf, ghost g': Shape)
    requires Valid(b, g)
    ensures r == if b.freezeStart && n != 0 && Content(g) != [] then Frozen else Done
    ensures r == Frozen ==> b' == b && g' == g
    ensures r == Done ==> Valid(b', g') && data + Content(g') == Content(g)
    ensures r == Done ==> |data| == Min(n, |Content(g)|)
    ensures r == Done ==> (Layout(g) ==> Layout(g')) && (Tight(g) ==> Tight(g'))
    ensures b'.heap.Keys <= b.heap.Keys
    ensures b'.freezeStart == b.freezeStart && b'.freezeEnd == b.freezeEnd
  {
    b', g' := b, g;
    r, data := CopyOut(b, g, n);
    if r == Done && data != [] {
      r, b', g' := Drain(b, g, |data|);
    }
  }
}
