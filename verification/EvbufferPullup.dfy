/** evbuffer_pullup of buffer.c: make the first bytes contiguous. */
module EvbufferPullup {
  import opened Bytes
  import opened Chunks
  import opened EvbufferCore
  import opened EvbufferMove

  /** Copy and free every chunk that will be entirely pulled into tmp.  h keeps the
      chunks before index k0, of which there is at most one. */
  method PullWhole(b: Evbuf, ghost g: Shape, tmp0: Chunk, ghost k0: nat, from: Ptr, size: nat, lastWithData: Ptr)
    returns (h: map<Ptr, Chunk>, tmp: Chunk, p: Ptr, left: nat, lostData: bool, lostSlot: bool, ghost k: nat)
    requires Valid(b, g) && size <= b.totalLen && k0 <= 1 && k0 < |g.list|
    requires tmp0.Fits() && tmp0.Data() == Flat(g.segs[..k0]) && size <= |tmp0.mem| - tmp0.misalign
    requires from == g.list[k0] && |Flat(g.segs[..k0])| < size
    requires if g.lwd == 0 then lastWithData !in g.list[k0..] else lastWithData == g.list[g.lwd]
    ensures k0 <= k <= |g.list| && p == InSlot(g.list, k)
    ensures h == Freed(b.heap, g.list, k0, k)
    ensures tmp.Fits() && tmp.Data() == Flat(g.segs[..k]) && |tmp.mem| - tmp.misalign >= size
    ensures left == size - |Flat(g.segs[..k])| && (if k < |g.list| then left < |g.segs[k]| else left == 0)
    ensures lostData <==> 0 < g.lwd < k
    ensures lostSlot <==> k0 < g.lwd <= k
  {
    hide Flat, ListOf, Freed, LayoutOf;
    tmp, h, p, left, lostData, lostSlot, k := tmp0, b.heap, from, size - tmp0.off, false, false, k0;
    NothingFreed(b.heap, g.list, k0);
    ChunkFacts(b, g, k);
    while p != NULL && h[p].off <= left
      invariant k0 <= k <= |g.list| && p == InSlot(g.list, k)
      invariant h == Freed(b.heap, g.list, k0, k)
      invariant k < |g.list| ==> ChunkAt(b.heap, g.list, g.segs, k) && p in h && h[p] == b.heap[p]
      invariant tmp.Fits() && tmp.Data() == Flat(g.segs[..k]) && size <= |tmp.mem| - tmp.misalign
      invariant left == size - |Flat(g.segs[..k])|
      invariant lostData <==> 0 < g.lwd < k
      invariant lostSlot <==> k0 < g.lwd <= k
      decreases |g.list| - k
    {
      var c := h[p];
      FlatTakeMore(g.segs, k);
      OneMoreFreed(b.heap, g.list, g.segs, k0, k);
      OneIndex(b.heap, g.list, g.segs, k);
      ChunkFacts(b, g, k);
      tmp := tmp.Append(c.Data());
      left := left - c.off;
      lostData := lostData || p == lastWithData;
      lostSlot := lostSlot || p == b.slot;
      SlotOwner(b, g, k);
      h := h - {p};
      p, k := c.next, k + 1;
      if k < |g.list| {
        ChunkFacts(b, g, k);
        OneMoreFreed(b.heap, g.list, g.segs, k0, k);
      }
    }
    if k == |g.list| {
      assert g.segs[..k] == g.segs;
    }
  }

  lemma SlotOwner(b: Evbuf, g: Shape, k: nat)
    requires Valid(b, g) && k < |g.list|
    ensures g.list[k] == b.slot <==> k + 1 == g.lwd
  {
    ChunkFacts(b, g, k);
    OneIndex(b.heap, g.list, g.segs, k);
  }

  /** The chunks from index k on behind one chunk that holds what came before. */
  ghost function Pulled(g: Shape, addr: Ptr, k: nat, left: nat, d: seq<byte>): Shape
    requires k <= |g.list| == |g.segs| && if k < |g.list| then left <= |g.segs[k]| else left == 0
  {
    Shape([addr] + g.list[k..],
          [d] + if k < |g.list| then Cut(g, k, left).segs else [],
          if k <= g.lwd then g.lwd - k + 1 else 0)
  }

  /** h after the chunk p, if there is one, has lost n bytes */
  function Skipped(h: map<Ptr, Chunk>, p: Ptr, n: nat): map<Ptr, Chunk> {
    if p in h && h[p].Fits() && n <= h[p].off then h[p := h[p].Skip(n)] else h
  }

  lemma PulledList(b: Evbuf, g: Shape, k0: nat, k: nat, left: nat, addr: Ptr, tmp: Chunk)
    requires Valid(b, g) && k0 <= k <= |g.list| && 0 < k
    requires if k < |g.list| then left <= |g.segs[k]| else left == 0
    requires tmp.Fits() && tmp.next == InSlot(g.list, k) && addr != NULL
    requires (k0 == 0 && addr !in b.heap) || (k0 == 1 && addr == g.list[0])
    ensures var h := Freed(b.heap, g.list, k0, k);
            ListOf(Skipped(h, InSlot(g.list, k), left)[addr := tmp],
                   [addr] + g.list[k..], Pulled(g, addr, k, left, tmp.Data()).segs)
  {
    hide Flat, ListOf;
    var h, d := Freed(b.heap, g.list, k0, k), Freed(b.heap, g.list, 0, k);
    assert addr !in d && h[addr := tmp] == d[addr := tmp] by {
      ChunkFacts(b, g, 0);
      assert k0 == 1 ==> g.list[0..k] == [addr] + g.list[1..k];
    }
    if k < |g.list| {
      CutList(b, g, k, left);
      OneIndex(b.heap, g.list, g.segs, k);
      var c := d[g.list[k]].Skip(left);
      PushFront(d[g.list[k] := c], g.list[k..], Cut(g, k, left).segs, addr, tmp);
      assert h[g.list[k] := c][addr := tmp] == d[g.list[k] := c][addr := tmp];
    } else {
      NothingTaken(b, g);
      NoChunks();
      PushFront(d, [], [], addr, tmp);
      NoNull(b, g);
      assert h[addr := tmp] == d[addr := tmp];
      assert g.list[k..] == [];
    }
  }

  lemma NoNull(b: Evbuf, g: Shape)
    requires Valid(b, g)
    ensures NULL !in b.heap
  {
    forall i | 0 <= i < |g.list| ensures g.list[i] != NULL {
      ChunkFacts(b, g, i);
    }
  }

  lemma NothingTaken(b: Evbuf, g: Shape)
    requires Valid(b, g)
    ensures Freed(b.heap, g.list, 0, |g.list|) == map[]
  {
    assert g.list[0..|g.list|] == g.list;
  }

  lemma PulledContent(g: Shape, addr: Ptr, k: nat, left: nat, d: seq<byte>)
    requires k <= |g.list| == |g.segs| && if k < |g.list| then left <= |g.segs[k]| else left == 0
    requires d == if k < |g.list| then Flat(g.segs[..k]) + g.segs[k][..left] else Flat(g.segs)
    ensures Content(Pulled(g, addr, k, left, d)) == Content(g)
  {
    hide Flat;
    FlatOne(d);
    if k < |g.list| {
      FlatCut(g.segs, k, left);
      FlatAppend([d], Cut(g, k, left).segs);
      Halves(Content(g), |Flat(g.segs[..k])| + left);
    } else {
      assert [d] + [] == [d];
    }
  }

  lemma PulledLayout(g: Shape, addr: Ptr, k: nat, left: nat, d: seq<byte>)
    requires Layout(g) && d != [] && 0 < k
    requires k <= |g.list| == |g.segs| && if k < |g.list| then left < |g.segs[k]| else left == 0
    ensures Layout(Pulled(g, addr, k, left, d))
  {
    var e := Pulled(g, addr, k, left, d).segs;
    if k < |g.list| {
      assert k <= g.lwd;
      LayoutAfterCut(g, k, left);
      assert e[1] == Cut(g, k, left).segs[0] == g.segs[k][left..];
      assert forall i | 0 < i < |e| :: e[i] == Cut(g, k, left).segs[i - 1];
    }
  }

  /** The end of evbuffer_pullup: the rest of the bytes, the links and the slot. */
  method FinishPull(b: Evbuf, ghost g: Shape, h: map<Ptr, Chunk>, tmp0: Chunk, addr: Ptr, ghost k0: nat, ghost k: nat,
                    p: Ptr, left: nat, lostData: bool, lostSlot: bool)
    returns (b': Evbuf, ghost g': Shape)
    requires Valid(b, g) && k0 <= k <= |g.list| && 0 < k && p == InSlot(g.list, k)
    requires (k0 == 0 && addr !in b.heap && addr != NULL) || (k0 == 1 && addr == g.list[0])
    requires h == Freed(b.heap, g.list, k0, k) && tmp0.Fits() && tmp0.Data() == Flat(g.segs[..k])
    requires left <= tmp0.Space() && (if k < |g.list| then left < |g.segs[k]| else left == 0) && 0 < tmp0.off + left
    requires (lostData <==> 0 < g.lwd < k) && (lostSlot <==> k0 < g.lwd <= k)
    ensures Valid(b', g') && Content(g') == Content(g)
    ensures (Layout(g) ==> Layout(g')) && (Tight(g) ==> Tight(g'))
    ensures g'.segs != [] && |g'.segs[0]| == |Flat(g.segs[..k])| + left
    ensures b'.heap.Keys <= b.heap.Keys + {addr}
    ensures b'.freezeStart == b.freezeStart && b'.freezeEnd == b.freezeEnd
  {
    hide Flat, ListOf, LayoutOf, Freed, Pulled, SlotOf;
    assert addr != NULL by { ChunkFacts(b, g, 0); }
    var h1, tmp := PullRest(b, g, h, tmp0.(next := p), k0, k, p, left);
    PulledValid(b, g, k0, k, left, addr, tmp);
    g' := Pulled(g, addr, k, left, tmp.Data());
    var slot := SlotAfterPull(b, g, addr, k0, k, lostData, lostSlot, p != NULL && h1[p].off != 0);
    b' := b.(heap := h1[addr := tmp], first := addr, last := if p != NULL then b.last else addr, slot := slot);
  }

  lemma PulledValid(b: Evbuf, g: Shape, k0: nat, k: nat, left: nat, addr: Ptr, tmp: Chunk)
    requires Valid(b, g) && k0 <= k <= |g.list| && 0 < k
    requires if k < |g.list| then left < |g.segs[k]| else left == 0
    requires tmp.Fits() && tmp.next == InSlot(g.list, k) && addr != NULL && tmp.off != 0
    requires tmp.Data() == if k < |g.list| then Flat(g.segs[..k]) + g.segs[k][..left] else Flat(g.segs)
    requires (k0 == 0 && addr !in b.heap) || (k0 == 1 && addr == g.list[0])
    ensures var h := Skipped(Freed(b.heap, g.list, k0, k), InSlot(g.list, k), left);
            var g' := Pulled(g, addr, k, left, tmp.Data());
            && Valid(b.(heap := h[addr := tmp],
                        first := addr, last := if k < |g.list| then b.last else addr,
                        slot := SlotOf(g'.list, g'.lwd)), g')
            && (Layout(g) ==> Layout(g')) && Content(g') == Content(g) && g'.segs != [] && |g'.segs[0]| == tmp.off
            && g'.list == [addr] + g.list[k..] && g'.lwd == (if k <= g.lwd then g.lwd - k + 1 else 0)
  {
    hide Flat, ListOf, LayoutOf, Freed;
    PulledList(b, g, k0, k, left, addr, tmp);
    PulledContent(g, addr, k, left, tmp.Data());
    if Layout(g) {
      PulledLayout(g, addr, k, left, tmp.Data());
    }
  }

  /** Copy the first bytes of the chunk that stays. */
  method PullRest(b: Evbuf, ghost g: Shape, h: map<Ptr, Chunk>, tmp0: Chunk, ghost k0: nat, ghost k: nat, p: Ptr,
                  left: nat)
    returns (h': map<Ptr, Chunk>, tmp: Chunk)
    requires Valid(b, g) && k0 <= k <= |g.list| && p == InSlot(g.list, k) && h == Freed(b.heap, g.list, k0, k)
    requires tmp0.Fits() && tmp0.Data() == Flat(g.segs[..k])
    requires left <= tmp0.Space() && (if k < |g.list| then left < |g.segs[k]| else left == 0)
    ensures tmp.Fits() && tmp.next == tmp0.next && |tmp.Data()| == tmp0.off + left
    ensures tmp.Data() == if k < |g.list| then Flat(g.segs[..k]) + g.segs[k][..left] else Flat(g.segs)
    ensures p == NULL <==> k == |g.list|
    ensures h' == Skipped(h, p, left)
    ensures p != NULL ==> p in h' && 0 < h'[p].off
  {
    hide Flat, ListOf, Freed;
    PulledChunk(b, g, k0, k);
    h', tmp := h, tmp0;
    if p != NULL {
      tmp := tmp.Append(h[p].Data()[..left]);
      h' := h[p := h[p].Skip(left)];
    }
  }

  lemma PulledChunk(b: Evbuf, g: Shape, k0: nat, k: nat)
    requires Valid(b, g) && k0 <= k <= |g.list|
    ensures k < |g.list| ==>
              var h, p := Freed(b.heap, g.list, k0, k), g.list[k];
              p != NULL && p in h && h[p] == b.heap[p] && h[p].Fits() && h[p].Data() == g.segs[k]
    ensures k == |g.list| ==> g.segs[..k] == g.segs
  {
    if k < |g.list| {
      ChunkFacts(b, g, k);
      OneMoreFreed(b.heap, g.list, g.segs, k0, k);
    }
  }

  /** Where last_with_datap goes: if the slot it pointed to was freed, to one of the
      first two slots. */
  method SlotAfterPull(b: Evbuf, ghost g: Shape, addr: Ptr, ghost k0: nat, ghost k: nat,
                       lostData: bool, lostSlot: bool, secondHasData: bool)
    returns (s: Ptr)
    requires Valid(b, g) && k0 <= k <= |g.list| && 0 < k
    requires k0 == 0 || (k0 == 1 && addr == g.list[0])
    requires (lostData <==> 0 < g.lwd < k) && (lostSlot <==> k0 < g.lwd <= k)
    ensures k != g.lwd || secondHasData || !lostSlot ==>
              s == SlotOf([addr] + g.list[k..], if k <= g.lwd then g.lwd - k + 1 else 0)
  {
    s := b.slot;
    if lostData {
      s := NULL;
    } else if lostSlot {
      s := if secondHasData then addr else NULL;
    }
  }

  lemma MoreThanOne(b: Evbuf, g: Shape, want: nat)
    requires Valid(b, g) && g.list != [] && |g.segs[0]| < want <= |Content(g)|
    ensures 1 < |g.list| && Flat(g.segs[..0]) == [] && Flat(g.segs[..1]) == g.segs[0]
    ensures g.list[0] !in g.list[1..] && b.first == g.list[0]
  {
    FlatTakeMore(g.segs, 0);
    NoSegs(g.segs);
    assert g.segs[..|g.segs|] == g.segs;
    OneIndex(b.heap, g.list, g.segs, 0);
  }

  lemma NotInList(b: Evbuf, g: Shape, p: Ptr)
    requires Valid(b, g) && p !in b.heap
    ensures p !in g.list && (b.slot == NULL <==> g.lwd == 0)
  {
    forall i | 0 <= i < |g.list| ensures g.list[i] in b.heap && g.list[i] != NULL {
      ChunkFacts(b, g, i);
    }
  }

  /** evbuffer_pullup when the first chunk does not have enough */
  method PullMore(b: Evbuf, ghost g: Shape, want: nat, p: Ptr) returns (b': Evbuf, ghost g': Shape)
    requires Valid(b, g) && p != NULL && p !in b.heap
    requires g.list != [] && |g.segs[0]| < want <= b.totalLen
    ensures Valid(b', g') && Content(g') == Content(g)
    ensures (Layout(g) ==> Layout(g')) && (Tight(g) ==> Tight(g'))
    ensures g'.segs != [] && want <= |g'.segs[0]|
    ensures b'.heap.Keys <= b.heap.Keys + {p}
    ensures b'.freezeStart == b.freezeStart && b'.freezeEnd == b.freezeEnd
  {
    hide Flat, ListOf, LayoutOf, Freed;
    MoreThanOne(b, g, want);
    var c := FirstChunk(b, g);
    var h, tmp, chain, left, lostData, lostSlot;
    ghost var k;
    if want <= |c.mem| - c.misalign {
      // already have enough space in the first chain
      h, tmp, chain, left, lostData, lostSlot, k := PullWhole(b, g, c, 1, c.next, want, LastWithData(b, g));
      b', g' := FinishPull(b, g, h, tmp, b.first, 1, k, chain, left, lostData, lostSlot);
    } else {
      var tmp0 := ChainNew(want);
      // *buf->last_with_datap, while buf->first is already the new chunk
      var last := if b.slot == NULL then p else LastWithData(b, g);
      NotInList(b, g, p);
      h, tmp, chain, left, lostData, lostSlot, k := PullWhole(b, g, tmp0, 0, b.first, want, last);
      b', g' := FinishPull(b, g, h, tmp, p, 0, k, chain, left, lostData, lostSlot);
    }
  }

  /** evbuffer_pullup.  On success the first want bytes lie in the first chunk, and
      nothing has changed for a reader; a negative size asks for all bytes. */
  method Pullup(b: Evbuf, ghost g: Shape, size: int, p: Ptr)
    returns (ok: bool, b': Evbuf, ghost g': Shape)
    requires Valid(b, g) && p != NULL && p !in b.heap
    ensures var want := if size < 0 then |Content(g)| else size;
            && (ok <==> 0 < want <= |Content(g)|)
            && (!ok ==> b' == b && g' == g)
            && (ok ==> g'.segs != [] && want <= |g'.segs[0]|)
    ensures Valid(b', g') && Content(g') == Content(g)
    ensures (Layout(g) ==> Layout(g')) && (Tight(g) ==> Tight(g'))
    ensures b'.heap.Keys <= b.heap.Keys + {p}
    ensures b'.freezeStart == b.freezeStart && b'.freezeEnd == b.freezeEnd
  {
    hide Flat, ListOf, LayoutOf, Freed;
    b', g' := b, g;
    var want := if size < 0 then b.totalLen else size;
    ok := want != 0 && want <= b.totalLen;
    if !ok {
      return;
    }
    FirstOfContent(b, g);
    var c := FirstChunk(b, g);
    if want <= c.off {
      return;
    }
    b', g' := PullMore(b, g, want, p);
  }
}
