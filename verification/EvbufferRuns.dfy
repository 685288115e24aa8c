/** struct evbuffer as an object that its operations update, and programs that use
    any number of such objects: to their users they are byte strings. */
module EvbufferRuns {
  import opened Bytes
  import opened Chunks
  import opened EvbufferCore
  import opened EvbufferMove
  import opened EvbufferTransfer
  import opened EvbufferReserve
  import opened EvbufferCommit
  import Pull = EvbufferPullup

  // ----- what an evbuffer is for

  datatype Queue = Queue(bytes: seq<byte>, frozenStart: bool, frozenEnd: bool)

  datatype Reply = Refused | Accepted(bytes: seq<byte>)

  datatype Op =
    | Append(i: nat, data: seq<byte>)
    | Prepend(i: nat, data: seq<byte>)
    | Drain(i: nat, n: nat)
    | Remove(i: nat, n: nat)
    | Pullup(i: nat, size: int)
    | AppendBuffer(i: nat, from: nat)
    | PrependBuffer(i: nat, from: nat)
    | RemoveBuffer(i: nat, into: nat, n: nat)
    | Freeze(i: nat, start: bool, on: bool)
  {
    predicate Within(n: nat) {
      && i < n
      && match this
         case AppendBuffer(_, from) => from < n
         case PrependBuffer(_, from) => from < n
         case RemoveBuffer(_, into, _) => into < n
         case _ => true
    }

    predicate OnTwo() {
      AppendBuffer? || PrependBuffer? || RemoveBuffer?
    }

    function Other(): nat
      requires OnTwo()
    {
      if RemoveBuffer? then into else from
    }
  }

  function Appended(q: Queue, data: seq<byte>): (Queue, Reply) {
    if q.frozenEnd then (q, Refused) else (q.(bytes := q.bytes + data), Accepted([]))
  }

  function Prepended(q: Queue, data: seq<byte>): (Queue, Reply) {
    if q.frozenStart then (q, Refused) else (q.(bytes := data + q.bytes), Accepted([]))
  }

  function Drained(q: Queue, n: nat): (Queue, Reply) {
    if q.frozenStart && q.bytes != [] then (q, Refused)
    else (q.(bytes := q.bytes[Min(n, |q.bytes|)..]), Accepted([]))
  }

  function Removed(q: Queue, n: nat): (Queue, Reply) {
    var m := Min(n, |q.bytes|);
    if q.frozenStart && m != 0 then (q, Refused)
    else (q.(bytes := q.bytes[m..]), Accepted(q.bytes[..m]))
  }

  function PulledUp(q: Queue, size: int): (Queue, Reply) {
    var want := if size < 0 then |q.bytes| else size;
    (q, if 0 < want <= |q.bytes| then Accepted(q.bytes[..want]) else Refused)
  }

  function FrozenAt(q: Queue, start: bool, on: bool): (Queue, Reply) {
    (if start then q.(frozenStart := on) else q.(frozenEnd := on), Accepted([]))
  }

  /** At most the first n bytes of q go behind those of p; first p, then q. */
  function Moved(p: Queue, q: Queue, n: nat): (Queue, Queue, Reply) {
    if p.frozenEnd || q.frozenStart then (p, q, Refused)
    else
      var m := Min(n, |q.bytes|);
      (p.(bytes := p.bytes + q.bytes[..m]), q.(bytes := q.bytes[m..]), Accepted([]))
  }

  function Joined(p: Queue, q: Queue): (Queue, Queue, Reply) {
    if q.bytes == [] then (p, q, Accepted([])) else Moved(p, q, |q.bytes|)
  }

  function JoinedInFront(p: Queue, q: Queue): (Queue, Queue, Reply) {
    if q.bytes == [] then (p, q, Accepted([]))
    else if p.frozenStart || q.frozenStart then (p, q, Refused)
    else (p.(bytes := q.bytes + p.bytes), q.(bytes := []), Accepted([]))
  }

  // ----- struct evbuffer

  /** The state of an evbuffer, and what it stands for */
  datatype Snap = Snap(state: Evbuf, shape: Shape) {
    ghost predicate Valid() {
      EvbufferCore.Valid(state, shape)
    }

    /** The documented layout, with no empty chunk at the end */
    ghost predicate Snug() {
      Layout(shape) && Tight(shape)
    }

    ghost function View(): Queue {
      Queue(Content(shape), state.freezeStart, state.freezeEnd)
    }
  }

  class Evbuffer {
    var state: Evbuf
    ghost var shape: Shape

    ghost function Now(): Snap
      reads this
    {
      Snap(state, shape)
    }

    /** evbuffer_new */
    constructor ()
      ensures Now().Valid() && Now().Snug() && Now().View() == Queue([], false, false) && state.heap == map[]
    {
      state := Evbuf(map[], NULL, NULL, NULL, 0, false, false);
      shape := NoShape;
    }

    /** evbuffer_add; ok says that no assertion failed. */
    method Add(data: seq<byte>, p: Ptr) returns (ok: bool, r: Reply)
      requires Now().Valid() && p != NULL && p !in state.heap
      modifies this
      ensures ok <==> old(state.freezeEnd || !AddTrips(state, shape, data))
      ensures ok ==> Now().Valid() && (Now().View(), r) == Appended(old(Now().View()), data)
      ensures old(Now().Snug()) ==> ok && Now().Snug()
      ensures state.heap.Keys <= old(state.heap.Keys) + {p}
    {
      if Now().Snug() { NoTripWhenTight(state, shape, data); }
      var o;
      o, state, shape := EvbufferCore.Add(state, shape, data, p);
      ok := o != AssertFailed;
      r := if o == Outcome.Frozen then Refused else Accepted([]);
    }

    /** evbuffer_prepend */
    method PrependBytes(data: seq<byte>, p: Ptr) returns (r: Reply)
      requires Now().Valid() && p != NULL && p !in state.heap
      modifies this
      ensures Now().Valid() && (old(Now().Snug()) ==> Now().Snug())
      ensures (Now().View(), r) == Prepended(old(Now().View()), data)
      ensures state.heap.Keys <= old(state.heap.Keys) + {p}
    {
      var o;
      o, state, shape := EvbufferMove.Prepend(state, shape, data, p);
      r := if o == Outcome.Frozen then Refused else Accepted([]);
    }

    /** evbuffer_drain */
    method DrainBytes(n: nat) returns (r: Reply)
      requires Now().Valid()
      modifies this
      ensures Now().Valid() && (old(Now().Snug()) ==> Now().Snug())
      ensures (Now().View(), r) == Drained(old(Now().View()), n)
      ensures state.heap.Keys <= old(state.heap.Keys)
    {
      var o;
      o, state, shape := EvbufferMove.Drain(state, shape, n);
      r := if o == Outcome.Frozen then Refused else Accepted([]);
    }

    /** evbuffer_remove */
    method RemoveBytes(n: nat) returns (r: Reply)
      requires Now().Valid()
      modifies this
      ensures Now().Valid() && (old(Now().Snug()) ==> Now().Snug())
      ensures (Now().View(), r) == Removed(old(Now().View()), n)
      ensures state.heap.Keys <= old(state.heap.Keys)
    {
      var o, data;
      ghost var was := Content(shape);
      o, data, state, shape := EvbufferMove.Remove(state, shape, n);
      r := if o == Outcome.Frozen then Refused else Accepted(data);
      assert o == Done ==> data == was[..|data|] && Content(shape) == was[|data|..];
    }

    /** evbuffer_pullup, and a look at the bytes it made contiguous */
    method PullupBytes(size: int, p: Ptr) returns (r: Reply)
      requires Now().Valid() && p != NULL && p !in state.heap
      modifies this
      ensures Now().Valid() && (old(Now().Snug()) ==> Now().Snug())
      ensures (Now().View(), r) == PulledUp(old(Now().View()), size)
      ensures state.heap.Keys <= old(state.heap.Keys) + {p}
    {
      var ok;
      var want := if size < 0 then state.totalLen else size;
      ok, state, shape := Pull.Pullup(state, shape, size, p);
      r := Refused;
      if ok {
        var c := FirstChunk(state, shape);
        assert shape.segs[0] <= Content(shape);
        r := Accepted(c.Data()[..want]);
        assert c.Data()[..want] == Content(shape)[..want];
      }
    }

    /** evbuffer_freeze and evbuffer_unfreeze */
    method SetFrozen(start: bool, on: bool) returns (r: Reply)
      requires Now().Valid()
      modifies this
      ensures Now().Valid() && (old(Now().Snug()) ==> Now().Snug())
      ensures (Now().View(), r) == FrozenAt(old(Now().View()), start, on)
      ensures state.heap.Keys == old(state.heap.Keys)
    {
      state := if start then state.(freezeStart := on) else state.(freezeEnd := on);
      r := Accepted([]);
    }

    /** evbuffer_reserve_space with at most n vectors, copying data into them, and
        evbuffer_commit_space */
    method FillReserved(data: seq<byte>, n: nat, p: Ptr) returns (ok: bool, r: Reply)
      requires Now().Valid() && p != NULL && p !in state.heap
      modifies this
      ensures ok <==> !FillTrips(old(Now()), data, n)
      ensures ok ==> Now().Valid() && FillOk(old(Now()), data, n, Now(), r)
      ensures state.heap.Keys <= old(state.heap.Keys) + {p}
    {
      var done;
      ok, done, state, shape := FillSpace(state, shape, data, n, p);
      r := if done then Accepted([]) else Refused;
    }

    /** evbuffer_add_buffer */
    method AddBuffer(src: Evbuffer) returns (r: Reply)
      requires Now().Valid() && src.Now().Valid() && (src != this ==> state.heap.Keys !! src.state.heap.Keys)
      modifies this, src
      ensures Now().Valid() && src.Now().Valid() && (src != this ==> state.heap.Keys !! src.state.heap.Keys)
      ensures state.heap.Keys + src.state.heap.Keys <= old(state.heap.Keys + src.state.heap.Keys)
      ensures old(Now().Snug() && src.Now().Snug()) ==> Now().Snug() && src.Now().Snug()
      ensures src == this ==> Now() == old(Now()) && r == Accepted([])
      ensures src != this ==> (Now().View(), src.Now().View(), r) == Joined(old(Now().View()), old(src.Now().View()))
    {
      if src.state.totalLen == 0 || src == this {
        return Accepted([]);
      }
      ghost var was := Content(src.shape);
      var o;
      o, state, shape, src.state, src.shape := EvbufferTransfer.AddBuffer(state, shape, src.state, src.shape);
      r := if o == Outcome.Frozen then Refused else Accepted([]);
      assert was[..|was|] == was && was[|was|..] == [];
    }

    /** evbuffer_prepend_buffer */
    method PrependBufferOf(src: Evbuffer) returns (r: Reply)
      requires Now().Valid() && src.Now().Valid() && (src != this ==> state.heap.Keys !! src.state.heap.Keys)
      modifies this, src
      ensures Now().Valid() && src.Now().Valid() && (src != this ==> state.heap.Keys !! src.state.heap.Keys)
      ensures state.heap.Keys + src.state.heap.Keys <= old(state.heap.Keys + src.state.heap.Keys)
      ensures old(Now().Snug() && src.Now().Snug()) ==> Now().Snug() && src.Now().Snug()
      ensures src == this ==> Now() == old(Now()) && r == Accepted([])
      ensures src != this ==>
                (Now().View(), src.Now().View(), r) == JoinedInFront(old(Now().View()), old(src.Now().View()))
    {
      if src.state.totalLen == 0 || src == this {
        return Accepted([]);
      }
      var o;
      o, state, shape, src.state, src.shape := EvbufferTransfer.PrependBuffer(state, shape, src.state, src.shape);
      r := if o == Outcome.Frozen then Refused else Accepted([]);
    }

    /** evbuffer_remove_buffer */
    method RemoveBufferTo(dst: Evbuffer, n: nat, p: Ptr) returns (ok: bool, r: Reply)
      requires Now().Valid() && dst.Now().Valid() && (dst != this ==> state.heap.Keys !! dst.state.heap.Keys)
      requires p != NULL && p !in state.heap && p !in dst.state.heap
      modifies this, dst
      ensures ok <==> dst == this || !MoveTrips(old(Now()), old(dst.Now()), n)
      ensures dst != this ==> state.heap.Keys !! dst.state.heap.Keys
      ensures state.heap.Keys + dst.state.heap.Keys <= old(state.heap.Keys + dst.state.heap.Keys) + {p}
      ensures ok ==> Now().Valid() && dst.Now().Valid()
      ensures old(Now().Snug() && dst.Now().Snug()) ==> ok && Now().Snug() && dst.Now().Snug()
      ensures dst == this || n == 0 ==> Now() == old(Now()) && dst.Now() == old(dst.Now()) && r == Accepted([])
      ensures ok && dst != this && n != 0 ==>
                (dst.Now().View(), Now().View(), r) == Moved(old(dst.Now().View()), old(Now().View()), n)
    {
      ok := true;
      if n == 0 || dst == this {
        r := Accepted([]);
        return;
      }
      if Now().Snug() && dst.Now().Snug() {
        SnugMoves(Now(), dst.Now(), n);
      }
      var o;
      o, state, shape, dst.state, dst.shape := EvbufferTransfer.RemoveBuffer(state, shape, dst.state, dst.shape, n, p);
      ok := o != AssertFailed;
      r := if o == Outcome.Frozen then Refused else Accepted([]);
    }
  }

  // ----- when an assertion fails, and what filling reserved space does

  ghost predicate FillTrips(s: Snap, data: seq<byte>, n: nat)
    requires s.Valid()
  {
    !s.state.freezeEnd && n != 0 && ReserveTrips(s.state, s.shape, |data|, n)
  }

  /** Refused without a change, or appended; with data behind the slot, put somewhere. */
  ghost predicate FillOk(s: Snap, data: seq<byte>, n: nat, s': Snap, r: Reply)
    requires s.Valid()
  {
    if FillRefused(s.state, s.shape, data, n) then r == Refused && s'.View() == s.View()
    else
      && r == Accepted([])
      && s'.state.freezeStart == s.state.freezeStart && s'.state.freezeEnd == s.state.freezeEnd
      && |s'.View().bytes| == |s.View().bytes| + |data|
      && (!DataBehind(s.shape) ==> s'.View() == Appended(s.View(), data).0)
  }

  ghost predicate MoveTrips(src: Snap, dst: Snap, n: nat)
    requires src.Valid() && dst.Valid()
  {
    && n != 0 && !dst.state.freezeEnd && !src.state.freezeStart
    && RemoveTrips(src.state, src.shape, dst.state, dst.shape, n)
  }

  lemma SnugMoves(src: Snap, dst: Snap, n: nat)
    requires src.Valid() && dst.Valid() && src.Snug() && dst.Snug()
    ensures !RemoveTrips(src.state, src.shape, dst.state, dst.shape, n)
    ensures RemoveKeepsLayout(src.shape, dst.state, dst.shape, n)
  {
    if src.shape.segs != [] && n < |src.shape.segs[0]| {
      NoTripWhenTight(dst.state, dst.shape, src.shape.segs[0][..n]);
    }
    RemoveTripsInLayout(src.state, src.shape, dst.state, dst.shape, n);
  }

  // ----- programs

  /** What an operation on one evbuffer does to its byte string */
  function OneStep(q: Queue, op: Op): (Queue, Reply)
    requires !op.OnTwo()
  {
    match op
    case Append(_, data) => Appended(q, data)
    case Prepend(_, data) => Prepended(q, data)
    case Drain(_, n) => Drained(q, n)
    case Remove(_, n) => Removed(q, n)
    case Pullup(_, size) => PulledUp(q, size)
    case Freeze(_, start, on) => FrozenAt(q, start, on)
  }

  /** What an operation on two different evbuffers does to their byte strings */
  function TwoStep(q: Queue, q2: Queue, op: Op): (Queue, Queue, Reply)
    requires op.OnTwo()
  {
    match op
    case AppendBuffer(_, _) => Joined(q, q2)
    case PrependBuffer(_, _) => JoinedInFront(q, q2)
    case RemoveBuffer(_, _, n) =>
      if n == 0 then (q, q2, Accepted([]))
      else var (p2, p, r) := Moved(q2, q, n); (p, p2, r)
  }

  /** What an operation does to the byte strings, and what it gives back */
  function Step(qs: seq<Queue>, op: Op): (r: (seq<Queue>, Reply))
    requires op.Within(|qs|)
    ensures |r.0| == |qs|
  {
    if !op.OnTwo() then
      var (q, r) := OneStep(qs[op.i], op);
      (qs[op.i := q], r)
    else if op.i == op.Other() then (qs, Accepted([]))
    else
      var (q, q2, r) := TwoStep(qs[op.i], qs[op.Other()], op);
      (qs[op.i := q][op.Other() := q2], r)
  }

  /** What a program does: an operation, or filling reserved space */
  datatype Action = Basic(op: Op) | Fill(i: nat, data: seq<byte>, n: nat) {
    predicate Within(n: nat) {
      if Basic? then op.Within(n) else i < n
    }
  }

  ghost function Views(ss: seq<Snap>): (qs: seq<Queue>)
    ensures |qs| == |ss| && forall i | 0 <= i < |ss| :: qs[i] == ss[i].View()
  {
    seq(|ss|, i requires 0 <= i < |ss| => ss[i].View())
  }

  ghost predicate AllValid(ss: seq<Snap>) {
    forall i | 0 <= i < |ss| :: ss[i].Valid()
  }

  ghost predicate AllSnug(ss: seq<Snap>) {
    forall i | 0 <= i < |ss| :: ss[i].Snug()
  }

  /** An assertion fails in the action. */
  ghost predicate Trips(ss: seq<Snap>, a: Action)
    requires AllValid(ss) && a.Within(|ss|)
  {
    match a
    case Fill(i, data, n) => FillTrips(ss[i], data, n)
    case Basic(Append(i, data)) => !ss[i].state.freezeEnd && AddTrips(ss[i].state, ss[i].shape, data)
    case Basic(RemoveBuffer(i, into, n)) => i != into && MoveTrips(ss[i], ss[into], n)
    case _ => false
  }

  /** The action has done what it is for. */
  ghost predicate StepOk(ss: seq<Snap>, a: Action, ss': seq<Snap>, r: Reply)
    requires AllValid(ss) && a.Within(|ss|)
  {
    && |ss'| == |ss| && AllValid(ss')
    && match a
       case Basic(op) => Views(ss') == Step(Views(ss), op).0 && r == Step(Views(ss), op).1
       case Fill(i, data, n) => FillOk(ss[i], data, n, ss'[i], r) && ss' == ss[i := ss'[i]]
  }

  /** Different evbuffers, each of which owns its chunks */
  ghost predicate Pool(bufs: seq<Evbuffer>)
    reads bufs
  {
    && (forall i, j | 0 <= i < j < |bufs| :: bufs[i] != bufs[j])
    && AllValid(Snaps(bufs)) && Disjoint(Owned(bufs))
  }

  ghost function Snaps(bufs: seq<Evbuffer>): (ss: seq<Snap>)
    reads bufs
    ensures |ss| == |bufs| && forall i | 0 <= i < |bufs| :: ss[i] == bufs[i].Now()
  {
    seq(|bufs|, i requires 0 <= i < |bufs| reads bufs => bufs[i].Now())
  }

  ghost predicate Disjoint(cs: seq<set<Ptr>>) {
    forall i, j | 0 <= i < |cs| && 0 <= j < |cs| && i != j :: cs[i] !! cs[j]
  }

  /** The chunks of each evbuffer */
  function Owned(bufs: seq<Evbuffer>): (cs: seq<set<Ptr>>)
    reads bufs
    ensures |cs| == |bufs| && forall i | 0 <= i < |bufs| :: cs[i] == bufs[i].state.heap.Keys
  {
    seq(|bufs|, i requires 0 <= i < |bufs| reads bufs => bufs[i].state.heap.Keys)
  }

  /** Only two of the owners have changed what they own, and all they took is p. */
  lemma StillDisjoint(cs: seq<set<Ptr>>, i: nat, j: nat, p: Ptr, cs': seq<set<Ptr>>)
    requires Disjoint(cs) && i < |cs| && j < |cs| == |cs'| && forall k | 0 <= k < |cs| :: p !in cs[k]
    requires cs'[i] + cs'[j] <= cs[i] + cs[j] + {p} && (i != j ==> cs'[i] !! cs'[j])
    requires forall k | 0 <= k < |cs| && k != i && k != j :: cs'[k] == cs[k]
    ensures Disjoint(cs')
  {
    forall k, l | 0 <= k < |cs'| && 0 <= l < |cs'| && k != l
      ensures cs'[k] !! cs'[l]
    {
      if k != i && k != j {
        assert cs[k] !! cs[i] && cs[k] !! cs[j] && cs[k] !! cs[l];
      } else if l != i && l != j {
        assert cs[l] !! cs[i] && cs[l] !! cs[j];
      }
    }
  }

  ghost function Bound(s: set<Ptr>): (m: Ptr)
    ensures m != NULL && forall x | x in s :: x < m
  {
    if s == {} then 1
    else
      var x :| x in s;
      var m := Bound(s - {x});
      assert forall y | y in s :: y == x || y in s - {x};
      if x < m then m else x + 1
  }

  /** malloc: any address that is not in use */
  method Allocate(cs: seq<set<Ptr>>) returns (p: Ptr)
    ensures p != NULL && forall i | 0 <= i < |cs| :: p !in cs[i]
  {
    var used := set i, q | 0 <= i < |cs| && q in cs[i] :: q;
    ghost var m := Bound(used);
    assert m != NULL && m !in used;
    p :| p != NULL && p !in used;
  }

  /** The same for one evbuffer */
  ghost predicate OneTrips(s: Snap, a: Action)
    requires s.Valid() && (a.Basic? ==> !a.op.OnTwo())
  {
    match a
    case Fill(_, data, n) => FillTrips(s, data, n)
    case Basic(Append(_, data)) => !s.state.freezeEnd && AddTrips(s.state, s.shape, data)
    case _ => false
  }

  ghost predicate OneOk(s: Snap, a: Action, s': Snap, r: Reply)
    requires s.Valid() && (a.Basic? ==> !a.op.OnTwo())
  {
    match a
    case Fill(_, data, n) => FillOk(s, data, n, s', r)
    case Basic(op) => (s'.View(), r) == OneStep(s.View(), op)
  }

  method ApplyOne(b: Evbuffer, a: Action, p: Ptr) returns (ok: bool, r: Reply)
    requires b.Now().Valid() && p != NULL && p !in b.state.heap && (a.Basic? ==> !a.op.OnTwo())
    modifies b
    ensures ok <==> !OneTrips(old(b.Now()), a)
    ensures ok ==> b.Now().Valid() && OneOk(old(b.Now()), a, b.Now(), r)
    ensures a.Basic? && old(b.Now().Snug()) ==> ok && b.Now().Snug()
    ensures b.state.heap.Keys <= old(b.state.heap.Keys) + {p}
  {
    hide Snap.Valid, Snap.View, Snap.Snug, FillTrips, FillOk;
    hide Appended, Prepended, Drained, Removed, PulledUp, FrozenAt;
    ok := true;
    match a
    case Fill(_, data, n) => ok, r := b.FillReserved(data, n, p);
    case Basic(Append(_, data)) => ok, r := b.Add(data, p);
    case Basic(Prepend(_, data)) => r := b.PrependBytes(data, p);
    case Basic(Drain(_, n)) => r := b.DrainBytes(n);
    case Basic(Remove(_, n)) => r := b.RemoveBytes(n);
    case Basic(Pullup(_, size)) => r := b.PullupBytes(size, p);
    case Basic(Freeze(_, start, on)) => r := b.SetFrozen(start, on);
  }

  /** An action on one evbuffer */
  method ExecuteOne(bufs: seq<Evbuffer>, a: Action) returns (ok: bool, r: Reply)
    requires Pool(bufs) && a.Within(|bufs|) && (a.Basic? ==> !a.op.OnTwo())
    modifies bufs
    ensures ok <==> !Trips(old(Snaps(bufs)), a)
    ensures ok ==> Pool(bufs) && StepOk(old(Snaps(bufs)), a, Snaps(bufs), r)
    ensures a.Basic? && old(AllSnug(Snaps(bufs))) ==> ok && AllSnug(Snaps(bufs))
  {
    hide Snap.Valid, Snap.View, Snap.Snug, OneTrips, OneOk, Disjoint, Trips, StepOk;
    ghost var ss := Snaps(bufs);
    var i, cs := if a.Basic? then a.op.i else a.i, Owned(bufs);
    var p := Allocate(cs);
    assert cs[i] == bufs[i].state.heap.Keys;
    ok, r := ApplyOne(bufs[i], a, p);
    StillDisjoint(cs, i, i, p, Owned(bufs));
    assert Snaps(bufs) == ss[i := bufs[i].Now()];
    OneIsStep(ss, a, i, bufs[i].Now(), r);
  }

  lemma OneIsStep(ss: seq<Snap>, a: Action, i: nat, s': Snap, r: Reply)
    requires AllValid(ss) && a.Within(|ss|) && (a.Basic? ==> !a.op.OnTwo()) && i == if a.Basic? then a.op.i else a.i
    ensures Trips(ss, a) <==> OneTrips(ss[i], a)
    ensures s'.Valid() && OneOk(ss[i], a, s', r) ==> StepOk(ss, a, ss[i := s'], r)
  {
    hide Snap.Valid, Snap.View, FillTrips, FillOk, OneStep;
    assert Views(ss[i := s']) == Views(ss)[i := s'.View()];
  }

  ghost predicate TwoTrips(s: Snap, t: Snap, op: Op)
    requires s.Valid() && t.Valid()
  {
    op.RemoveBuffer? && MoveTrips(s, t, op.n)
  }

  method ApplyTwo(b: Evbuffer, c: Evbuffer, op: Op, p: Ptr) returns (ok: bool, r: Reply)
    requires b.Now().Valid() && c.Now().Valid() && (c != b ==> b.state.heap.Keys !! c.state.heap.Keys)
    requires p != NULL && p !in b.state.heap && p !in c.state.heap && op.OnTwo()
    modifies b, c
    ensures ok <==> c == b || !TwoTrips(old(b.Now()), old(c.Now()), op)
    ensures c != b ==> b.state.heap.Keys !! c.state.heap.Keys
    ensures b.state.heap.Keys + c.state.heap.Keys <= old(b.state.heap.Keys + c.state.heap.Keys) + {p}
    ensures ok ==> b.Now().Valid() && c.Now().Valid()
    ensures old(b.Now().Snug() && c.Now().Snug()) ==> ok && b.Now().Snug() && c.Now().Snug()
    ensures c == b ==> b.Now() == old(b.Now()) && r == Accepted([])
    ensures ok && c != b ==>
              (b.Now().View(), c.Now().View(), r) == TwoStep(old(b.Now().View()), old(c.Now().View()), op)
  {
    hide Snap.Valid, Snap.View, Snap.Snug, MoveTrips, Moved, Joined, JoinedInFront;
    ok := true;
    match op
    case AppendBuffer(_, _) => r := b.AddBuffer(c);
    case PrependBuffer(_, _) => r := b.PrependBufferOf(c);
    case RemoveBuffer(_, _, n) => ok, r := b.RemoveBufferTo(c, n, p);
  }

  lemma TwoOfPool(bufs: seq<Evbuffer>, i: nat, j: nat)
    requires Pool(bufs) && i < |bufs| && j < |bufs|
    ensures bufs[i] == bufs[j] <==> i == j
    ensures i != j ==> bufs[i].state.heap.Keys !! bufs[j].state.heap.Keys
  {
    assert Owned(bufs)[i] == bufs[i].state.heap.Keys && Owned(bufs)[j] == bufs[j].state.heap.Keys;
  }

  /** An operation on two evbuffers, which may be the same */
  method ExecuteTwo(bufs: seq<Evbuffer>, a: Action) returns (ok: bool, r: Reply)
    requires Pool(bufs) && a.Within(|bufs|) && a.Basic? && a.op.OnTwo()
    modifies bufs
    ensures ok <==> !Trips(old(Snaps(bufs)), a)
    ensures ok ==> Pool(bufs) && StepOk(old(Snaps(bufs)), a, Snaps(bufs), r)
    ensures old(AllSnug(Snaps(bufs))) ==> ok && AllSnug(Snaps(bufs))
  {
    hide Snap.Valid, Snap.View, Snap.Snug, TwoStep, TwoTrips, Disjoint, Trips, StepOk, AllSnug, AllValid;
    ghost var ss := Snaps(bufs);
    var i, j, cs := a.op.i, a.op.Other(), Owned(bufs);
    var p := Allocate(cs);
    assert cs[i] == bufs[i].state.heap.Keys && cs[j] == bufs[j].state.heap.Keys;
    TwoOfPool(bufs, i, j);
    TwoOf(ss, i, j, ss[i], ss[j]);
    ok, r := ApplyTwo(bufs[i], bufs[j], a.op, p);
    StillDisjoint(cs, i, j, p, Owned(bufs));
    assert Snaps(bufs) == ss[i := bufs[i].Now()][j := bufs[j].Now()];
    TwoOf(ss, i, j, bufs[i].Now(), bufs[j].Now());
    TwoIsStep(ss, a, i, j, bufs[i].Now(), bufs[j].Now(), r);
  }

  lemma TwoOf(ss: seq<Snap>, i: nat, j: nat, s': Snap, t': Snap)
    requires i < |ss| && j < |ss|
    ensures AllValid(ss) ==> ss[i].Valid() && ss[j].Valid()
    ensures AllSnug(ss) ==> ss[i].Snug() && ss[j].Snug()
    ensures AllValid(ss) && s'.Valid() && t'.Valid() ==> AllValid(ss[i := s'][j := t'])
    ensures AllSnug(ss) && s'.Snug() && t'.Snug() ==> AllSnug(ss[i := s'][j := t'])
  {
    hide Snap.Valid, Snap.Snug;
  }

  lemma TwoIsStep(ss: seq<Snap>, a: Action, i: nat, j: nat, s': Snap, t': Snap, r: Reply)
    requires AllValid(ss) && a.Within(|ss|) && a.Basic? && a.op.OnTwo() && i == a.op.i && j == a.op.Other()
    ensures Trips(ss, a) <==> i != j && TwoTrips(ss[i], ss[j], a.op)
    ensures i == j && s' == t' == ss[i] && r == Accepted([]) ==> StepOk(ss, a, ss[i := s'][j := t'], r)
    ensures i != j && s'.Valid() && t'.Valid() && (s'.View(), t'.View(), r) == TwoStep(ss[i].View(), ss[j].View(),
            a.op) ==>
              StepOk(ss, a, ss[i := s'][j := t'], r)
  {
    hide Snap.Valid, Snap.View, TwoStep, MoveTrips;
    assert Views(ss[i := s'][j := t']) == Views(ss)[i := s'.View()][j := t'.View()];
    assert i == j && s' == ss[i] ==> ss[i := s'] == ss && Views(ss)[i := s'.View()] == Views(ss);
  }

  /** n empty byte strings */
  function Empties(n: nat): (qs: seq<Queue>)
    ensures |qs| == n && forall i | 0 <= i < n :: qs[i] == Queue([], false, false)
  {
    seq(n, i => Queue([], false, false))
  }

  lemma OneMore(cs: seq<set<Ptr>>)
    requires Disjoint(cs)
    ensures Disjoint(cs + [{}])
  {}

  method Grow(bufs: seq<Evbuffer>) returns (b: Evbuffer)
    requires Pool(bufs) && AllSnug(Snaps(bufs))
    ensures fresh(b) && Pool(bufs + [b]) && AllSnug(Snaps(bufs + [b]))
    ensures Views(Snaps(bufs + [b])) == Views(Snaps(bufs)) + Empties(1)
  {
    hide Snap.Valid, Snap.View, Snap.Snug, Disjoint;
    ghost var cs, ss := Owned(bufs), Snaps(bufs);
    b := new Evbuffer();
    assert b.state.heap.Keys == {};
    assert Owned(bufs + [b]) == cs + [{}];
    assert Snaps(bufs + [b]) == ss + [b.Now()];
    OneMore(cs);
  }

  method NewPool(n: nat) returns (bufs: seq<Evbuffer>)
    ensures fresh(bufs) && Pool(bufs) && AllSnug(Snaps(bufs)) && Views(Snaps(bufs)) == Empties(n)
  {
    hide Empties;
    bufs := [];
    assert Pool(bufs) && AllSnug(Snaps(bufs)) && Views(Snaps(bufs)) == Empties(0);
    hide Pool, Views, Owned, Snaps, AllSnug;
    while |bufs| < n
      invariant |bufs| <= n && fresh(bufs) && Pool(bufs) && AllSnug(Snaps(bufs))
                && Views(Snaps(bufs)) == Empties(|bufs|)
    {
      var b := Grow(bufs);
      bufs := bufs + [b];
      assert Views(Snaps(bufs)) == Empties(|bufs|);
    }
  }

  /** The byte strings after a program without reserved space, and the replies it got */
  function Steps(qs: seq<Queue>, ops: seq<Op>): (r: (seq<Queue>, seq<Reply>))
    requires forall op | op in ops :: op.Within(|qs|)
    ensures |r.0| == |qs| && |r.1| == |ops|
  {
    if ops == [] then (qs, [])
    else
      var (before, replies) := Steps(qs, ops[..|ops| - 1]);
      var (after, r) := Step(before, ops[|ops| - 1]);
      (after, replies + [r])
  }

  /** Step k of a program, between two of its states */
  ghost predicate Stepped(states: seq<seq<Snap>>, actions: seq<Action>, replies: seq<Reply>, k: nat) {
    && k + 1 < |states| && k < |actions| && k < |replies|
    && AllValid(states[k]) && actions[k].Within(|states[k]|)
    && !Trips(states[k], actions[k]) && StepOk(states[k], actions[k], states[k + 1], replies[k])
  }

  /** Any program on n new evbuffers.  It does each of its actions, through states in which
      every evbuffer is valid and no two share a chunk, until an assertion fails; and that
      is in the first action that trips.  Without reserved space none does, and all
      evbuffers keep their layout. */
  method Run(n: nat, actions: seq<Action>)
    returns (ok: bool, bufs: seq<Evbuffer>, replies: seq<Reply>, ghost states: seq<seq<Snap>>)
    requires forall a | a in actions :: a.Within(n)
    ensures |states| == |replies| + 1 && |replies| <= |actions| && (ok <==> |replies| == |actions|)
    ensures |states[0]| == n && AllValid(states[0]) && Views(states[0]) == Empties(n)
    ensures forall k | 0 <= k < |replies| :: Stepped(states, actions, replies, k)
    ensures var last := states[|replies|];
            |last| == n && AllValid(last) && (!ok ==> Trips(last, actions[|replies|]))
    ensures ok ==> fresh(bufs) && Pool(bufs) && Snaps(bufs) == states[|replies|]
    ensures (forall a | a in actions :: a.Basic?) ==> ok && AllSnug(Snaps(bufs))
  {
    hide Pool, Trips, StepOk, AllSnug, AllValid, Views, Owned, Snaps;
    bufs := NewPool(n);
    replies, states, ok := [], [Snaps(bufs)], true;
    PoolIsValid(bufs);
    for k := 0 to |actions|
      invariant ok && fresh(bufs) && Pool(bufs) && |bufs| == n && |replies| == k && |states| == k + 1
      invariant Snaps(bufs) == states[k] && AllValid(states[k]) && |states[k]| == n
      invariant |states[0]| == n && AllValid(states[0]) && Views(states[0]) == Empties(n)
      invariant forall i | 0 <= i < k :: Stepped(states, actions, replies, i)
      invariant (forall a | a in actions :: a.Basic?) ==> AllSnug(Snaps(bufs))
    {
      var r;
      assert actions[k] in actions;
      if actions[k].Basic? && actions[k].op.OnTwo() {
        ok, r := ExecuteTwo(bufs, actions[k]);
      } else {
        ok, r := ExecuteOne(bufs, actions[k]);
      }
      if !ok {
        return;
      }
      PoolIsValid(bufs);
      ghost var was := states;
      states, replies := states + [Snaps(bufs)], replies + [r];
      Longer(was, actions, replies, k, states);
    }
  }

  lemma PoolIsValid(bufs: seq<Evbuffer>)
    requires Pool(bufs)
    ensures AllValid(Snaps(bufs)) && |Snaps(bufs)| == |bufs|
  {}

  lemma Longer(was: seq<seq<Snap>>, actions: seq<Action>, replies: seq<Reply>, k: nat, states: seq<seq<Snap>>)
    requires |was| == k + 1 && |states| == k + 2 && states[..k + 1] == was && |replies| == k + 1 && k < |actions|
    requires forall i | 0 <= i < k :: Stepped(was, actions, replies[..k], i)
    requires AllValid(was[k]) && actions[k].Within(|was[k]|)
    requires !Trips(was[k], actions[k]) && StepOk(was[k], actions[k], states[k + 1], replies[k])
    ensures forall i | 0 <= i <= k :: Stepped(states, actions, replies, i)
  {
    hide Trips, StepOk, AllValid;
    forall i | 0 <= i < k ensures Stepped(states, actions, replies, i) {
      assert Stepped(was, actions, replies[..k], i);
      assert states[i] == states[..k + 1][i] && states[i + 1] == states[..k + 1][i + 1];
    }
    assert states[k] == states[..k + 1][k];
  }

  /** A program without reserved space gives the replies and contents that byte strings
      give. */
  lemma {:induction false} BasicIsSteps(states: seq<seq<Snap>>, actions: seq<Action>, replies: seq<Reply>, ops: seq<Op>)
    requires |ops| == |actions| == |replies| && |states| == |ops| + 1
    requires forall k | 0 <= k < |ops| :: actions[k] == Basic(ops[k]) && ops[k].Within(|states[0]|)
    requires forall k | 0 <= k < |ops| :: Stepped(states, actions, replies, k)
    ensures forall op | op in ops :: op.Within(|states[0]|)
    ensures (Views(states[|ops|]), replies) == Steps(Views(states[0]), ops)
  {
    if ops != [] {
      var n := |ops| - 1;
      var states0, actions0, replies0 := states[..n + 1], actions[..n], replies[..n];
      forall k | 0 <= k < n ensures Stepped(states0, actions0, replies0, k) {
        assert Stepped(states, actions, replies, k);
      }
      BasicIsSteps(states0, actions0, replies0, ops[..n]);
      assert Stepped(states, actions, replies, n);
      assert replies == replies[..n] + [replies[n]];
    }
  }

  // ----- what follows for programs

  ghost function Count(s: seq<byte>, x: byte): nat {
    multiset(s)[x]
  }

  lemma CountHalves(s: seq<byte>, n: nat, x: byte)
    requires n <= |s|
    ensures Count(s[..n], x) + Count(s[n..], x) == Count(s, x)
  {
    Halves(s, n);
  }

  /** How often x is in all evbuffers together */
  ghost function Held(qs: seq<Queue>, x: byte): nat {
    if qs == [] then 0 else Count(qs[0].bytes, x) + Held(qs[1..], x)
  }

  /** What an operation puts in */
  ghost function PutIn(qs: seq<Queue>, op: Op): seq<byte>
    requires op.Within(|qs|)
  {
    match op
    case Append(i, data) => if qs[i].frozenEnd then [] else data
    case Prepend(i, data) => if qs[i].frozenStart then [] else data
    case _ => []
  }

  /** What an operation takes out */
  ghost function TakenOut(qs: seq<Queue>, op: Op): seq<byte>
    requires op.Within(|qs|)
  {
    match op
    case Drain(i, n) => if qs[i].frozenStart then [] else qs[i].bytes[..Min(n, |qs[i].bytes|)]
    case Remove(i, n) => if qs[i].frozenStart then [] else qs[i].bytes[..Min(n, |qs[i].bytes|)]
    case _ => []
  }

  lemma {:induction false} HeldUpdate(qs: seq<Queue>, i: nat, q: Queue, x: byte)
    requires i < |qs|
    ensures Held(qs[i := q], x) + Count(qs[i].bytes, x) == Held(qs, x) + Count(q.bytes, x)
  {
    hide Count;
    var qs' := qs[i := q];
    if i == 0 {
      assert qs'[1..] == qs[1..];
    } else {
      assert qs'[1..] == qs[1..][i - 1 := q];
      HeldUpdate(qs[1..], i - 1, q, x);
    }
  }

  lemma OneConserves(qs: seq<Queue>, op: Op, x: byte)
    requires op.Within(|qs|) && !op.OnTwo()
    ensures Count(OneStep(qs[op.i], op).0.bytes, x) + Count(TakenOut(qs, op), x) ==
            Count(qs[op.i].bytes, x) + Count(PutIn(qs, op), x)
  {
    CountHalves(qs[op.i].bytes, |TakenOut(qs, op)|, x);
  }

  lemma TwoConserves(q: Queue, q2: Queue, op: Op, x: byte)
    requires op.OnTwo()
    ensures var (p, p2, _) := TwoStep(q, q2, op);
            Count(p.bytes, x) + Count(p2.bytes, x) == Count(q.bytes, x) + Count(q2.bytes, x)
  {
    if op.RemoveBuffer? {
      CountHalves(q.bytes, Min(op.n, |q.bytes|), x);
    } else {
      CountHalves(q2.bytes, |q2.bytes|, x);
    }
  }

  /** No operation loses, invents or doubles a byte. */
  lemma StepConserves(qs: seq<Queue>, op: Op, x: byte)
    requires op.Within(|qs|)
    ensures Held(Step(qs, op).0, x) + Count(TakenOut(qs, op), x) == Held(qs, x) + Count(PutIn(qs, op), x)
  {
    hide OneStep, TwoStep, Held, Count;
    var i := op.i;
    if !op.OnTwo() {
      OneConserves(qs, op, x);
      HeldUpdate(qs, i, OneStep(qs[i], op).0, x);
    } else if i != op.Other() {
      var j := op.Other();
      TwoConserves(qs[i], qs[j], op, x);
      var (q, q2, _) := TwoStep(qs[i], qs[j], op);
      HeldUpdate(qs, i, q, x);
      HeldUpdate(qs[i := q], j, q2, x);
    }
  }

  /** Everything a program puts in, in order */
  ghost function AllPutIn(qs: seq<Queue>, ops: seq<Op>): seq<byte>
    requires forall op | op in ops :: op.Within(|qs|)
  {
    if ops == [] then []
    else
      var before := ops[..|ops| - 1];
      AllPutIn(qs, before) + PutIn(Steps(qs, before).0, ops[|ops| - 1])
  }

  /** Everything a program takes out, in order */
  ghost function AllTakenOut(qs: seq<Queue>, ops: seq<Op>): seq<byte>
    requires forall op | op in ops :: op.Within(|qs|)
  {
    if ops == [] then []
    else
      var before := ops[..|ops| - 1];
      AllTakenOut(qs, before) + TakenOut(Steps(qs, before).0, ops[|ops| - 1])
  }

  lemma CountPlus(s: seq<byte>, t: seq<byte>, x: byte)
    ensures Count(s + t, x) == Count(s, x) + Count(t, x)
  {}

  /** No program loses, invents or doubles a byte. */
  lemma {:induction false} Conserves(qs: seq<Queue>, ops: seq<Op>, x: byte)
    requires forall op | op in ops :: op.Within(|qs|)
    ensures Held(Steps(qs, ops).0, x) + Count(AllTakenOut(qs, ops), x) == Held(qs, x) + Count(AllPutIn(qs, ops), x)
  {
    if ops != [] {
      hide Step, Held, Count, PutIn, TakenOut;
      var before, op := ops[..|ops| - 1], ops[|ops| - 1];
      var mid := Steps(qs, before).0;
      Conserves(qs, before, x);
      StepConserves(mid, op, x);
      CountPlus(AllPutIn(qs, before), PutIn(mid, op), x);
      CountPlus(AllTakenOut(qs, before), TakenOut(mid, op), x);
    }
  }

  // ----- a line of evbuffers

  /** op puts bytes in at the end of the first evbuffer, hands them on to the next
      one, or takes them out of the last. */
  predicate Forward(op: Op, n: nat) {
    match op
    case Append(i, _) => i == 0
    case Drain(i, _) => i == n - 1
    case Remove(i, _) => i == n - 1
    case AppendBuffer(i, from) => i == from + 1
    case RemoveBuffer(i, into, _) => into == i + 1
    case Pullup(_, _) => true
    case Freeze(_, _, _) => true
    case _ => false
  }

  /** The bytes in all evbuffers, those of the last first */
  ghost function Line(qs: seq<Queue>): seq<byte> {
    if qs == [] then [] else Line(qs[1..]) + qs[0].bytes
  }

  lemma {:induction false} LineAt(qs: seq<Queue>, i: nat)
    requires i < |qs|
    ensures Line(qs) == Line(qs[i + 1..]) + qs[i].bytes + Line(qs[..i])
  {
    if i != 0 {
      LineAt(qs[1..], i - 1);
      assert qs[1..][i..] == qs[i + 1..] && qs[1..][..i - 1] == qs[..i][1..];
      Assoc(Line(qs[i + 1..]) + qs[i].bytes, Line(qs[..i][1..]), qs[0].bytes);
    }
  }

  lemma LineAtTwo(qs: seq<Queue>, i: nat)
    requires i + 1 < |qs|
    ensures Line(qs) == Line(qs[i + 2..]) + (qs[i + 1].bytes + qs[i].bytes) + Line(qs[..i])
  {
    LineAt(qs, i);
    assert qs[i + 1..][1..] == qs[i + 2..];
    Assoc(Line(qs[i + 2..]), qs[i + 1].bytes, qs[i].bytes);
  }

  lemma OneInOrder(qs: seq<Queue>, op: Op)
    requires op.Within(|qs|) && !op.OnTwo() && !op.Prepend?
    ensures TakenOut(qs, op) + OneStep(qs[op.i], op).0.bytes == qs[op.i].bytes + PutIn(qs, op)
  {
    Halves(qs[op.i].bytes, |TakenOut(qs, op)|);
  }

  lemma TwoInOrder(q: Queue, q2: Queue, op: Op)
    requires op.OnTwo() && !op.PrependBuffer?
    ensures var (p, p2, _) := TwoStep(q, q2, op);
            if op.RemoveBuffer? then p2.bytes + p.bytes == q2.bytes + q.bytes
            else p.bytes + p2.bytes == q.bytes + q2.bytes
  {
    if op.RemoveBuffer? {
      TakeDrop(q2.bytes, q.bytes, Min(op.n, |q.bytes|));
    } else {
      TakeDrop(q.bytes, q2.bytes, |q2.bytes|);
    }
  }

  lemma LineStep(qs: seq<Queue>, op: Op)
    requires op.Within(|qs|) && Forward(op, |qs|)
    ensures TakenOut(qs, op) + Line(Step(qs, op).0) == Line(qs) + PutIn(qs, op)
  {
    hide Line, Step, OneStep, TwoStep;
    if op.OnTwo() {
      LineStepTwo(qs, op);
      assert [] + Line(qs) == Line(qs) + [];
    } else {
      LineStepOne(qs, op);
    }
  }

  /** Bytes change hands between neighbours. */
  lemma LineKept(qs: seq<Queue>, k: nat, q: Queue, q2: Queue)
    requires k + 1 < |qs| && q2.bytes + q.bytes == qs[k + 1].bytes + qs[k].bytes
    ensures Line(qs[k := q][k + 1 := q2]) == Line(qs)
  {
    hide Line;
    var qs' := qs[k := q][k + 1 := q2];
    LineAtTwo(qs, k);
    LineAtTwo(qs', k);
    assert qs'[k + 2..] == qs[k + 2..] && qs'[..k] == qs[..k];
  }

  lemma LineStepTwo(qs: seq<Queue>, op: Op)
    requires op.Within(|qs|) && Forward(op, |qs|) && op.OnTwo()
    ensures Line(Step(qs, op).0) == Line(qs)
  {
    hide Line, TwoStep;
    var i, j := op.i, op.Other();
    var (q, q2, _) := TwoStep(qs[i], qs[j], op);
    TwoInOrder(qs[i], qs[j], op);
    if op.RemoveBuffer? {
      LineKept(qs, i, q, q2);
    } else {
      assert qs[i := q][j := q2] == qs[j := q2][i := q];
      LineKept(qs, j, q2, q);
    }
  }

  /** Bytes go in only at the front, and come out only at the end. */
  lemma Ends(qs: seq<Queue>, op: Op)
    requires op.Within(|qs|) && Forward(op, |qs|) && !op.OnTwo()
    ensures !op.Prepend?
    ensures TakenOut(qs, op) == [] || Line(qs[op.i + 1..]) == []
    ensures PutIn(qs, op) == [] || Line(qs[..op.i]) == []
  {}

  lemma LineStepOne(qs: seq<Queue>, op: Op)
    requires op.Within(|qs|) && Forward(op, |qs|) && !op.OnTwo()
    ensures TakenOut(qs, op) + Line(Step(qs, op).0) == Line(qs) + PutIn(qs, op)
  {
    hide Line, OneStep, TakenOut, PutIn, Forward;
    var i, q := op.i, OneStep(qs[op.i], op).0;
    Ends(qs, op);
    LineAt(qs, i);
    LineAt(qs[i := q], i);
    OneInOrder(qs, op);
    assert qs[i := q][i + 1..] == qs[i + 1..] && qs[i := q][..i] == qs[..i];
    ThroughTheMiddle(TakenOut(qs, op), Line(qs[i + 1..]), q.bytes, Line(qs[..i]), qs[i].bytes, PutIn(qs, op));
  }

  /** What goes out of the middle goes out of the whole, if nothing precedes it; what
      comes into it comes into the whole, if nothing follows. */
  lemma ThroughTheMiddle(taken: seq<byte>, behind: seq<byte>, now: seq<byte>, front: seq<byte>, was: seq<byte>,
                         put: seq<byte>)
    requires taken + now == was + put && (taken == [] || behind == []) && (put == [] || front == [])
    ensures taken + (behind + now + front) == behind + was + front + put
  {
    assert taken + (behind + now + front) == behind + (taken + now) + front;
    assert behind + was + front + put == behind + (was + put) + front;
  }

  /** Whatever a program does with a line of evbuffers, what it took out and what is
      still inside is what was inside and what it put in, in order. */
  lemma {:induction false} Pipeline(qs: seq<Queue>, ops: seq<Op>)
    requires forall op | op in ops :: op.Within(|qs|) && Forward(op, |qs|)
    ensures AllTakenOut(qs, ops) + Line(Steps(qs, ops).0) == Line(qs) + AllPutIn(qs, ops)
  {
    if ops != [] {
      hide Step, Line, PutIn, TakenOut, Forward;
      var before, op := ops[..|ops| - 1], ops[|ops| - 1];
      var mid := Steps(qs, before).0;
      Pipeline(qs, before);
      LineStep(mid, op);
      Assoc(AllTakenOut(qs, before), TakenOut(mid, op), Line(Steps(qs, ops).0));
      Assoc(AllTakenOut(qs, before), Line(mid), PutIn(mid, op));
      Assoc(Line(qs), AllPutIn(qs, before), PutIn(mid, op));
    } else {
      assert Line(qs) + [] == [] + Line(qs);
    }
  }
}
