/** Two bufferevents that are connected to each other (bufferevent_pair.c): what is
    written to one is read from the other. */
module Pair {
  import opened Bytes

  /** BEV_SUSPEND_WM, and any other reason to suspend reading */
  datatype Reason = WM | OTHER

  datatype FlushMode = NORMAL | FLUSH | FINISHED

  /** struct bufferevent_pair, with its evbuffers as their contents */
  class Endpoint {
    var input: seq<byte>
    var output: seq<byte>
    var inputFrozen: bool      // at the end
    var outputFrozen: bool     // at the start
    var enabledRead: bool
    var enabledWrite: bool
    var suspended: set<Reason> // read_suspended
    var high: nat              // wm_read.high
    var held: nat              // calls that returned without decref_and_unlock
    var partner: Endpoint?
    ghost var written: seq<byte>
    ghost var taken: seq<byte>

    constructor ()
      ensures input == output == written == taken == [] && suspended == {} && high == 0 && held == 0
      ensures inputFrozen && outputFrozen && partner == null && !enabledRead && enabledWrite
    {
      input, output, written, taken := [], [], [], [];
      inputFrozen, outputFrozen := true, true;
      enabledRead, enabledWrite, suspended, high, held, partner := false, true, {}, 0, 0, null;
    }
  }

  ghost predicate Linked(a: Endpoint, b: Endpoint)
    reads a, b
  {
    a != b && a.partner == b && b.partner == a
  }

  /** A lossless stream from a to b: what b has read, what it can read, and what a has
      not handed over are together what was written to a, in order. */
  ghost predicate Fifo(a: Endpoint, b: Endpoint)
    reads a, b
  {
    a.written == b.taken + b.input + a.output
  }

  /** Reading of b is suspended for its watermark only while the input is that long. */
  ghost predicate WatermarkOk(b: Endpoint)
    reads b
  {
    WM in b.suspended ==> 0 < b.high <= |b.input|
  }

  /** be_pair_wants_to_talk */
  predicate WantsToTalk(src: Endpoint, dst: Endpoint)
    reads src, dst
  {
    src.enabledWrite && dst.enabledRead && dst.suspended == {} && src.output != []
  }

  /** Nothing is left behind that should be handed over. */
  ghost predicate Quiet(src: Endpoint, dst: Endpoint)
    reads src, dst
  {
    WantsToTalk(src, dst) ==> 0 < dst.high <= |dst.input|
  }

  ghost predicate Direction(a: Endpoint, b: Endpoint)
    reads a, b
  {
    Fifo(a, b) && WatermarkOk(b) && Quiet(a, b) && a.outputFrozen && b.inputFrozen
  }

  ghost predicate Valid(a: Endpoint, b: Endpoint)
    reads a, b
  {
    Linked(a, b) && Direction(a, b) && Direction(b, a)
  }

  /** bufferevent_pair_new */
  method PairNew() returns (a: Endpoint, b: Endpoint)
    ensures fresh(a) && fresh(b) && Valid(a, b)
    ensures a.written == b.written == [] && a.held == b.held == 0
    ensures a.input == b.input == [] && !a.enabledRead && !b.enabledRead && a.enabledWrite && b.enabledWrite
  {
    a := new Endpoint();
    b := new Endpoint();
    a.partner := b;
    b.partner := a;
  }

  /** What a transfer does to the input of dst while it respects the watermark */
  twostate predicate Bounded(dst: Endpoint)
    reads dst
  {
    dst.high != 0 ==> |dst.input| <= if |old(dst.input)| < dst.high then dst.high else |old(dst.input)|
  }

  /** A transfer leaves nothing behind: there is no watermark, or it is already passed and
      does not matter, or everything fits below it. */
  ghost predicate Empties(src: Endpoint, dst: Endpoint, ignoreWm: bool)
    reads src, dst
  {
    dst.high == 0 || (ignoreWm && dst.high <= |dst.input|) || |dst.input| + |src.output| <= dst.high
  }

  /** be_pair_transfer.  Even if it is told to ignore the watermark, an input below the
      watermark is only filled up to it. */
  method Transfer(src: Endpoint, dst: Endpoint, ignoreWm: bool)
    requires Linked(src, dst) && Fifo(src, dst) && WatermarkOk(dst)
    modifies src`output, src`outputFrozen, dst`input, dst`inputFrozen, dst`suspended
    ensures Fifo(src, dst) && WatermarkOk(dst) && src.outputFrozen && dst.inputFrozen
    ensures |src.output| <= |old(src.output)| && old(dst.input) <= dst.input
    ensures src.output == [] || 0 < dst.high <= |dst.input|
    ensures src.output == [] <==> old(src.output == [] || Empties(src, dst, ignoreWm))
    ensures !ignoreWm || |old(dst.input)| < dst.high ==> Bounded(dst)
    decreases |src.output|, 0
  {
    src.outputFrozen := false;
    dst.inputFrozen := false;
    var n := |src.output|;
    if dst.high != 0 {
      if |dst.input| < dst.high {
        // evbuffer_remove_buffer moves at most what there is
        if dst.high - |dst.input| < n {
          n := dst.high - |dst.input|;
        }
      } else if !ignoreWm {
        n := 0;   // goto done
      }
    }
    if n != 0 {
      MoveBytes(src, dst, n);
      InputChanged(dst, src);
    }
    src.outputFrozen := true;
    dst.inputFrozen := true;
  }

  /** evbuffer_remove_buffer or evbuffer_add_buffer, from unfrozen ends */
  method MoveBytes(src: Endpoint, dst: Endpoint, n: nat)
    requires src != dst && Fifo(src, dst) && n <= |src.output| && !src.outputFrozen && !dst.inputFrozen
    modifies src`output, dst`input
    ensures Fifo(src, dst)
    ensures dst.input == old(dst.input) + old(src.output)[..n] && src.output == old(src.output)[n..]
  {
    TakeDrop(dst.taken + dst.input, src.output, n);
    Assoc(dst.taken, dst.input, src.output[..n]);
    dst.input := dst.input + src.output[..n];
    src.output := src.output[n..];
  }

  /** bufferevent_inbuf_wm_cb, which is enabled while there is a watermark */
  method InputChanged(dst: Endpoint, src: Endpoint)
    requires Linked(src, dst) && Fifo(src, dst)
    requires WM in dst.suspended ==> 0 < dst.high
    modifies src`output, src`outputFrozen, dst`input, dst`inputFrozen, dst`suspended
    ensures Fifo(src, dst) && WatermarkOk(dst) && Bounded(dst)
    ensures |src.output| <= |old(src.output)| && old(dst.input) <= dst.input
    ensures dst.high == 0 || |old(dst.input)| >= dst.high ==>
              src.output == old(src.output) && dst.input == old(dst.input)
    ensures dst.high != 0 ==> Quiet(src, dst)
    ensures old(src.outputFrozen && dst.inputFrozen) ==> src.outputFrozen && dst.inputFrozen
    decreases |src.output|, 3
  {
    if dst.high != 0 {
      if dst.high <= |dst.input| {
        dst.suspended := dst.suspended + {WM};
      } else {
        UnsuspendRead(dst, src, WM);
      }
    }
  }

  /** bufferevent_unsuspend_read */
  method UnsuspendRead(dst: Endpoint, src: Endpoint, what: Reason)
    requires Linked(src, dst) && Fifo(src, dst)
    requires what == WM || WatermarkOk(dst)
    modifies src`output, src`outputFrozen, dst`input, dst`inputFrozen, dst`suspended
    ensures Fifo(src, dst) && WatermarkOk(dst) && Bounded(dst) && Quiet(src, dst)
    ensures |src.output| <= |old(src.output)| && old(dst.input) <= dst.input
    ensures !dst.enabledRead ==> src.output == old(src.output) && dst.input == old(dst.input)
    ensures old(src.outputFrozen && dst.inputFrozen) ==> src.outputFrozen && dst.inputFrozen
    decreases |src.output|, 2
  {
    dst.suspended := dst.suspended - {what};
    if dst.suspended == {} && dst.enabledRead {
      HandOver(src, dst);   // be_pair_enable with EV_READ
    }
  }

  /** If src has something for dst, and dst wants it, hand it over. */
  method HandOver(src: Endpoint, dst: Endpoint)
    requires Linked(src, dst) && Fifo(src, dst) && WatermarkOk(dst)
    modifies src`output, src`outputFrozen, dst`input, dst`inputFrozen, dst`suspended
    ensures Fifo(src, dst) && WatermarkOk(dst) && Bounded(dst) && Quiet(src, dst)
    ensures |src.output| <= |old(src.output)| && old(dst.input) <= dst.input
    ensures !old(WantsToTalk(src, dst)) ==> src.output == old(src.output) && dst.input == old(dst.input)
    ensures old(src.outputFrozen && dst.inputFrozen) ==> src.outputFrozen && dst.inputFrozen
    decreases |src.output|, 1
  {
    if WantsToTalk(src, dst) {
      Transfer(src, dst, false);
    }
  }

  // ----- what a user calls

  /** bufferevent_write, and be_pair_outbuf_cb if there is more data */
  method Write(a: Endpoint, b: Endpoint, data: seq<byte>)
    requires Valid(a, b)
    modifies a`output, a`outputFrozen, a`written, b`input, b`inputFrozen, b`suspended
    ensures Valid(a, b) && a.written == old(a.written) + data && Bounded(b)
    ensures !a.enabledWrite || !b.enabledRead || old(b.suspended) != {} ==>
              b.input == old(b.input) && a.output == old(a.output) + data
  {
    Assoc(b.taken + b.input, a.output, data);
    a.output := a.output + data;
    a.written := a.written + data;
    if data != [] {
      HandOver(a, b);
    } else {
      assert a.output == old(a.output);
    }
  }

  /** bufferevent_read: evbuffer_remove, and the watermark callback if something went */
  method Read(b: Endpoint, a: Endpoint, n: nat) returns (data: seq<byte>)
    requires Valid(a, b)
    modifies a`output, a`outputFrozen, b`input, b`inputFrozen, b`suspended, b`taken
    ensures Valid(a, b) && data == old(b.input)[..if n < |old(b.input)| then n else |old(b.input)|]
    ensures b.taken == old(b.taken) + data && Bounded(b)
  {
    var m := if n < |b.input| then n else |b.input|;
    data := b.input[..m];
    TakeDrop(b.taken, b.input, m);
    b.taken := b.taken + data;
    b.input := b.input[m..];
    if data != [] {
      if b.high == 0 {
        // there is no callback, and nothing is held back for a watermark
      } else {
        InputChanged(b, a);
      }
    }
  }

  /** bufferevent_enable and be_pair_enable */
  method Enable(x: Endpoint, y: Endpoint, read: bool, write: bool)
    requires Valid(x, y)
    modifies x`enabledRead, x`enabledWrite
    modifies x`output, x`outputFrozen, x`input, x`inputFrozen, x`suspended
    modifies y`output, y`outputFrozen, y`input, y`inputFrozen, y`suspended
    ensures Valid(x, y) && Bounded(x) && Bounded(y)
    ensures x.enabledRead == (old(x.enabledRead) || read) && x.enabledWrite == (old(x.enabledWrite) || write)
    ensures !x.enabledRead || !y.enabledWrite || old(x.suspended) != {} ==>
              x.input == old(x.input) && y.output == old(y.output)
    ensures !x.enabledWrite || !y.enabledRead || old(y.suspended) != {} ==>
              y.input == old(y.input) && x.output == old(x.output)
  {
    EnableRead(x, y, read);
    if write {
      x.enabledWrite := true;
      HandOver(x, y);
    }
  }

  /** The reading part */
  method EnableRead(x: Endpoint, y: Endpoint, read: bool)
    requires Valid(x, y)
    modifies x`enabledRead, x`input, x`inputFrozen, x`suspended, y`output, y`outputFrozen
    ensures Valid(x, y) && Bounded(x) && x.enabledRead == (old(x.enabledRead) || read)
    ensures !x.enabledRead || !y.enabledWrite || old(x.suspended) != {} ==>
              x.input == old(x.input) && y.output == old(y.output)
  {
    if read {
      x.enabledRead := true;
      if x.suspended == {} {
        HandOver(y, x);
      }
    }
  }

  /** bufferevent_disable and be_pair_disable */
  method Disable(x: Endpoint, y: Endpoint, read: bool, write: bool)
    requires Valid(x, y)
    modifies x`enabledRead, x`enabledWrite
    ensures Valid(x, y)
    ensures x.enabledRead == (old(x.enabledRead) && !read) && x.enabledWrite == (old(x.enabledWrite) && !write)
  {
    x.enabledRead, x.enabledWrite := x.enabledRead && !read, x.enabledWrite && !write;
  }

  /** be_pair_flush.  In mode NORMAL it returns without releasing what it locked. */
  method Flush(x: Endpoint, y: Endpoint, read: bool, write: bool, mode: FlushMode)
    requires Valid(x, y)
    modifies x, y
    ensures Valid(x, y)
    ensures x.held == old(x.held) + (if mode == NORMAL then 1 else 0)
    ensures x.written == old(x.written) && y.written == old(y.written)
    ensures x.taken == old(x.taken) && y.taken == old(y.taken)
    ensures if mode != NORMAL && read then y.output == [] <==> old(Empties(y, x, true)) else y.output == old(y.output)
    ensures if mode != NORMAL && write then x.output == [] <==> old(Empties(x, y, true)) else x.output == old(x.output)
    ensures x.high == old(x.high) && y.high == old(y.high)
  {
    if mode == NORMAL {
      x.held := x.held + 1;
      return;
    }
    if read {
      Transfer(y, x, true);
    }
    if write {
      Transfer(x, y, true);
    }
  }

  /** Two bytes written, nothing read, and a watermark of one: even flushing would leave
      something behind. */
  method FlushWouldStop() returns (a: Endpoint, b: Endpoint)
    ensures fresh(a) && fresh(b) && Valid(a, b) && !Empties(a, b, true)
    ensures a.output == [1, 2] && b.input == [] && b.high == 1
  {
    a, b := PairNew();
    assert a.output == [] by {
      StartEmpty(a, b);
    }
    SetWatermark(b, a, 1);
    Write(a, b, [1, 2]);
  }

  /** bufferevent_setwatermark for reading */
  method SetWatermark(b: Endpoint, a: Endpoint, high: nat)
    requires Valid(a, b)
    modifies a`output, a`outputFrozen, b`input, b`inputFrozen, b`suspended, b`high
    ensures Valid(a, b) && b.high == high
    ensures !b.enabledRead ==> b.input == old(b.input) && a.output == old(a.output)
  {
    b.high := high;
    if high != 0 {
      if high < |b.input| {
        b.suspended := b.suspended + {WM};
      } else if |b.input| < high {
        UnsuspendRead(b, a, WM);
      }
    } else {
      UnsuspendRead(b, a, WM);
    }
  }

  /** bufferevent_suspend_read and bufferevent_unsuspend_read for another reason */
  method SuspendOther(b: Endpoint, a: Endpoint)
    requires Valid(a, b)
    modifies b`suspended
    ensures Valid(a, b) && OTHER in b.suspended
  {
    b.suspended := b.suspended + {OTHER};
  }

  method UnsuspendOther(b: Endpoint, a: Endpoint)
    requires Valid(a, b)
    modifies a`output, a`outputFrozen, b`input, b`inputFrozen, b`suspended
    ensures Valid(a, b)
  {
    UnsuspendRead(b, a, OTHER);
  }

  // ----- any run

  /** What is done to the pair; side tells to which of the two */
  datatype Op =
    | WriteOp(side: bool, data: seq<byte>)
    | ReadOp(side: bool, n: nat)
    | EnableOp(side: bool, read: bool, write: bool)
    | DisableOp(side: bool, read: bool, write: bool)
    | FlushOp(side: bool, read: bool, write: bool, mode: FlushMode)
    | WatermarkOp(side: bool, high: nat)

  /** All that was written to one side */
  function WrittenTo(ops: seq<Op>, side: bool): seq<byte> {
    if ops == [] then []
    else
      var op := ops[|ops| - 1];
      WrittenTo(ops[..|ops| - 1], side) + if op.WriteOp? && op.side == side then op.data else []
  }

  method Do(x: Endpoint, y: Endpoint, op: Op) returns (data: seq<byte>)
    requires Valid(x, y)
    modifies x, y
    ensures Valid(x, y)
    ensures x.written == old(x.written) + (if op.WriteOp? then op.data else []) && y.written == old(y.written)
    ensures y.taken == old(y.taken) && x.taken == old(x.taken) + data
  {
    data := [];
    assert x.written + [] == x.written && x.taken + [] == x.taken;
    match op {
      case WriteOp(_, d) => Write(x, y, d);
      case ReadOp(_, n) => data := Read(x, y, n);
      case EnableOp(_, r, w) => Enable(x, y, r, w);
      case DisableOp(_, r, w) => Disable(x, y, r, w);
      case FlushOp(_, r, w, mode) => Flush(x, y, r, w, mode);
      case WatermarkOp(_, high) => SetWatermark(x, y, high);
    }
  }

  /** Any run loses, invents and reorders nothing: what was read from each side, then
      what can be read there, then what waits at the other side, is what was written to
      the other side. */
  method Run(ops: seq<Op>)
    returns (takenA: seq<byte>, inA: seq<byte>, outA: seq<byte>, takenB: seq<byte>, inB: seq<byte>, outB: seq<byte>)
    ensures takenB + inB + outA == WrittenTo(ops, true)
    ensures takenA + inA + outB == WrittenTo(ops, false)
  {
    var a, b := PairNew();
    takenA, takenB := [], [];
    var k := 0;
    assert ops[..0] == [];
    StartEmpty(a, b);
    while k < |ops|
      invariant k <= |ops| && Valid(a, b) && fresh(a) && fresh(b)
      invariant a.written == WrittenTo(ops[..k], true) && b.written == WrittenTo(ops[..k], false)
      invariant takenA == a.taken && takenB == b.taken
    {
      assert ops[..k + 1][..k] == ops[..k];
      if ops[k].side {
        var data := Do(a, b, ops[k]);
        takenA := takenA + data;
        assert b.written + [] == b.written;
      } else {
        var data := Do(b, a, ops[k]);
        takenB := takenB + data;
        assert a.written + [] == a.written;
      }
      k := k + 1;
    }
    assert ops[..k] == ops;
    inA, outA, inB, outB := a.input, a.output, b.input, b.output;
  }

  lemma StartEmpty(a: Endpoint, b: Endpoint)
    requires Valid(a, b) && a.written == b.written == []
    ensures a.taken == b.taken == a.output == b.output == []
  {
    assert |a.written| == |b.taken| + |b.input| + |a.output|;
    assert |b.written| == |a.taken| + |a.input| + |b.output|;
  }
}
