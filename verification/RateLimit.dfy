/** Rate limits of bufferevents (bufferevent_ratelim.c): token buckets, and reading and
    writing that is suspended while a bucket is empty. */
module RateLimit {
  import opened Lists

  const SSIZE_MAX: int := 0x7fff_ffff_ffff_ffff
  const SIZE_RANGE: int := 0x1_0000_0000_0000_0000
  const TICK_RANGE: int := 0x1_0000_0000
  const INT_MAX: int := 0x7fff_ffff
  const MAX_TO_READ_EVER: int := 16384

  function Min(a: int, b: int): int {
    if a <= b then a else b
  }

  // ----- the token bucket

  /** What struct ev_token_bucket_cfg says about reading, or about writing */
  datatype Rate = Rate(rate: int, maximum: int) {
    predicate Valid() {
      1 <= rate <= maximum <= SSIZE_MAX
    }
  }

  /** struct ev_token_bucket_cfg, with the address of the object */
  datatype Cfg = Cfg(addr: nat, read: Rate, write: Rate, msecPerTick: nat) {
    predicate Valid() {
      read.Valid() && write.Valid()
    }

    function Of(isWrite: bool): Rate {
      if isWrite then write else read
    }
  }

  const COMMON_TIMEOUT_MICROSECONDS_MASK: int := 0xfffff

  /** The milliseconds of a tick, before they become an unsigned 32-bit number; & with the
      mask is a remainder */
  function Msec(sec: int, usec: int): int {
    sec * 1000 + usec % (COMMON_TIMEOUT_MICROSECONDS_MASK + 1) / 1000
  }

  /** ev_token_bucket_cfg_new.  ev_token_bucket_get_tick divides by msecPerTick. */
  method CfgNew(addr: nat, readRate: nat, readBurst: nat, writeRate: nat, writeBurst: nat, sec: int, usec: int)
    returns (cfg: Option<Cfg>)
    ensures cfg.Some? <==> Rate(readRate, readBurst).Valid() && Rate(writeRate, writeBurst).Valid()
    ensures cfg.Some? ==>
              && cfg.value.Valid() && cfg.value.addr == addr
              && cfg.value.read == Rate(readRate, readBurst) && cfg.value.write == Rate(writeRate, writeBurst)
    ensures cfg.Some? ==> (cfg.value.msecPerTick == 0 <==> Msec(sec, usec) % TICK_RANGE == 0)
    ensures cfg.Some? && 0 <= sec <= 4294966 ==>
              (cfg.value.msecPerTick == 0 <==> sec == 0 && usec % 0x100000 < 1000)
    ensures cfg.Some? && 0 <= sec <= 4294966 && 0 <= usec < 1000000 ==>
              cfg.value.msecPerTick == sec * 1000 + usec / 1000
  {
    if readBurst < readRate || writeBurst < writeRate || readRate < 1 || writeRate < 1 {
      return None;
    }
    if SSIZE_MAX < readRate || SSIZE_MAX < writeRate || SSIZE_MAX < readBurst || SSIZE_MAX < writeBurst {
      return None;
    }
    cfg := Some(Cfg(addr, Rate(readRate, readBurst), Rate(writeRate, writeBurst), Msec(sec, usec) % TICK_RANGE));
  }

  /** Ticks of no length that are accepted: less than a millisecond, more than a second
      in microseconds, and 2^29 seconds */
  lemma ZeroTicks()
    ensures Msec(0, 999) == 0 && Msec(0, 0x100000) == 0 && Msec(0x2000_0000, 0) % TICK_RANGE == 0
  {}

  /** A 64-bit number as a signed one */
  function AsSsize(x: int): int {
    var y := x % SIZE_RANGE;
    if y <= SSIZE_MAX then y else y - SIZE_RANGE
  }

  predicate IsSsize(x: int) {
    -SSIZE_MAX - 1 <= x <= SSIZE_MAX
  }

  /** The refill of ev_token_bucket_update after n ticks, in unsigned 64-bit arithmetic */
  function Refilled(limit: int, r: Rate, n: int): int
    requires 0 < n
  {
    if (r.maximum - limit) % SIZE_RANGE / n < r.rate then r.maximum
    else AsSsize(limit + n * r.rate % SIZE_RANGE)
  }

  lemma DivideOrMultiply(a: int, n: int, r: int)
    requires 0 < n
    ensures a / n < r <==> a < n * r
  {
    var q, m := a / n, a % n;
    assert a == n * q + m;
    if q < r {
      assert n * (q + 1) <= n * r;
    } else {
      assert n * r <= n * q;
    }
  }

  /** The same with p instead of n * rate, without a division */
  function RefilledBy(limit: int, maximum: int, p: int): int {
    if (maximum - limit) % SIZE_RANGE < p then maximum else AsSsize(limit + p % SIZE_RANGE)
  }

  lemma RefillWithoutDivision(limit: int, r: Rate, n: int)
    requires 0 < n
    ensures Refilled(limit, r, n) == RefilledBy(limit, r.maximum, n * r.rate)
  {
    DivideOrMultiply((r.maximum - limit) % SIZE_RANGE, n, r.rate);
  }

  /** What becomes of a bucket above its maximum: it grows further, until the number
      wraps around. */
  function Above(limit: int, maximum: int, p: int): int {
    if limit + p <= SSIZE_MAX then limit + p else Min(maximum, limit + p - SIZE_RANGE)
  }

  lemma LawBy(limit: int, maximum: int, p: int)
    requires IsSsize(limit) && 0 <= maximum <= SSIZE_MAX && 0 < p
    ensures limit <= maximum ==> RefilledBy(limit, maximum, p) == Min(maximum, limit + p)
    ensures maximum < limit ==> RefilledBy(limit, maximum, p) == Above(limit, maximum, p)
  {
    var diff := (maximum - limit) % SIZE_RANGE;
    if limit <= maximum {
      assert diff == maximum - limit;
      if p <= diff {
        assert p % SIZE_RANGE == p;
        SsizeOf(limit + p);
      }
    } else {
      assert diff == maximum - limit + SIZE_RANGE;
      if p <= diff {
        assert p % SIZE_RANGE == p;
        SsizeOf(limit + p);
        SsizeOf(limit + p - SIZE_RANGE);
        assert (limit + p) % SIZE_RANGE == (limit + p - SIZE_RANGE) % SIZE_RANGE;
      }
    }
  }

  lemma SsizeOf(x: int)
    ensures IsSsize(x) ==> AsSsize(x) == x
  {}

  lemma AtLeastOne(n: int, r: int)
    requires 1 <= n && 1 <= r
    ensures 1 <= n * r
  {}

  /** Below the maximum, dividing instead of multiplying gives exactly what the comment
      in the code asks for, and nothing overflows.  Above it the bucket grows further, and
      when the number wraps around it is as good as new, or anything below that. */
  lemma BucketLaw(limit: int, r: Rate, n: int)
    requires IsSsize(limit) && r.Valid() && 0 < n <= INT_MAX
    ensures limit <= r.maximum ==>
              Refilled(limit, r, n) == Min(r.maximum, limit + n * r.rate) && limit <= Refilled(limit, r, n)
    ensures r.maximum < limit ==> Refilled(limit, r, n) == Above(limit, r.maximum, n * r.rate)
    ensures IsSsize(Refilled(limit, r, n))
  {
    hide Refilled, RefilledBy;
    RefillWithoutDivision(limit, r, n);
    AtLeastOne(n, r.rate);
    LawBy(limit, r.maximum, n * r.rate);
  }

  /** A refill empties a bucket with something in it exactly if it takes the number over
      SSIZE_MAX and not over 2^64; only a bucket above its maximum can get there. */
  predicate Wraps(limit: int, r: Rate, n: int) {
    r.maximum < limit && SSIZE_MAX < limit + n * r.rate <= SIZE_RANGE
  }

  lemma EmptiedByRefill(limit: int, r: Rate, n: int)
    requires IsSsize(limit) && r.Valid() && 0 < n <= INT_MAX && 0 < limit
    ensures Refilled(limit, r, n) <= 0 <==> Wraps(limit, r, n)
  {
    hide Refilled;
    BucketLaw(limit, r, n);
    AtLeastOne(n, r.rate);
  }

  /** A bucket that a refund took above its maximum is not brought back; the largest
      possible one becomes the emptiest. */
  lemma AboveMaximum()
    ensures Refilled(20, Rate(1, 10), 1) == 21
    ensures Refilled(SSIZE_MAX, Rate(1, 10), 1) == -SSIZE_MAX - 1 && Wraps(SSIZE_MAX, Rate(1, 10), 1)
  {}

  /** The ticks since the last update, as unsigned 32-bit numbers */
  function NTicks(last: int, tick: int): int {
    (tick - last) % TICK_RANGE
  }

  /** Time went on, and not so far that it looks as if it went back. */
  predicate Elapsed(last: int, tick: int) {
    0 < NTicks(last, tick) <= INT_MAX
  }

  function UpdatedLimit(limit: int, r: Rate, last: int, tick: int): int {
    if Elapsed(last, tick) then Refilled(limit, r, NTicks(last, tick)) else limit
  }

  function UpdatedTick(last: int, tick: int): int {
    if Elapsed(last, tick) then tick else last
  }

  /** Two updates do the same as one, also when the tick number wraps around, while the
      whole time is at most INT_MAX ticks. */
  lemma UpdatesCompose(limit: int, r: Rate, last: int, t1: int, t2: int)
    requires IsSsize(limit) && r.Valid()
    requires limit <= r.maximum || limit + NTicks(last, t2) * r.rate <= SSIZE_MAX
    requires 0 <= last < TICK_RANGE && 0 <= t1 < TICK_RANGE && 0 <= t2 < TICK_RANGE
    requires NTicks(last, t1) + NTicks(t1, t2) <= INT_MAX
    ensures var l1, last1 := UpdatedLimit(limit, r, last, t1), UpdatedTick(last, t1);
            UpdatedLimit(l1, r, last1, t2) == UpdatedLimit(limit, r, last, t2)
    ensures UpdatedTick(UpdatedTick(last, t1), t2) == UpdatedTick(last, t2)
  {
    hide Refilled;
    var n1, n2 := NTicks(last, t1), NTicks(t1, t2);
    TicksAdd(last, t1, t2);
    if n1 == 0 {
      assert t1 == last;
    } else if n2 == 0 {
      assert t2 == t1;
    } else {
      Distribute(n1, n2, r.rate);
      AtLeastOne(n1, r.rate);
      AtLeastOne(n2, r.rate);
      BucketLaw(limit, r, n1);
      BucketLaw(Refilled(limit, r, n1), r, n2);
      BucketLaw(limit, r, n1 + n2);
    }
  }

  lemma TicksAdd(last: int, t1: int, t2: int)
    requires NTicks(last, t1) + NTicks(t1, t2) < TICK_RANGE
    ensures NTicks(last, t2) == NTicks(last, t1) + NTicks(t1, t2)
  {}

  lemma Distribute(a: int, b: int, c: int)
    ensures (a + b) * c == a * c + b * c
  {}

  /** A bucket with a debt is out of debt once the ticks since the last update, each at
      the rate, are worth more. */
  lemma DebtEnds(limit: int, r: Rate, last: int, tick: int)
    requires IsSsize(limit) && limit <= r.maximum && r.Valid() && Elapsed(last, tick)
    ensures 0 < UpdatedLimit(limit, r, last, tick) <==> 0 < limit + NTicks(last, tick) * r.rate
  {
    BucketLaw(limit, r, NTicks(last, tick));
  }

  /** A configuration with ticks of another length comes, while the bucket keeps the
      number of the tick in which it was updated last.  At time now it is credited again
      exactly if as many of the new ticks have passed since the beginning of time, and one
      more.  Times are in milliseconds. */
  lemma CreditAfterTickChange(before: nat, was: nat, now: nat, after: nat)
    requires 0 < before && 0 < after && was / before <= INT_MAX && now / after <= INT_MAX
    ensures Elapsed(was / before, now / after) <==> (was / before + 1) * after <= now
  {
    DivideOrMultiply(now, after, was / before + 1);
    assert after * (was / before + 1) == (was / before + 1) * after;
  }

  /** With ticks of a second instead of a millisecond, a bucket that was updated after
      eleven days is not credited before 31 years have passed. */
  lemma StalledByLongerTicks(limit: int, r: Rate, now: nat)
    requires now <= 1_000_000_000_000
    ensures UpdatedLimit(limit, r, 1_000_000_000, now / 1000) == limit
  {
    assert 1_000_000_000 / 1 == 1_000_000_000;
    CreditAfterTickChange(1, 1_000_000_000, now, 1000);
  }

  /** The law of a bucket, without remainders */
  function Law(limit: int, r: Rate, n: int): int {
    if limit <= r.maximum then Min(r.maximum, limit + n * r.rate) else Above(limit, r.maximum, n * r.rate)
  }

  /** struct ev_token_bucket */
  class TokenBucket {
    var readLimit: int
    var writeLimit: int
    var lastUpdated: int

    /** ev_token_bucket_init */
    method Init(cfg: Cfg, tick: int, reinitialize: bool)
      modifies this
      ensures readLimit == if reinitialize then Min(old(readLimit), cfg.read.maximum) else cfg.read.rate
      ensures writeLimit == if reinitialize then Min(old(writeLimit), cfg.write.maximum) else cfg.write.rate
      ensures lastUpdated == if reinitialize then old(lastUpdated) else tick
    {
      if reinitialize {
        if cfg.read.maximum < readLimit {
          readLimit := cfg.read.maximum;
        }
        if cfg.write.maximum < writeLimit {
          writeLimit := cfg.write.maximum;
        }
      } else {
        readLimit, writeLimit, lastUpdated := cfg.read.rate, cfg.write.rate, tick;
      }
    }

    /** ev_token_bucket_update */
    method Update(cfg: Cfg, tick: int) returns (r: int)
      requires cfg.Valid() && IsSsize(readLimit) && IsSsize(writeLimit)
      modifies this
      ensures r == if Elapsed(old(lastUpdated), tick) then 1 else 0
      ensures var n := NTicks(old(lastUpdated), tick);
              && readLimit == (if r == 1 then Law(old(readLimit), cfg.read, n) else old(readLimit))
              && writeLimit == (if r == 1 then Law(old(writeLimit), cfg.write, n) else old(writeLimit))
      ensures readLimit == UpdatedLimit(old(readLimit), cfg.read, old(lastUpdated), tick)
      ensures writeLimit == UpdatedLimit(old(writeLimit), cfg.write, old(lastUpdated), tick)
      ensures lastUpdated == UpdatedTick(old(lastUpdated), tick)
      ensures IsSsize(readLimit) && IsSsize(writeLimit)
    {
      var n := NTicks(lastUpdated, tick);
      if n == 0 || INT_MAX < n {
        return 0;
      }
      hide Refilled;
      BucketLaw(readLimit, cfg.read, n);
      BucketLaw(writeLimit, cfg.write, n);
      readLimit := Refill(readLimit, cfg.read, n);
      writeLimit := Refill(writeLimit, cfg.write, n);
      lastUpdated := tick;
      r := 1;
    }

    /** The refill of one of the limits */
    static method Refill(limit: int, r: Rate, n: int) returns (l: int)
      requires 0 < n
      ensures l == Refilled(limit, r, n)
    {
      if (r.maximum - limit) % SIZE_RANGE / n < r.rate {
        l := r.maximum;
      } else {
        l := AsSsize(limit + n * r.rate % SIZE_RANGE);
      }
    }
  }

  // ----- how much can be read

  /** What happens to a bucket: the clock is looked at, or bytes are charged. */
  datatype Step = Look(tick: int) | Charge(bytes: int)

  datatype Bucket = Bucket(limit: int, last: int)

  function StepTo(b: Bucket, r: Rate, s: Step): Bucket {
    match s
    case Look(tick) => Bucket(UpdatedLimit(b.limit, r, b.last, tick), UpdatedTick(b.last, tick))
    case Charge(n) => b.(limit := b.limit - n)
  }

  /** A charge is at most what _bufferevent_get_rlim_max allows: the limit, or nothing. */
  predicate StepOk(b: Bucket, s: Step) {
    s.Charge? ==> 0 <= s.bytes <= if 0 < b.limit then b.limit else 0
  }

  function Charged(steps: seq<Step>): int {
    if steps == [] then 0
    else Charged(steps[..|steps| - 1]) + match steps[|steps| - 1] case Charge(n) => n case Look(_) => 0
  }

  function After(b: Bucket, r: Rate, steps: seq<Step>): Bucket {
    if steps == [] then b else StepTo(After(b, r, steps[..|steps| - 1]), r, steps[|steps| - 1])
  }

  predicate AllOk(b: Bucket, r: Rate, steps: seq<Step>) {
    steps == [] || (AllOk(b, r, steps[..|steps| - 1]) && StepOk(After(b, r, steps[..|steps| - 1]), steps[|steps| - 1]))
  }

  /** The ticks that were credited */
  function Ticks(b: Bucket, r: Rate, steps: seq<Step>): int {
    if steps == [] then 0
    else
      var was, s := After(b, r, steps[..|steps| - 1]), steps[|steps| - 1];
      Ticks(b, r, steps[..|steps| - 1]) + if s.Look? && Elapsed(was.last, s.tick) then NTicks(was.last, s.tick) else 0
  }

  /** Over any run, no more is charged than one full bucket and the rate of every tick. */
  lemma {:induction false} BandwidthBound(b: Bucket, r: Rate, steps: seq<Step>)
    requires r.Valid() && IsSsize(b.limit) && b.limit <= r.maximum && AllOk(b, r, steps)
    ensures 0 <= Ticks(b, r, steps) && Charged(steps) <= r.maximum + Ticks(b, r, steps) * r.rate
    ensures var e := After(b, r, steps);
            && IsSsize(e.limit) && e.limit <= r.maximum && Min(b.limit, 0) <= e.limit
            && 0 <= Charged(steps) <= b.limit - e.limit + Ticks(b, r, steps) * r.rate
            && (Charged(steps) == 0 || 0 <= e.limit)
  {
    hide Refilled;
    if steps != [] {
      var init, s := steps[..|steps| - 1], steps[|steps| - 1];
      BandwidthBound(b, r, init);
      var e := After(b, r, init);
      if s.Look? && Elapsed(e.last, s.tick) {
        BucketLaw(e.limit, r, NTicks(e.last, s.tick));
        Distribute(Ticks(b, r, init), NTicks(e.last, s.tick), r.rate);
        NonNegative(NTicks(e.last, s.tick), r.rate);
      }
    }
    NonNegative(Ticks(b, r, steps), r.rate);
  }

  lemma NonNegative(a: int, b: int)
    requires 0 <= a && 0 <= b
    ensures 0 <= a * b
  {}

  // ----- suspending and resuming a bufferevent

  /** BEV_SUSPEND_WM, BEV_SUSPEND_BW, BEV_SUSPEND_BW_GROUP and the other reasons */
  datatype Reason = WM | BW | BW_GROUP | LOOKUP | FILT_READ

  /** Reading, or writing, of a bufferevent: the bytes it may use, why it is suspended,
      whether the user enabled it, and whether the backend does it */
  datatype Side = Side(limit: int, suspended: set<Reason>, enabled: bool, backend: bool) {
    ghost predicate BackendOk() {
      backend ==> enabled && suspended == {}
    }

    /** The backend does it exactly if it is enabled and nothing suspends it.  A new
        bufferevent has writing enabled without having told the backend. */
    ghost predicate Settled() {
      backend <==> enabled && suspended == {}
    }
  }

  /** A side that bandwidth suspends, and one that it does not suspend any more */
  function Paused(s: Side): Side {
    s.(suspended := s.suspended + {BW}, backend := false)
  }

  function Resumed(s: Side): Side {
    s.(suspended := s.suspended - {BW}, backend := s.enabled && s.suspended - {BW} == {})
  }

  /** A side that gets a new rate: its bucket starts with the rate, or is clipped if there
      was one, and bandwidth suspends it exactly if the bucket is empty. */
  function Throttled(s: Side, was: Option<Cfg>, r: Rate): Side {
    var t := s.(limit := if was.None? then r.rate else Min(s.limit, r.maximum));
    if t.limit <= 0 then Paused(t) else Resumed(t)
  }

  /** What the group of a bufferevent lets it have */
  datatype Grant = NoGroup | Suspended | Share(share: int) {
    function Amount(): int
      requires !NoGroup?
    {
      if Suspended? then 0 else share
    }
  }

  class Bufferevent {
    var read: Side
    var write: Side
    var limited: bool          // rate_limiting is not NULL
    var cfg: Option<Cfg>
    var lastUpdated: int
    var refillPending: bool    // refill_bucket_event is pending

    function Of(isWrite: bool): Side
      reads this
    {
      if isWrite then write else read
    }

    /** The backend reads only if reading is enabled and nothing suspends it. */
    ghost predicate BackendOk()
      reads this
    {
      read.BackendOk() && write.BackendOk()
    }

    /** An empty bucket suspends its side. */
    ghost predicate EmptySuspends(w: bool)
      reads this
    {
      cfg.Some? && Of(w).limit <= 0 ==> BW in Of(w).suspended
    }

    ghost predicate LimitsOk()
      reads this
    {
      cfg.Some? ==> limited && cfg.value.Valid() && IsSsize(read.limit) && IsSsize(write.limit)
    }

    ghost predicate Waiting()
      reads this
    {
      BW in read.suspended || BW in write.suspended
    }

    /** No stuck suspension: a side that bandwidth suspends has a refill coming.  That an
        empty bucket suspends its side is EmptySuspends. */
    ghost predicate Valid()
      reads this
    {
      && BackendOk() && LimitsOk()
      && (Waiting() ==> cfg.Some? && refillPending)
    }

    /** What no step takes from a side that has it */
    twostate predicate KeepsSettled()
      reads this
    {
      forall w: bool :: old(Of(w)).Settled() ==> Of(w).Settled()
    }

    /** bufferevent_init_common */
    constructor ()
      ensures Valid() && cfg.None? && !limited && read.Settled()
      ensures read == Side(0, {}, false, false) && write == Side(0, {}, true, false)
    {
      read, write := Side(0, {}, false, false), Side(0, {}, true, false);
      limited, cfg, lastUpdated, refillPending := false, None, 0, false;
    }

    method Set(isWrite: bool, s: Side)
      modifies this`read, this`write
      ensures Of(isWrite) == s && Of(!isWrite) == old(Of(!isWrite))
    {
      if isWrite {
        write := s;
      } else {
        read := s;
      }
    }

    /** bufferevent_suspend_read, bufferevent_suspend_write */
    method Suspend(isWrite: bool, what: Reason)
      requires BackendOk()
      modifies this`read, this`write
      ensures BackendOk() && Of(isWrite).Settled() && Of(!isWrite) == old(Of(!isWrite))
      ensures var s := old(Of(isWrite));
              Of(isWrite) == s.(suspended := s.suspended + {what}, backend := false)
    {
      var s := Of(isWrite);
      if s.suspended == {} {
        s := s.(backend := false);
      }
      Set(isWrite, s.(suspended := s.suspended + {what}));
    }

    /** bufferevent_unsuspend_read, bufferevent_unsuspend_write */
    method Unsuspend(isWrite: bool, what: Reason)
      requires BackendOk()
      modifies this`read, this`write
      ensures BackendOk() && Of(isWrite).Settled() && Of(!isWrite) == old(Of(!isWrite))
      ensures var s := old(Of(isWrite));
              Of(isWrite) == s.(suspended := s.suspended - {what}, backend := s.enabled && s.suspended - {what} == {})
    {
      var s := Of(isWrite);
      s := s.(suspended := s.suspended - {what});
      if s.suspended == {} && s.enabled {
        s := s.(backend := true);
      }
      Set(isWrite, s);
    }

    /** bufferevent_enable */
    method Enable(isWrite: bool)
      requires Valid()
      modifies this`read, this`write
      ensures Valid() && Of(isWrite).Settled() && Of(!isWrite) == old(Of(!isWrite))
      ensures Of(isWrite) == old(Of(isWrite)).(enabled := true, backend := Of(isWrite).backend)
    {
      var s := Of(isWrite);
      Set(isWrite, s.(enabled := true, backend := s.backend || s.suspended == {}));
    }

    /** bufferevent_disable */
    method Disable(isWrite: bool)
      requires Valid()
      modifies this`read, this`write
      ensures Valid() && Of(isWrite).Settled() && Of(!isWrite) == old(Of(!isWrite))
      ensures Of(isWrite) == old(Of(isWrite)).(enabled := false, backend := false)
    {
      var s := Of(isWrite);
      Set(isWrite, s.(enabled := false, backend := false));
    }

    /** The tick wraps bucket w around. */
    ghost predicate WrapsAt(w: bool, tick: int)
      reads this
      requires cfg.Some?
    {
      Elapsed(lastUpdated, tick) && Wraps(Of(w).limit, cfg.value.Of(w), NTicks(lastUpdated, tick))
    }

    /** bufferevent_update_buckets */
    method UpdateBuckets(tick: int)
      requires LimitsOk() && cfg.Some?
      modifies this`read, this`write, this`lastUpdated
      ensures LimitsOk() && KeepsSettled() && (old(BackendOk()) ==> BackendOk()) && Waiting() == old(Waiting())
      ensures lastUpdated == UpdatedTick(old(lastUpdated), tick)
      ensures forall w: bool ::
                Of(w) == old(Of(w)).(limit := UpdatedLimit(old(Of(w)).limit, cfg.value.Of(w), old(lastUpdated), tick))
      ensures forall w: bool | 0 < old(Of(w)).limit :: Of(w).limit <= 0 <==> old(WrapsAt(w, tick))
      ensures forall w: bool | old(Of(w)).limit <= 0 :: old(Of(w)).limit <= Of(w).limit
    {
      if tick != lastUpdated {
        var b := new TokenBucket;
        b.readLimit, b.writeLimit, b.lastUpdated := read.limit, write.limit, lastUpdated;
        LimitAfterUpdate(read.limit, cfg.value.read, lastUpdated, tick);
        LimitAfterUpdate(write.limit, cfg.value.write, lastUpdated, tick);
        var r := b.Update(cfg.value, tick);
        read, write := read.(limit := b.readLimit), write.(limit := b.writeLimit);
        lastUpdated := b.lastUpdated;
      }
    }

    /** _bufferevent_get_rlim_max; grant is what the group says, if there is one: that it is
        suspended, which suspends this side too, or a share.  With a rate limit of its
        own, the limit on a single operation does not apply.  A side may find its bucket
        empty without being suspended here, exactly if the update wrapped around. */
    method GetMax(isWrite: bool, tick: int, grant: Grant) returns (max: int)
      requires Valid()
      modifies this`read, this`write, this`lastUpdated
      ensures Valid() && KeepsSettled()
      ensures var own := if !limited || cfg.None? then 16384 else Of(isWrite).limit;
              var most := if !limited || grant.NoGroup? then own else Min(own, grant.Amount());
              max == if most < 0 then 0 else most
      ensures var s := old(Of(isWrite));
              if limited && grant.Suspended? then
                Of(isWrite) == s.(limit := Of(isWrite).limit, suspended := s.suspended + {BW_GROUP}, backend := false)
              else Of(isWrite) == s.(limit := Of(isWrite).limit)
      ensures Of(!isWrite) == old(Of(!isWrite)).(limit := Of(!isWrite).limit)
      ensures forall w: bool :: Of(w).limit ==
                if limited && cfg.Some? then UpdatedLimit(old(Of(w)).limit, cfg.value.Of(w), old(lastUpdated), tick)
                else old(Of(w)).limit
      ensures forall w: bool | old(EmptySuspends(w)) ::
                EmptySuspends(w) <==> cfg.None? || BW in Of(w).suspended || !old(WrapsAt(w, tick))
    {
      max := MAX_TO_READ_EVER;
      if !limited {
        return;
      }
      if cfg.Some? {
        UpdateBuckets(tick);
        max := Of(isWrite).limit;
      }
      if !grant.NoGroup? {
        if grant.Suspended? {
          Suspend(isWrite, BW_GROUP);
        }
        if grant.Amount() < max {
          max := grant.Amount();
        }
      }
      if max < 0 {
        max := 0;
      }
    }

    /** The part of _bufferevent_decrement_read_buckets and ..._write_buckets that concerns
        the bufferevent; negative bytes give some back.  event_add succeeds. */
    method Decrement(isWrite: bool, bytes: int)
      requires Valid() && (cfg.Some? ==> IsSsize(Of(isWrite).limit - bytes))
      modifies this`read, this`write, this`refillPending
      ensures Valid() && KeepsSettled() && EmptySuspends(isWrite) && Of(!isWrite) == old(Of(!isWrite))
      ensures cfg.None? ==> Of(isWrite) == old(Of(isWrite))
      ensures var s := old(Of(isWrite)).(limit := old(Of(isWrite)).limit - bytes);
              cfg.Some? ==>
                Of(isWrite) == if s.limit <= 0 then Paused(s) else if BW in s.suspended then Resumed(s) else s
    {
      if cfg.None? {
        return;
      }
      var s := Of(isWrite);
      Set(isWrite, s.(limit := s.limit - bytes));
      if Of(isWrite).limit <= 0 {
        Suspend(isWrite, BW);
        refillPending := true;
      } else if BW in Of(isWrite).suspended {
        if BW !in Of(!isWrite).suspended {
          refillPending := false;
        }
        Unsuspend(isWrite, BW);
      }
    }

    /** bufferevent_decrement_read_limit, bufferevent_decrement_write_limit */
    method DecrementLimit(isWrite: bool, bytes: int)
      requires Valid() && cfg.Some? && IsSsize(Of(isWrite).limit - bytes)
      modifies this`read, this`write, this`refillPending
      ensures Valid() && KeepsSettled() && Of(!isWrite) == old(Of(!isWrite))
      ensures var was := old(Of(isWrite)).limit;
              var s := old(Of(isWrite)).(limit := was - bytes);
              Of(isWrite) == if s.limit <= 0 < was then Paused(s) else if was <= 0 < s.limit then Resumed(s) else s
      ensures EmptySuspends(isWrite) <==> old(EmptySuspends(isWrite)) || 0 < Of(isWrite).limit
    {
      var s := Of(isWrite);
      Set(isWrite, s.(limit := s.limit - bytes));
      if 0 < s.limit && s.limit - bytes <= 0 {
        Suspend(isWrite, BW);
        refillPending := true;
      } else if s.limit <= 0 && 0 < s.limit - bytes {
        if BW !in Of(!isWrite).suspended {
          refillPending := false;
        }
        Unsuspend(isWrite, BW);
      }
    }

    /** _bev_refill_callback: its event is not pending any more when it runs. */
    method RefillCallback(tick: int)
      requires BackendOk() && LimitsOk() && !refillPending
      requires Waiting() ==> cfg.Some?
      modifies this
      ensures Valid() && KeepsSettled() && cfg == old(cfg) && limited == old(limited)
      ensures cfg.None? ==> forall w: bool :: Of(w) == old(Of(w))
      ensures cfg.Some? ==> forall w: bool ::
                var s := old(Of(w)).(limit := UpdatedLimit(old(Of(w)).limit, cfg.value.Of(w), old(lastUpdated), tick));
                Of(w) == if BW in s.suspended && 0 < s.limit then Resumed(s) else s
      ensures forall w: bool | old(EmptySuspends(w)) ::
                EmptySuspends(w) <==> cfg.None? || BW in old(Of(w)).suspended || !old(WrapsAt(w, tick))
    {
      if !limited || cfg.None? {
        return;
      }
      UpdateBuckets(tick);
      var again1 := Release(false);
      var again2 := Release(true);
      if again1 || again2 {
        refillPending := true;
      }
    }

    /** The part of _bev_refill_callback for one side */
    method Release(isWrite: bool) returns (again: bool)
      requires BackendOk()
      modifies this`read, this`write
      ensures BackendOk() && KeepsSettled() && Of(!isWrite) == old(Of(!isWrite))
      ensures Of(isWrite).limit == old(Of(isWrite)).limit
      ensures var s := old(Of(isWrite));
              Of(isWrite) == if BW in s.suspended && 0 < s.limit then Resumed(s) else s
      ensures again <==> BW in Of(isWrite).suspended
    {
      again := false;
      if BW in Of(isWrite).suspended {
        if 0 < Of(isWrite).limit {
          Unsuspend(isWrite, BW);
        } else {
          again := true;
        }
      }
    }

    /** bufferevent_set_rate_limit.  The same object again changes nothing; an equal one
        is a change like any other. */
    method SetRateLimit(c: Option<Cfg>, tick: int)
      requires Valid() && (c.Some? ==> c.value.Valid())
      // one object has one content
      requires c.Some? && cfg.Some? && c.value.addr == cfg.value.addr ==> c == cfg
      modifies this
      ensures Valid() && KeepsSettled() && cfg == c
      ensures c.None? ==> forall w: bool :: Of(w) == if old(limited) then Resumed(old(Of(w))) else old(Of(w))
      ensures c.Some? && c == old(cfg) ==> unchanged(this)
      ensures c.None? || c != old(cfg) ==> forall w: bool :: EmptySuspends(w)
      ensures c.Some? && c != old(cfg) ==>
                && lastUpdated == (if old(cfg).Some? then old(lastUpdated) else tick)
                && forall w: bool :: Of(w) == Throttled(old(Of(w)), old(cfg), c.value.Of(w))
    {
      if c.None? {
        RemoveRateLimit();
      } else if !(limited && cfg.Some? && cfg.value.addr == c.value.addr) {
        ChangeRateLimit(c.value, tick);
      }
    }

    /** bufferevent_set_rate_limit with another configuration */
    method ChangeRateLimit(c: Cfg, tick: int)
      requires Valid() && c.Valid()
      modifies this
      ensures Valid() && KeepsSettled() && cfg == Some(c) && limited
      ensures lastUpdated == if old(cfg).Some? then old(lastUpdated) else tick
      ensures forall w: bool :: Of(w) == Throttled(old(Of(w)), old(cfg), c.Of(w))
    {
      limited := true;
      var reinit := cfg.Some?;
      cfg := Some(c);
      var b := new TokenBucket;
      b.readLimit, b.writeLimit, b.lastUpdated := read.limit, write.limit, lastUpdated;
      b.Init(c, tick, reinit);
      read, write, lastUpdated := read.(limit := b.readLimit), write.(limit := b.writeLimit), b.lastUpdated;
      if reinit {
        refillPending := false;
      }
      var suspended1 := Resume(false);
      var suspended2 := Resume(true);
      if suspended1 || suspended2 {
        refillPending := true;
      }
    }

    /** bufferevent_set_rate_limit without a configuration */
    method RemoveRateLimit()
      requires Valid()
      modifies this
      ensures Valid() && KeepsSettled() && cfg == None && limited == old(limited) && lastUpdated == old(lastUpdated)
      ensures forall w: bool :: Of(w) == if limited then Resumed(old(Of(w))) else old(Of(w))
    {
      if limited {
        cfg := None;
        Unsuspend(false, BW);
        Unsuspend(true, BW);
        refillPending := false;
      }
    }

    /** The end of bufferevent_set_rate_limit, for one side */
    method Resume(isWrite: bool) returns (suspended: bool)
      requires BackendOk()
      modifies this`read, this`write
      ensures BackendOk() && Of(isWrite).Settled() && Of(!isWrite) == old(Of(!isWrite))
      ensures var s := old(Of(isWrite)); Of(isWrite) == if s.limit <= 0 then Paused(s) else Resumed(s)
      ensures suspended <==> BW in Of(isWrite).suspended
      ensures suspended <==> Of(isWrite).limit <= 0
    {
      suspended := Of(isWrite).limit <= 0;
      if suspended {
        Suspend(isWrite, BW);
      } else {
        Unsuspend(isWrite, BW);
      }
    }
  }

  lemma LimitAfterUpdate(limit: int, r: Rate, last: int, tick: int)
    requires IsSsize(limit) && r.Valid()
    ensures var l := UpdatedLimit(limit, r, last, tick);
            && (0 < limit ==> (l <= 0 <==> Elapsed(last, tick) && Wraps(limit, r, NTicks(last, tick))))
            && (limit <= 0 ==> limit <= l)
  {
    if Elapsed(last, tick) {
      BucketLaw(limit, r, NTicks(last, tick));
      if 0 < limit {
        EmptiedByRefill(limit, r, NTicks(last, tick));
      }
    }
  }

  // ----- groups

  /** struct bufferevent_rate_limit_group, reading only: which members the group has
      suspended (BEV_SUSPEND_BW_GROUP) */
  class Group {
    var members: seq<bool>
    var suspended: bool        // read_suspended
    var pending: bool          // pending_unsuspend_read
    var limit: int             // rate_limit.read_limit
    var minShare: int

    /** No member stays suspended for the group without the group being suspended, or
        set to try again. */
    ghost predicate Valid()
      reads this
    {
      && (!suspended && !pending ==> forall i | 0 <= i < |members| :: !members[i])
      && (pending ==> !suspended)
      && (limit <= 0 && 1 <= minShare ==> suspended) && 0 <= minShare
    }

    /** _bev_group_suspend_reading.  free says which members' locks can be taken now; the
        others will find out. */
    method Suspend(free: set<nat>)
      requires 0 <= minShare
      modifies this`members, this`suspended, this`pending
      ensures Valid() && suspended && !pending && |members| == |old(members)|
      ensures forall i | 0 <= i < |members| :: members[i] == (old(members)[i] || i in free)
    {
      suspended, pending := true, false;
      var i := 0;
      while i < |members|
        invariant i <= |members| == |old(members)| && suspended && !pending
        invariant forall j | 0 <= j < |members| :: members[j] == (old(members)[j] || (j < i && j in free))
      {
        if i in free {
          members := members[i := true];
        }
        i := i + 1;
      }
    }

    /** _bev_group_unsuspend_reading, which starts with any member and goes round once */
    method Unsuspend(free: set<nat>)
      requires 0 <= minShare && (1 <= minShare ==> 0 < limit)
      modifies this`members, this`suspended, this`pending
      ensures Valid() && !suspended && Released(old(members), members, free)
      ensures pending <==> SomeLocked(0, |members|, free)
    {
      suspended := false;
      var first: nat := *;
      first := if members == [] then 0 else first % |members|;
      var again1 := UnsuspendRange(first, |members|, free);
      var again2 := UnsuspendRange(0, first, free);
      pending := again1 || again2;
    }

    /** The members whose locks are free are not suspended for the group any more. */
    static ghost predicate Released(a: seq<bool>, b: seq<bool>, free: set<nat>) {
      |b| == |a| && forall i | 0 <= i < |a| :: b[i] == (a[i] && i !in free)
    }

    static ghost predicate SomeLocked(from: nat, end: nat, free: set<nat>) {
      exists i | from <= i < end :: i !in free
    }

    method UnsuspendRange(from: nat, end: nat, free: set<nat>) returns (again: bool)
      requires from <= end <= |members|
      modifies this`members
      ensures |members| == |old(members)|
      ensures forall j | 0 <= j < |members| ::
                members[j] == (old(members)[j] && !(from <= j < end && j in free))
      ensures again <==> SomeLocked(from, end, free)
    {
      again := false;
      var i := from;
      while i < end
        invariant from <= i <= end && |members| == |old(members)|
        invariant forall j | 0 <= j < |members| :: members[j] == (old(members)[j] && !(from <= j < i && j in free))
        invariant again <==> SomeLocked(from, i, free)
      {
        if i in free {
          members := members[i := false];
        } else {
          again := true;
        }
        i := i + 1;
      }
    }

    /** The part of _bufferevent_decrement_read_buckets that concerns the group */
    method Decrement(bytes: int, free: set<nat>)
      requires Valid()
      modifies this`members, this`suspended, this`pending, this`limit
      ensures Valid() && limit == old(limit) - bytes && (suspended <==> limit <= 0)
      ensures 0 < limit && !old(suspended) ==> members == old(members) && pending == old(pending)
      ensures 0 < limit && old(suspended) ==>
                Released(old(members), members, free) && (pending <==> SomeLocked(0, |members|, free))
    {
      limit := limit - bytes;
      if limit <= 0 {
        Suspend(free);
      } else if suspended {
        Unsuspend(free);
      }
    }

    /** The part of _bufferevent_get_rlim_max that concerns the group: the share of a
        member, which finds out here that the group is suspended. */
    method Share(i: nat) returns (share: int)
      requires Valid() && i < |members|
      modifies this`members
      ensures Valid() && |members| == |old(members)| && (suspended ==> share == 0 && members[i])
      ensures !suspended ==> members == old(members) && minShare <= share
      ensures !suspended ==> share == minShare || (share * |members| <= limit < (share + 1) * |members|)
                             || (limit < 0 && (share - 1) * |members| < limit <= share * |members|)
      ensures !suspended && share == minShare ==> limit < (share + 1) * |members|
    {
      if suspended {
        members := members[i := true];
        return 0;
      }
      share := Quotient(limit, |members|);
      if share < minShare {
        share := minShare;
      }
    }

    /** _bev_group_refill_callback, with the refilled limit */
    method RefillCallback(refilled: int, free: set<nat>)
      requires Valid() && limit <= refilled
      modifies this`members, this`suspended, this`pending, this`limit
      ensures Valid() && limit == refilled
      ensures minShare <= refilled ==> !suspended
      ensures if old(pending) || (old(suspended) && minShare <= refilled)
              then !suspended && Released(old(members), members, free) && (pending <==> SomeLocked(0, |members|, free))
              else members == old(members) && suspended == old(suspended) && pending == old(pending)
    {
      limit := refilled;
      if pending || (suspended && minShare <= limit) {
        Unsuspend(free);
      }
    }
  }

  lemma Divided(a: nat, n: int)
    requires 0 < n
    ensures var q := a / n; 0 <= q && q * n <= a < (q + 1) * n && (-q) * n == -(q * n) && (-q - 1) * n == -((q + 1) * n)
  {
    var q := a / n;
    assert a == n * q + a % n;
    assert (q + 1) * n == q * n + n;
  }

  /** Division of C, which truncates */
  function Quotient(a: int, n: int): (q: int)
    requires 0 < n
    ensures 0 <= a ==> 0 <= q && q * n <= a < (q + 1) * n
    ensures a < 0 ==> q <= 0 && (q - 1) * n < a <= q * n
  {
    if 0 <= a then
      Divided(a, n);
      a / n
    else
      Divided(-a, n);
      -(-a / n)
  }
}
