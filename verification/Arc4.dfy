/** The random numbers of arc4random.c: the cipher state, and numbers below a bound
    without bias. */
module Arc4 {
  import opened Bytes
  import opened Lists

  const WORD_RANGE: int := 0x1_0000_0000

  // ----- the cipher state

  /** Sum of unsigned chars */
  function Plus(a: int, b: int): byte {
    (a + b) % 256
  }

  function Minus(a: int, b: int): byte {
    (a - b) % 256
  }

  lemma PlusMinus(a: byte, b: byte)
    ensures Minus(Plus(a, b), b) == a
  {}

  /** struct arc4_stream, as a value */
  datatype State = State(i: byte, j: byte, s: seq<byte>)

  /** All bytes, each once */
  ghost predicate Permutation(s: seq<byte>) {
    |s| == 256 && forall a, b | 0 <= a < b < 256 :: s[a] != s[b]
  }

  function Swapped(s: seq<byte>, a: byte, b: byte): (t: seq<byte>)
    requires |s| == 256
    ensures |t| == 256
  {
    s[a := s[b]][b := s[a]]
  }

  lemma SwapKeeps(s: seq<byte>, a: byte, b: byte)
    requires Permutation(s)
    ensures Permutation(Swapped(s, a, b))
  {}

  lemma SwapTwice(s: seq<byte>, a: byte, b: byte)
    requires |s| == 256
    ensures Swapped(Swapped(s, a, b), a, b) == s
  {}

  /** The state after arc4_getbyte, or after one turn of arc4_addrandom with an extra byte */
  function Stepped(st: State, extra: byte): State
    requires |st.s| == 256
  {
    var i := Plus(st.i, 1);
    var j := Plus(Plus(st.j, st.s[i]), extra);
    State(i, j, Swapped(st.s, i, j))
  }

  /** One turn, as the code has it: i goes on by one, j by the byte there and the extra
      one, and the bytes at both change places. */
  lemma TurnIs(st: State, extra: byte)
    requires |st.s| == 256
    ensures var t := Stepped(st, extra);
            && t.i == (st.i + 1) % 256 && t.j == (st.j + st.s[t.i] + extra) % 256
            && t.s[t.i] == st.s[t.j] && t.s[t.j] == st.s[t.i]
            && forall k: byte | k != t.i && k != t.j :: t.s[k] == st.s[k]
  {
    var i := Plus(st.i, 1);
    PlusThree(st.j, st.s[i], extra);
    assert i == (st.i + 1) % 256;
    hide Plus, Swapped;
    SwapIs(st.s, i, Stepped(st, extra).j);
  }

  lemma PlusThree(a: byte, b: byte, c: byte)
    ensures Plus(Plus(a, b), c) == (a + b + c) % 256
  {}

  lemma SwapIs(s: seq<byte>, a: byte, b: byte)
    requires |s| == 256
    ensures var t := Swapped(s, a, b);
            t[a] == s[b] && t[b] == s[a] && forall k: byte | k != a && k != b :: t[k] == s[k]
  {}

  /** The state before that */
  function Back(st: State, extra: byte): State
    requires |st.s| == 256
  {
    var s := Swapped(st.s, st.i, st.j);
    State(Minus(st.i, 1), Minus(Minus(st.j, extra), s[st.i]), s)
  }

  /** No step forgets anything: the state before it can be computed from the state after
      it.  Different states stay different for ever. */
  lemma Reversible(st: State, extra: byte)
    requires |st.s| == 256
    ensures Back(Stepped(st, extra), extra) == st
  {
    hide Plus, Minus, Swapped;
    var next := Stepped(st, extra);
    SwapTwice(st.s, next.i, next.j);
    PlusMinus(st.i, 1);
    PlusMinus(Plus(st.j, st.s[next.i]), extra);
    PlusMinus(st.j, st.s[next.i]);
  }

  /** The state after a turn of arc4_addrandom for each of the first n positions */
  function Mixed(st: State, dat: seq<byte>, n: nat): (r: State)
    requires |st.s| == 256 && dat != []
    ensures |r.s| == 256
  {
    if n == 0 then st else Stepped(Mixed(st, dat, n - 1), dat[(n - 1) % |dat|])
  }

  lemma SteppedKeeps(st: State, extra: byte)
    requires Permutation(st.s)
    ensures Permutation(Stepped(st, extra).s) && Stepped(st, extra).i == Plus(st.i, 1)
  {
    SwapKeeps(st.s, Stepped(st, extra).i, Stepped(st, extra).j);
  }

  lemma {:induction false} MixedFacts(st: State, dat: seq<byte>, n: nat)
    requires |st.s| == 256 && Permutation(st.s) && dat != []
    ensures Permutation(Mixed(st, dat, n).s) && Mixed(st, dat, n).i == Plus(st.i, n)
  {
    hide Permutation, Stepped, Plus;
    PlusFacts(st.i, n);
    if n != 0 {
      MixedFacts(st, dat, n - 1);
      SteppedKeeps(Mixed(st, dat, n - 1), dat[(n - 1) % |dat|]);
    }
  }

  /** Every byte of the data matters: data that differ in one byte lead to different states
      after as many turns. */
  lemma {:induction false} EveryByteMatters(st: State, d1: seq<byte>, d2: seq<byte>, k: nat, n: nat)
    requires |st.s| == 256 && k < n <= |d1| == |d2| && d1[k] != d2[k]
    requires forall m | 0 <= m < n && m != k :: d1[m] == d2[m]
    ensures Mixed(st, d1, n) != Mixed(st, d2, n)
  {
    hide Mixed, Stepped, Back;
    MixedStep(st, d1, n);
    MixedStep(st, d2, n);
    if n - 1 == k {
      SameSoFar(st, d1, d2, k);
      OtherByte(Mixed(st, d1, k), d1[k], d2[k]);
    } else {
      EveryByteMatters(st, d1, d2, k, n - 1);
      Reversible(Mixed(st, d1, n - 1), d1[n - 1]);
      Reversible(Mixed(st, d2, n - 1), d2[n - 1]);
    }
  }

  lemma MixedStep(st: State, dat: seq<byte>, n: nat)
    requires |st.s| == 256 && 0 < n <= |dat|
    ensures Mixed(st, dat, n) == Stepped(Mixed(st, dat, n - 1), dat[n - 1])
  {
    hide Stepped;
    assert (n - 1) % |dat| == n - 1;
  }

  lemma OtherByte(st: State, a: byte, b: byte)
    requires |st.s| == 256 && a != b
    ensures Stepped(st, a) != Stepped(st, b)
  {
    hide Plus, Swapped;
    var y := Plus(st.j, st.s[Plus(st.i, 1)]);
    PlusOther(y, a, b);
    assert Stepped(st, a).j == Plus(y, a) && Stepped(st, b).j == Plus(y, b);
  }

  lemma PlusOther(y: byte, a: byte, b: byte)
    requires a != b
    ensures Plus(y, a) != Plus(y, b)
  {}

  lemma {:induction false} SameSoFar(st: State, d1: seq<byte>, d2: seq<byte>, n: nat)
    requires |st.s| == 256 && d1 != [] && n <= |d1| == |d2| && forall m | 0 <= m < n :: d1[m] == d2[m]
    ensures Mixed(st, d1, n) == Mixed(st, d2, n)
  {
    hide Mixed, Stepped;
    if n != 0 {
      MixedStep(st, d1, n);
      MixedStep(st, d2, n);
      SameSoFar(st, d1, d2, n - 1);
    } else {
      NothingMixed(st, d1);
      NothingMixed(st, d2);
    }
  }

  lemma NothingMixed(st: State, dat: seq<byte>)
    requires |st.s| == 256 && dat != []
    ensures Mixed(st, dat, 0) == st
  {}

  lemma PlusFacts(i: byte, n: nat)
    ensures Plus(i, 0) == i && (n != 0 ==> Plus(Plus(i, n - 1), 1) == Plus(i, n))
    ensures Plus(Plus(i, 255), 256) == Plus(i, 255)
  {}

  class Arc4Stream {
    var i: byte
    var j: byte
    const s: array<byte>

    ghost predicate Valid()
      reads this, s
    {
      s.Length == 256 && Permutation(s[..])
    }

    ghost function Value(): State
      reads this, s
    {
      State(i, j, s[..])
    }

    /** arc4_init */
    constructor ()
      ensures Valid() && fresh(s) && i == 0 && j == 0
    {
      i, j := 0, 0;
      s := new byte[256](n => n % 256);
    }

    /** One turn of arc4_addrandom, or the first part of arc4_getbyte */
    method Turn(extra: byte)
      requires Valid()
      modifies this, s
      ensures Valid() && Value() == Stepped(old(Value()), extra)
    {
      SteppedKeeps(Value(), extra);
      hide Permutation;
      ghost var st := Value();
      i := Plus(i, 1);
      var si := s[i];
      j := Plus(Plus(j, si), extra);
      s[i] := s[j];
      s[j] := si;
      assert s[..] == Swapped(st.s, i, j);
    }

    /** arc4_addrandom */
    method AddRandom(dat: seq<byte>)
      requires Valid() && dat != []
      modifies this, s
      ensures Valid() && i == Plus(old(i), 255) && j == i
      ensures var st := old(Value()); s[..] == Mixed(st.(i := Plus(st.i, 255)), dat, 256).s
    {
      hide Permutation, Stepped, Plus;
      ghost var start := Value().(i := Plus(i, 255));
      PlusFacts(i, 0);
      i := Plus(i, 255);
      var n := 0;
      while n < 256
        invariant n <= 256 && Valid() && Value() == Mixed(start, dat, n)
      {
        Turn(dat[n % |dat|]);
        n := n + 1;
      }
      MixedFacts(start, dat, 256);
      j := i;
    }

    /** arc4_getbyte */
    method GetByte() returns (b: byte)
      requires Valid()
      modifies this, s
      ensures Valid() && Value() == Stepped(old(Value()), 0)
      ensures b == s[Plus(s[i], s[j])]
    {
      Turn(0);
      b := s[Plus(s[i], s[j])];   // si and sj have changed places
    }
  }

  // ----- arc4random_uniform

  /** The bound below which a draw is thrown away, in 32-bit arithmetic */
  function MinDraw(u: int): int
    requires 2 <= u < WORD_RANGE
  {
    if u > 0x8000_0000 then (1 + (WORD_RANGE - 1 - u)) % WORD_RANGE
    else (0xffff_ffff - u * 2 % WORD_RANGE + 1) % WORD_RANGE % u
  }

  /** Without 64-bit arithmetic it is 2^32 modulo the bound, and less than half of all
      draws are thrown away. */
  lemma MinIsRemainder(u: int)
    requires 2 <= u < WORD_RANGE
    ensures MinDraw(u) == WORD_RANGE % u && 2 * MinDraw(u) < WORD_RANGE
  {
    if u > 0x8000_0000 {
      DivisionIs(WORD_RANGE, u, 1, WORD_RANGE - u);
    } else if u == 0x8000_0000 {
      DivisionIs(WORD_RANGE, u, 2, 0);
      DivisionIs(0, u, 0, 0);
    } else {
      SmallBound(u);
    }
  }

  lemma SmallBound(u: int)
    requires 2 <= u < 0x8000_0000
    ensures MinDraw(u) == WORD_RANGE % u < 0x8000_0000
  {
    DivisionIs(2 * u, WORD_RANGE, 0, 2 * u);
    DivisionIs(WORD_RANGE - 2 * u, WORD_RANGE, 0, WORD_RANGE - 2 * u);
    Subtract(WORD_RANGE - 2 * u, u, 2);
  }

  lemma {:induction false} Subtract(a: int, u: int, k: nat)
    requires 0 < u
    ensures (a + k * u) % u == a % u
  {
    if k != 0 {
      Subtract(a, u, k - 1);
      AddOnce(a + (k - 1) * u, u);
    }
  }

  lemma AddOnce(x: int, u: int)
    requires 0 < u
    ensures (x + u) % u == x % u
  {
    var q, r := x / u, x % u;
    assert x + u == (q + 1) * u + r;
    DivisionIs(x + u, u, q + 1, r);
  }

  lemma DivisionIs(x: int, u: int, q: int, r: int)
    requires 0 <= r < u && x == q * u + r
    ensures x / u == q && x % u == r
  {
    var q', r' := x / u, x % u;
    assert x == q' * u + r';
    assert (q - q') * u == r' - r;
    ProductBound(q - q', u);
  }

  lemma ProductBound(d: int, u: int)
    requires 0 < u
    ensures (1 <= d ==> u <= d * u) && (d <= -1 ==> d * u <= -u)
  {
    if 1 <= d {
      assert 0 <= (d - 1) * u;
    }
    if d <= -1 {
      assert 0 <= (-1 - d) * u;
    }
  }

  /** The draws from lo to below hi that give the residue k */
  function Preimages(lo: int, hi: int, u: int, k: int): nat
    requires 0 < u
    decreases hi - lo
  {
    if hi <= lo then 0 else Preimages(lo, hi - 1, u, k) + if (hi - 1) % u == k then 1 else 0
  }

  lemma {:induction false} PreimagesSplit(lo: int, mid: int, hi: int, u: int, k: int)
    requires 0 < u && lo <= mid <= hi
    ensures Preimages(lo, hi, u, k) == Preimages(lo, mid, u, k) + Preimages(mid, hi, u, k)
    decreases hi - mid
  {
    if mid < hi {
      PreimagesSplit(lo, mid, hi - 1, u, k);
    }
  }

  /** Of numbers in a row, as many as the bound at most, one gives k, if it is reached. */
  lemma {:induction false} OneInARow(lo: int, n: nat, u: int, k: int)
    requires 0 <= k < u && n <= u
    ensures Preimages(lo, lo + n, u, k) == if (k - lo) % u < n then 1 else 0
  {
    if n != 0 {
      OneInARow(lo, n - 1, u, k);
      Hits(lo, n - 1, u, k);
    }
  }

  lemma Hits(lo: int, d: nat, u: int, k: int)
    requires 0 <= k < u && d < u
    ensures (lo + d) % u == k <==> (k - lo) % u == d
  {
    if (lo + d) % u == k {
      var q := (lo + d) / u;
      assert lo + d == q * u + k;
      assert k - lo == (-q) * u + d;
      DivisionIs(k - lo, u, -q, d);
    }
    if (k - lo) % u == d {
      var q := (k - lo) / u;
      assert k - lo == q * u + d;
      assert lo + d == (-q) * u + k;
      DivisionIs(lo + d, u, -q, k);
    }
  }

  lemma {:induction false} BlocksOfBound(lo: int, m: nat, u: int, k: int)
    requires 0 <= k < u
    ensures Preimages(lo, lo + m * u, u, k) == m
  {
    if m != 0 {
      BlocksOfBound(lo, m - 1, u, k);
      OneInARow(lo + (m - 1) * u, u, u, k);
      PreimagesSplit(lo, lo + (m - 1) * u, lo + (m - 1) * u + u, u, k);
      assert (m - 1) * u + u == m * u;
    }
  }

  /** Every result has the same number of draws that lead to it. */
  lemma Unbiased(u: int, k: int)
    requires 2 <= u < WORD_RANGE && 0 <= k < u
    ensures Preimages(MinDraw(u), WORD_RANGE, u, k) == (WORD_RANGE - MinDraw(u)) / u
  {
    MinIsRemainder(u);
    var m := WORD_RANGE / u;
    assert WORD_RANGE == m * u + MinDraw(u);
    BlocksOfBound(MinDraw(u), m, u, k);
    DivisionIs(WORD_RANGE - MinDraw(u), u, m, 0);
  }

  /** arc4random_uniform, on the draws that arc4random is going to give; None if they run
      out before one is good */
  method Uniform(u: int, draws: seq<nat>) returns (r: Option<int>)
    requires 0 <= u < WORD_RANGE
    ensures u < 2 ==> r == Some(0)
    ensures 2 <= u && r == None ==> forall i | 0 <= i < |draws| :: draws[i] < WORD_RANGE % u
    ensures 2 <= u && r.Some? ==>
              exists i :: 0 <= i < |draws| && WORD_RANGE % u <= draws[i] && r.value == draws[i] % u
                          && forall j | 0 <= j < i :: draws[j] < WORD_RANGE % u
  {
    if u < 2 {
      return Some(0);
    }
    var min;
    if u > 0x8000_0000 {
      min := (1 + (WORD_RANGE - 1 - u)) % WORD_RANGE;
    } else {
      min := (0xffff_ffff - u * 2 % WORD_RANGE + 1) % WORD_RANGE % u;
    }
    MinIsRemainder(u);
    var n := 0;
    while n < |draws|
      invariant n <= |draws| && forall j | 0 <= j < n :: draws[j] < min
    {
      if min <= draws[n] {
        return Some(draws[n] % u);
      }
      n := n + 1;
    }
    r := None;
  }
}
