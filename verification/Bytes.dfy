/** Bytes, and the concatenation of a sequence of byte strings. */
module Bytes {

  type byte = x: int | 0 <= x < 256

  function Flat(ss: seq<seq<byte>>): seq<byte> {
    if ss == [] then [] else ss[0] + Flat(ss[1..])
  }

  lemma Halves<T>(s: seq<T>, i: nat)
    requires i <= |s|
    ensures s[..i] + s[i..] == s
  {}

  lemma Around<T>(s: seq<T>, i: nat)
    requires i < |s|
    ensures s[..i] + [s[i]] + s[i + 1..] == s
  {}

  lemma Assoc<T>(a: seq<T>, b: seq<T>, c: seq<T>)
    ensures a + (b + c) == a + b + c
  {}

  lemma AssocFirst<T>(a: seq<T>, b: seq<T>, c: seq<T>)
    ensures [] + (a + b) + c == a + ([] + b + c)
  {}

  lemma TakeDrop<T>(a: seq<T>, b: seq<T>, n: nat)
    requires n <= |b|
    ensures a + b[..n] + b[n..] == a + b
  {}

  lemma {:induction false} FlatAppend(a: seq<seq<byte>>, b: seq<seq<byte>>)
    ensures Flat(a + b) == Flat(a) + Flat(b)
  {
    if a == [] {
      assert a + b == b;
    } else {
      assert (a + b)[1..] == a[1..] + b;
      FlatAppend(a[1..], b);
    }
  }

  lemma FlatOne(s: seq<byte>)
    ensures Flat([s]) == s
  {
    assert [s][1..] == [];
  }

  lemma FlatConcat(a: seq<seq<byte>>, s: seq<byte>, b: seq<seq<byte>>)
    ensures Flat(a + [s] + b) == Flat(a) + s + Flat(b)
  {
    FlatAppend(a + [s], b);
    FlatAppend(a, [s]);
    FlatOne(s);
  }

  /** The string at index i of ss, with what precedes and what follows it. */
  lemma FlatAt(ss: seq<seq<byte>>, i: nat)
    requires i < |ss|
    ensures Flat(ss) == Flat(ss[..i]) + ss[i] + Flat(ss[i + 1..])
  {
    hide Flat;
    Around(ss, i);
    FlatConcat(ss[..i], ss[i], ss[i + 1..]);
  }

  lemma FlatSplit(ss: seq<seq<byte>>, i: nat)
    requires i <= |ss|
    ensures Flat(ss) == Flat(ss[..i]) + Flat(ss[i..])
  {
    hide Flat;
    Halves(ss, i);
    FlatAppend(ss[..i], ss[i..]);
  }

  lemma {:induction false} FlatEmpty(ss: seq<seq<byte>>)
    requires forall i | 0 <= i < |ss| :: ss[i] == []
    ensures Flat(ss) == []
  {
    if ss != [] {
      FlatEmpty(ss[1..]);
    }
  }

  lemma {:induction false} FlatNonempty(ss: seq<seq<byte>>)
    requires Flat(ss) == []
    ensures forall i | 0 <= i < |ss| :: ss[i] == []
  {
    if ss != [] {
      FlatNonempty(ss[1..]);
    }
  }

  lemma FlatElementLength(ss: seq<seq<byte>>, i: nat)
    requires i < |ss|
    ensures |ss[i]| <= |Flat(ss)|
  {
    FlatAt(ss, i);
  }

  lemma FlatTakeMore(ss: seq<seq<byte>>, k: nat)
    requires k < |ss|
    ensures Flat(ss[..k + 1]) == Flat(ss[..k]) + ss[k]
    ensures |Flat(ss[..k + 1])| <= |Flat(ss)|
  {
    hide Flat;
    FlatAppend(ss[..k], [ss[k]]);
    FlatOne(ss[k]);
    assert ss[..k] + [ss[k]] == ss[..k + 1];
    FlatSplit(ss, k + 1);
  }

  lemma SplitAfter<T>(a: seq<T>, b: seq<T>, c: seq<T>, n: nat)
    requires n <= |b|
    ensures (a + b + c)[..|a| + n] == a + b[..n]
    ensures (a + b + c)[|a| + n..] == b[n..] + c
  {}

  /** Cutting the concatenation n bytes into string k. */
  lemma FlatCut(ss: seq<seq<byte>>, k: nat, n: nat)
    requires k < |ss| && n <= |ss[k]|
    ensures |Flat(ss[..k])| + n <= |Flat(ss)|
    ensures Flat(ss)[..|Flat(ss[..k])| + n] == Flat(ss[..k]) + ss[k][..n]
    ensures Flat(ss)[|Flat(ss[..k])| + n..] == Flat(ss[k..][0 := ss[k][n..]])
  {
    hide Flat;
    FlatAt(ss, k);
    SplitAfter(Flat(ss[..k]), ss[k], Flat(ss[k + 1..]), n);
    FlatAppend([ss[k][n..]], ss[k + 1..]);
    FlatOne(ss[k][n..]);
    assert ss[k..][0 := ss[k][n..]] == [ss[k][n..]] + ss[k + 1..];
  }

  /** The index of the first string that is not within the first n bytes. */
  ghost function Uncovered(ss: seq<seq<byte>>, n: nat): (k: nat)
    requires n < |Flat(ss)|
    ensures k < |ss| && |Flat(ss[..k])| <= n < |Flat(ss[..k])| + |ss[k]|
  {
    if n < |ss[0]| then 0
    else
      var k := 1 + Uncovered(ss[1..], n - |ss[0]|);
      assert ss[..k][1..] == ss[1..][..k - 1];
      k
  }

  lemma {:induction false} UncoveredIs(ss: seq<seq<byte>>, n: nat, k: nat)
    requires k < |ss| && |Flat(ss[..k])| <= n < |Flat(ss[..k])| + |ss[k]|
    ensures n < |Flat(ss)| && k == Uncovered(ss, n)
  {
    FlatTakeMore(ss, k);
    if k != 0 {
      assert ss[..k][1..] == ss[1..][..k - 1] && ss[..k][0] == ss[0];
      UncoveredIs(ss[1..], n - |ss[0]|, k - 1);
    }
  }
}
