/** Optional values, and lists in which nothing occurs twice. */
module Lists {

  datatype Option<T> = None | Some(value: T)

  ghost predicate NoDup<T>(s: seq<T>) {
    forall i, j | 0 <= i < j < |s| :: s[i] != s[j]
  }

  /** s without the first e: what unlinking an element of a list does */
  function Remove(s: seq<nat>, e: nat): (t: seq<nat>)
    requires e in s
    ensures |t| == |s| - 1
  {
    if s[0] == e then s[1..] else [s[0]] + Remove(s[1..], e)
  }

  lemma {:induction false} RemoveFacts(s: seq<nat>, e: nat)
    requires e in s && NoDup(s)
    ensures NoDup(Remove(s, e)) && forall x :: x in Remove(s, e) <==> x in s && x != e
  {
    if s[0] == e {
      assert forall x :: x in s[1..] <==> x in s && x != e;
    } else {
      RemoveFacts(s[1..], e);
      assert s[0] !in s[1..];
      assert s == [s[0]] + s[1..];
      PrependNoDup(s[0], Remove(s[1..], e));
    }
  }

  lemma PrependNoDup(e: nat, s: seq<nat>)
    requires NoDup(s) && e !in s
    ensures NoDup([e] + s) && forall x :: x in [e] + s <==> x == e || x in s
  {}

  lemma AppendNoDup(s: seq<nat>, e: nat)
    requires NoDup(s) && e !in s
    ensures NoDup(s + [e]) && forall x :: x in s + [e] <==> x == e || x in s
  {}
}
