/** The circular list of nameservers of evdns.c and how one is chosen. */
module DnsServers {
  import opened Lists

  /** struct nameserver: state is true while the server is believed to work. */
  datatype Server = Server(state: bool, choked: bool, failedTimes: nat)

  type Servers = map<nat, Server>

  predicate IsGood(servers: Servers, s: nat) {
    s in servers && servers[s].state
  }

  /** The good servers, in the order of the ring, which begins at server_head */
  function GoodOf(ring: seq<nat>, servers: Servers): seq<nat> {
    if ring == [] then []
    else (if IsGood(servers, ring[0]) then [ring[0]] else []) + GoodOf(ring[1..], servers)
  }

  function Rotate<T>(s: seq<T>): (r: seq<T>)
    ensures |r| == |s|
  {
    if s == [] then [] else s[1..] + [s[0]]
  }

  lemma {:induction false} GoodAppend(a: seq<nat>, b: seq<nat>, servers: Servers)
    ensures GoodOf(a + b, servers) == GoodOf(a, servers) + GoodOf(b, servers)
  {
    if a == [] {
      assert a + b == b;
    } else {
      assert (a + b)[1..] == a[1..] + b;
      GoodAppend(a[1..], b, servers);
    }
  }

  lemma {:induction false} GoodIn(ring: seq<nat>, servers: Servers)
    ensures |GoodOf(ring, servers)| <= |ring|
    ensures forall s :: s in GoodOf(ring, servers) <==> s in ring && IsGood(servers, s)
  {
    if ring != [] {
      GoodIn(ring[1..], servers);
    }
  }

  lemma {:induction false} GoodNoDup(ring: seq<nat>, servers: Servers)
    requires NoDup(ring)
    ensures NoDup(GoodOf(ring, servers))
  {
    if ring != [] {
      GoodNoDup(ring[1..], servers);
      GoodIn(ring[1..], servers);
      var g := GoodOf(ring[1..], servers);
      assert ring[0] !in ring[1..];
      if IsGood(servers, ring[0]) {
        forall i, j | 0 <= i < j < |[ring[0]] + g| ensures ([ring[0]] + g)[i] != ([ring[0]] + g)[j] {
          assert g[j - 1] in g;
        }
      }
    }
  }

  /** Passing over a server that is not good does not change the good ones; passing over
      a good one makes it the last. */
  lemma GoodRotate(ring: seq<nat>, servers: Servers)
    requires ring != []
    ensures GoodOf(Rotate(ring), servers) ==
            if IsGood(servers, ring[0]) then Rotate(GoodOf(ring, servers)) else GoodOf(ring, servers)
  {
    GoodAppend(ring[1..], [ring[0]], servers);
    assert [ring[0]][1..] == [];
    var g := GoodOf(ring[1..], servers);
    if IsGood(servers, ring[0]) {
      assert ([ring[0]] + g)[1..] == g;
    } else {
      assert g + [] == g;
    }
  }

  /** A server changes its state. */
  lemma {:induction false} GoodAfterChange(ring: seq<nat>, servers: Servers, s: nat, v: Server)
    requires NoDup(ring) && s in servers
    ensures |GoodOf(ring, servers[s := v])| ==
            |GoodOf(ring, servers)|
              + (if s in ring && v.state && !servers[s].state then 1 else 0)
              - (if s in ring && !v.state && servers[s].state then 1 else 0)
  {
    if ring != [] {
      GoodAfterChange(ring[1..], servers, s, v);
      assert ring[0] !in ring[1..];
      assert IsGood(servers[s := v], ring[0]) == if ring[0] == s then v.state else IsGood(servers, ring[0]);
    }
  }

  lemma {:induction false} GoodOfMore(ring: seq<nat>, servers: Servers, s: nat, v: Server)
    requires s !in ring
    ensures GoodOf(ring, servers[s := v]) == GoodOf(ring, servers)
  {
    if ring != [] {
      GoodOfMore(ring[1..], servers, s, v);
    }
  }

  /** The servers are those of the ring, and the count of good ones is exact. */
  ghost predicate RingOk(ring: seq<nat>, servers: Servers, good: int) {
    NoDup(ring) && (forall s :: s in ring <==> s in servers) && good == |GoodOf(ring, servers)|
  }

  function RotateBy<T>(a: seq<T>, i: nat): seq<T>
    requires i <= |a|
  {
    a[i..] + a[..i]
  }

  /** b is a with its beginning moved to the end. */
  ghost predicate IsRotation<T>(a: seq<T>, b: seq<T>) {
    exists i: nat :: i <= |a| && b == RotateBy(a, i)
  }

  lemma RotationKeeps<T>(a: seq<T>, i: nat)
    requires i <= |a|
    ensures var b := RotateBy(a, i);
            IsRotation(a, b) && |b| == |a| && (forall x :: x in b <==> x in a) && (NoDup(a) ==> NoDup(b))
  {
    assert a == a[..i] + a[i..];
  }

  lemma RotateNone<T>(a: seq<T>)
    ensures RotateBy(a, 0) == a
  {
    assert a[0..] == a && a[..0] == [];
  }

  lemma RotateNext<T>(a: seq<T>, i: nat)
    requires i < |a|
    ensures RotateBy(a, i)[0] == a[i] && Rotate(RotateBy(a, i)) == RotateBy(a, i + 1)
  {}

  /** One step of the walk of nameserver_pick from the start of the ring was */
  lemma PickStep(was: seq<nat>, i: nat, servers: Servers)
    requires i < |was| && GoodOf(was[..i], servers) == []
    requires GoodOf(RotateBy(was, i), servers) == GoodOf(was, servers) != []
    ensures Rotate(RotateBy(was, i)) == RotateBy(was, i + 1)
    ensures IsGood(servers, was[i]) ==>
              GoodOf(was, servers)[0] == was[i] && GoodOf(RotateBy(was, i + 1), servers) == Rotate(GoodOf(was, servers))
    ensures !IsGood(servers, was[i]) ==>
              && i + 1 < |was| && GoodOf(was[..i + 1], servers) == []
              && GoodOf(RotateBy(was, i + 1), servers) == GoodOf(was, servers)
  {
    RotateNext(was, i);
    GoodRotate(RotateBy(was, i), servers);
    hide RotateBy, Rotate;
    GoodAppend(was[..i], [was[i]], servers);
    assert was[..i + 1] == was[..i] + [was[i]];
    assert i + 1 == |was| ==> was[..i + 1] == was;
    assert [was[i]][1..] == [];
  }

  /** The list of nameservers: ring[0] is server_head. */
  class NameserverRing {
    var ring: seq<nat>
    var servers: Servers
    var good: int   // global_good_nameservers

    ghost predicate Valid()
      reads this
    {
      RingOk(ring, servers, good)
    }

    constructor ()
      ensures Valid() && ring == []
    {
      ring, servers, good := [], map[], 0;
    }

    /** nameserver_pick.  With good servers it takes the next one and passes on to the
        server behind it; without, it steps on and takes any. */
    method Pick() returns (r: Option<nat>)
      requires Valid()
      modifies this`ring
      ensures Valid() && IsRotation(old(ring), ring) && |ring| == |old(ring)|
      ensures r == None <==> ring == []
      ensures r.Some? ==> r.value in ring && r.value in servers
      ensures good != 0 ==> r.Some? && IsGood(servers, r.value) && r.value == GoodOf(old(ring), servers)[0]
      ensures good == 0 && old(ring) != [] ==> r == Some(Rotate(old(ring))[0])
      ensures GoodOf(ring, servers) == Rotate(GoodOf(old(ring), servers))
    {
      hide GoodOf, Rotate, RotateBy, NoDup;
      ghost var was := ring;
      RotateNone(was);
      RotationKeeps(was, 0);
      if ring == [] {
        NoGood(servers);
        NoneRotated<nat>();
        return None;
      }
      RotateNext(was, 0);
      if good == 0 {
        GoodRotate(ring, servers);
        RotationKeeps(was, 1);
        ring := Rotate(ring);
        NoneRotated<nat>();
        return Some(ring[0]);
      }
      ghost var i := 0;
      NoGood(servers);
      assert was[..0] == [];
      while true
        invariant i < |was| && ring == RotateBy(was, i) && |ring| == |was|
        invariant GoodOf(was[..i], servers) == [] && GoodOf(ring, servers) == GoodOf(was, servers) != []
        decreases |was| - i
      {
        RotateNext(was, i);
        PickStep(was, i, servers);
        RotationKeeps(was, i);
        RotationKeeps(was, i + 1);
        var head := ring[0];
        ring := Rotate(ring);
        assert head in was && head in servers;
        if servers[head].state {
          return Some(head);
        }
        // PickStep: the walk does not come back to its start (EVUTIL_ASSERT)
        i := i + 1;
      }
    }

    /** The part of nameserver_failed that concerns the server: returns whether it was
        believed to work. */
    method MarkFailed(s: nat) returns (was: bool)
      requires Valid() && s in servers
      modifies this`servers, this`good
      ensures Valid() && was == old(servers[s].state) && s in servers && !servers[s].state
      ensures servers == if was then old(servers)[s := old(servers)[s].(state := false, failedTimes := 1)]
              else old(servers)
      ensures good == old(good) - (if was then 1 else 0)
    {
      was := servers[s].state;
      if was {
        GoodAfterChange(ring, servers, s, servers[s].(state := false, failedTimes := 1));
        good := good - 1;
        assert 0 <= good;   // EVUTIL_ASSERT
        servers := servers[s := servers[s].(state := false, failedTimes := 1)];
      } else {
        assert servers == servers[s := servers[s]];
      }
    }

    /** nameserver_up */
    method Up(s: nat)
      requires Valid() && s in servers
      modifies this`servers, this`good
      ensures Valid() && s in servers
      ensures servers == if old(servers[s].state) then old(servers)
                         else old(servers)[s := old(servers)[s].(state := true, failedTimes := 0)]
    {
      if servers[s].state {
        assert servers == servers[s := servers[s]];
        return;
      }
      GoodAfterChange(ring, servers, s, servers[s].(state := true, failedTimes := 0));
      servers := servers[s := servers[s].(state := true, failedTimes := 0)];
      good := good + 1;
    }

    /** The socket of a server would block. */
    method Choke(s: nat)
      requires Valid() && s in servers
      modifies this`servers
      ensures Valid() && servers == old(servers)[s := old(servers)[s].(choked := true)]
    {
      GoodAfterChange(ring, servers, s, servers[s].(choked := true));
      servers := servers[s := servers[s].(choked := true)];
    }

    /** The part of evdns_base_clear_nameservers_and_suspend that concerns the servers */
    method Clear()
      modifies this
      ensures Valid() && ring == []
    {
      ring, servers, good := [], map[], 0;
    }

    /** The end of _evdns_nameserver_add_impl: a new server goes behind server_head. */
    method Add(s: nat)
      requires Valid() && s !in servers
      modifies this
      ensures Valid() && servers == old(servers)[s := Server(true, false, 0)] && good == old(good) + 1
      ensures ring == if old(ring) == [] then [s] else [old(ring)[0], s] + old(ring)[1..]
    {
      var v := Server(true, false, 0);
      GoodOfMore(ring, servers, s, v);
      ghost var was, more := ring, servers[s := v];
      servers := servers[s := v];
      if ring == [] {
        ring := [s];
      } else {
        ring := [ring[0], s] + ring[1..];
        GoodAppend([was[0], s], was[1..], more);
        GoodAppend([was[0]], [s], more);
        GoodAppend([was[0]], was[1..], more);
        assert [was[0]] + was[1..] == was && [was[0]] + [s] == [was[0], s];
      }
      assert GoodOf([s], more) == [s] by {
        assert [s][1..] == [];
      }
      good := good + 1;
    }
  }

  /** n calls of nameserver_pick in a row */
  method PickMany(r: NameserverRing, n: nat) returns (picks: seq<nat>)
    requires r.Valid() && n <= r.good
    modifies r`ring
    ensures r.Valid() && picks == GoodOf(old(r.ring), r.servers)[..n]
    ensures NoDup(picks)
    ensures n == r.good ==> forall s :: s in picks <==> s in r.ring && IsGood(r.servers, s)
  {
    hide GoodOf, Rotate, RotateBy, NoDup;
    picks := [];
    ghost var g := GoodOf(r.ring, r.servers);
    GoodNoDup(r.ring, r.servers);
    RotateNone(g);
    while |picks| < n
      invariant r.Valid() && |picks| <= n && picks == g[..|picks|]
      invariant GoodOf(r.ring, r.servers) == RotateBy(g, |picks|)
      invariant SameServers(old(r.ring), r.ring)
    {
      ghost var k, was := |picks|, r.ring;
      RotateNext(g, k);
      GoodIn(r.ring, r.servers);
      var s := r.Pick();
      RotationSame(was, r.ring);
      picks := picks + [s.value];
    }
    assert g[..|g|] == g;
    GoodIn(old(r.ring), r.servers);
    PrefixNoDup(g, n);
  }

  ghost predicate SameServers(a: seq<nat>, b: seq<nat>) {
    forall s :: s in a <==> s in b
  }

  lemma RotationSame(a: seq<nat>, b: seq<nat>)
    requires IsRotation(a, b)
    ensures SameServers(a, b)
  {
    var i: nat :| i <= |a| && b == RotateBy(a, i);
    RotationKeeps(a, i);
  }

  lemma PrefixNoDup<T>(a: seq<T>, n: nat)
    requires NoDup(a) && n <= |a|
    ensures NoDup(a[..n])
  {}

  lemma NoGood(servers: Servers)
    ensures GoodOf([], servers) == []
  {}

  lemma NoneRotated<T>()
    ensures Rotate<T>([]) == []
  {}
}
