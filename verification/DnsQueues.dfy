/** The requests of evdns.c: a waiting queue and a table of inflight requests, hashed by
    transaction id. */
module DnsQueues {
  import opened DnsServers
  import opened Lists

  const NO_ID: nat := 0xffff
  const MAX_MAX_INFLIGHT: nat := 65000   // what evdns_base_set_option allows

  /** struct request; ns is the nameserver it was given to */
  datatype Request = Request(transId: nat, ns: Option<nat>, txCount: nat, transmitMe: bool, reissueCount: nat)

  type Requests = map<nat, Request>
  type Heads = seq<seq<nat>>

  // ----- lists

  function Total(heads: Heads): nat {
    if heads == [] then 0 else |heads[0]| + Total(heads[1..])
  }

  lemma {:induction false} TotalUpdate(heads: Heads, b: nat, l: seq<nat>)
    requires b < |heads|
    ensures Total(heads[b := l]) == Total(heads) - |heads[b]| + |l|
  {
    if b != 0 {
      assert heads[b := l][1..] == heads[1..][b - 1 := l];
      TotalUpdate(heads[1..], b - 1, l);
    } else {
      assert heads[b := l][1..] == heads[1..];
    }
  }

  lemma {:induction false} TotalEmpty(heads: Heads)
    requires forall b | 0 <= b < |heads| :: heads[b] == []
    ensures Total(heads) == 0
  {
    if heads != [] {
      TotalEmpty(heads[1..]);
    }
  }

  // ----- the invariant

  ghost predicate Inflight(reqs: Requests, r: nat) {
    r in reqs && reqs[r].ns.Some?
  }

  ghost predicate InWaiting(reqs: Requests, r: nat) {
    r in reqs && reqs[r].ns.None?
  }

  function Bucket(reqs: Requests, heads: Heads, r: nat): nat
    requires r in reqs && heads != []
  {
    reqs[r].transId % |heads|
  }

  /** Everything in bucket b belongs there. */
  ghost predicate BucketOk(heads: Heads, reqs: Requests, b: nat) {
    && b < |heads| && NoDup(heads[b])
    && forall r | r in heads[b] :: Inflight(reqs, r) && Bucket(reqs, heads, r) == b
  }

  ghost predicate Listed(heads: Heads, reqs: Requests, r: nat) {
    r in reqs && heads != [] && r in heads[Bucket(reqs, heads, r)]
  }

  ghost predicate IdsDiffer(reqs: Requests, r: nat, q: nat) {
    r in reqs && q in reqs && reqs[r].transId != reqs[q].transId
  }

  /** Each live request is in the waiting queue, if it has no nameserver, or else in the
      bucket of its transaction id, and nowhere twice; inflight ids are distinct. */
  ghost predicate Queued(waiting: seq<nat>, heads: Heads, reqs: Requests) {
    && heads != [] && NoDup(waiting)
    && (forall r | r in waiting :: InWaiting(reqs, r))
    && (forall b | 0 <= b < |heads| :: BucketOk(heads, reqs, b))
    && (forall r | InWaiting(reqs, r) :: r in waiting)
    && (forall r | Inflight(reqs, r) :: Listed(heads, reqs, r) && reqs[r].transId < NO_ID)
    && (forall r, q | Inflight(reqs, r) && Inflight(reqs, q) && r != q :: IdsDiffer(reqs, r, q))
  }

  /** No inflight request has this transaction id. */
  ghost predicate IdFree(reqs: Requests, id: nat) {
    forall r | Inflight(reqs, r) :: reqs[r].transId != id
  }

  /** request_find_from_trans_id looks in one bucket only; that is enough. */
  lemma FoundInBucket(waiting: seq<nat>, heads: Heads, reqs: Requests, id: nat)
    requires Queued(waiting, heads, reqs)
    ensures IdFree(reqs, id) <==> forall r | r in heads[id % |heads|] :: r in reqs && reqs[r].transId != id
  {
    assert BucketOk(heads, reqs, id % |heads|);
    if !IdFree(reqs, id) {
      var r :| Inflight(reqs, r) && reqs[r].transId == id;
      assert Listed(heads, reqs, r);
    }
  }

  // ----- there is a free transaction id

  function IdsOf(l: seq<nat>, reqs: Requests): set<nat> {
    set r | r in l && r in reqs :: reqs[r].transId
  }

  lemma {:induction false} IdsOfSize(l: seq<nat>, reqs: Requests)
    ensures |IdsOf(l, reqs)| <= |l|
  {
    if l == [] {
      assert IdsOf(l, reqs) == {};
    } else {
      IdsOfSize(l[1..], reqs);
      var one: set<nat> := if l[0] in reqs then {reqs[l[0]].transId} else {};
      assert IdsOf(l, reqs) == one + IdsOf(l[1..], reqs);
    }
  }

  function AllIds(heads: Heads, reqs: Requests): set<nat> {
    if heads == [] then {} else IdsOf(heads[0], reqs) + AllIds(heads[1..], reqs)
  }

  lemma {:induction false} AllIdsSize(heads: Heads, reqs: Requests)
    ensures |AllIds(heads, reqs)| <= Total(heads)
    ensures forall b, r | 0 <= b < |heads| && r in heads[b] && r in reqs :: reqs[r].transId in AllIds(heads, reqs)
  {
    if heads != [] {
      AllIdsSize(heads[1..], reqs);
      IdsOfSize(heads[0], reqs);
      forall b, r | 0 <= b < |heads| && r in heads[b] && r in reqs ensures reqs[r].transId in AllIds(heads, reqs) {
        if b != 0 {
          assert heads[1..][b - 1] == heads[b];
        }
      }
    }
  }

  function Below(n: nat): (s: set<nat>)
    ensures |s| == n && forall i: nat :: i in s <==> i < n
  {
    if n == 0 then {} else Below(n - 1) + {n - 1}
  }

  lemma SubsetSize(a: set<nat>, b: set<nat>)
    requires a <= b
    ensures |a| <= |b|
  {
    assert b == a + (b - a);
  }

  /** With fewer than 65535 requests inflight, transaction_id_pick can find an id. */
  lemma SomeIdFree(waiting: seq<nat>, heads: Heads, reqs: Requests)
    requires Queued(waiting, heads, reqs) && Total(heads) < NO_ID
    ensures exists id: nat :: id < NO_ID && IdFree(reqs, id)
  {
    var used, all := AllIds(heads, reqs), Below(NO_ID);
    AllIdsSize(heads, reqs);
    if all <= used {
      SubsetSize(all, used);
      assert false;
    }
    var id :| id in all && id !in used;
    forall r | Inflight(reqs, r) ensures reqs[r].transId != id {
      assert Listed(heads, reqs, r);
    }
    assert IdFree(reqs, id);
  }

  // ----- what single steps do to the queues

  lemma QueuedWithout(waiting: seq<nat>, heads: Heads, reqs: Requests, waiting': seq<nat>, heads': Heads, r: nat)
    requires Queued(waiting, heads, reqs) && |heads'| == |heads| && NoDup(waiting')
    requires forall p :: p in waiting' <==> p in waiting && p != r
    requires forall b | 0 <= b < |heads| :: NoDup(heads'[b]) && forall p :: p in heads'[b] <==> p in heads[b] && p != r
    ensures Queued(waiting', heads', map p | p in reqs && p != r :: reqs[p])
  {
    var reqs' := map p | p in reqs && p != r :: reqs[p];
    forall b | 0 <= b < |heads'| ensures BucketOk(heads', reqs', b) {
      assert BucketOk(heads, reqs, b);
    }
    forall p | Inflight(reqs', p) ensures Listed(heads', reqs', p) {
      assert Inflight(reqs, p) && Listed(heads, reqs, p);
    }
    forall p | InWaiting(reqs', p) ensures p in waiting' {
      assert InWaiting(reqs, p);
    }
    forall p, q | Inflight(reqs', p) && Inflight(reqs', q) && p != q ensures IdsDiffer(reqs', p, q) {
      assert Inflight(reqs, p) && Inflight(reqs, q) && IdsDiffer(reqs, p, q);
    }
    forall p | p in waiting' ensures InWaiting(reqs', p) {
      assert InWaiting(reqs, p);
    }
  }

  lemma InsertedInflight(waiting: seq<nat>, heads: Heads, reqs: Requests, r: nat, q: Request)
    requires Queued(waiting, heads, reqs) && r !in reqs
    requires q.ns.Some? && q.transId < NO_ID && IdFree(reqs, q.transId)
    ensures var b := q.transId % |heads|;
            Queued(waiting, heads[b := heads[b] + [r]], reqs[r := q])
  {
    var b := q.transId % |heads|;
    var heads', reqs' := heads[b := heads[b] + [r]], reqs[r := q];
    assert BucketOk(heads, reqs, b);
    AppendNoDup(heads[b], r);
    forall c | 0 <= c < |heads'| ensures BucketOk(heads', reqs', c) {
      assert BucketOk(heads, reqs, c);
      forall p | p in heads'[c] ensures Inflight(reqs', p) && Bucket(reqs', heads', p) == c {
        assert p != r ==> Inflight(reqs, p);
      }
    }
    forall p | Inflight(reqs', p) ensures Listed(heads', reqs', p) && reqs'[p].transId < NO_ID {
      if p != r {
        assert Inflight(reqs, p) && Listed(heads, reqs, p);
      }
    }
    forall p | InWaiting(reqs', p) ensures p in waiting {
      assert InWaiting(reqs, p);
    }
    forall p | p in waiting ensures InWaiting(reqs', p) {
      assert InWaiting(reqs, p);
    }
    forall p, o | Inflight(reqs', p) && Inflight(reqs', o) && p != o ensures IdsDiffer(reqs', p, o) {
      assert p != r ==> Inflight(reqs, p);
      assert o != r ==> Inflight(reqs, o);
      assert p != r && o != r ==> IdsDiffer(reqs, p, o);
    }
  }

  lemma InsertedWaiting(waiting: seq<nat>, heads: Heads, reqs: Requests, r: nat, q: Request, waiting': seq<nat>)
    requires Queued(waiting, heads, reqs) && r !in reqs && q.ns.None?
    requires waiting' == waiting + [r] || waiting' == [r] + waiting
    ensures Queued(waiting', heads, reqs[r := q])
  {
    assert r !in waiting;
    AppendNoDup(waiting, r);
    PrependNoDup(r, waiting);
    var reqs' := reqs[r := q];
    forall b | 0 <= b < |heads| ensures BucketOk(heads, reqs', b) {
      assert BucketOk(heads, reqs, b);
      forall p | p in heads[b] ensures Inflight(reqs', p) && Bucket(reqs', heads, p) == b {
        assert Inflight(reqs, p);
      }
    }
    forall p | Inflight(reqs', p) ensures Listed(heads, reqs', p) && reqs'[p].transId < NO_ID {
      assert Inflight(reqs, p) && Listed(heads, reqs, p);
    }
    forall p | InWaiting(reqs', p) ensures p in waiting' {
      assert p != r ==> InWaiting(reqs, p);
    }
    forall p | p in waiting' ensures InWaiting(reqs', p) {
      assert p != r ==> InWaiting(reqs, p);
    }
    forall p, o | Inflight(reqs', p) && Inflight(reqs', o) && p != o ensures IdsDiffer(reqs', p, o) {
      assert Inflight(reqs, p) && Inflight(reqs, o) && IdsDiffer(reqs, p, o);
    }
  }

  /** A request that is inflight changes its nameserver or other fields, not its id. */
  lemma FieldsChanged(waiting: seq<nat>, heads: Heads, reqs: Requests, r: nat, q: Request)
    requires Queued(waiting, heads, reqs) && Inflight(reqs, r) && q.ns.Some? && q.transId == reqs[r].transId
    ensures Queued(waiting, heads, reqs[r := q])
  {
    var reqs' := reqs[r := q];
    forall b | 0 <= b < |heads| ensures BucketOk(heads, reqs', b) {
      assert BucketOk(heads, reqs, b);
      forall p | p in heads[b] ensures Inflight(reqs', p) && Bucket(reqs', heads, p) == b {
        assert Inflight(reqs, p);
      }
    }
    forall p | Inflight(reqs', p) ensures Listed(heads, reqs', p) && reqs'[p].transId < NO_ID {
      assert Inflight(reqs, p) && Listed(heads, reqs, p);
    }
    forall p | InWaiting(reqs', p) ensures p in waiting {
      assert InWaiting(reqs, p);
    }
    forall p | p in waiting ensures InWaiting(reqs', p) {
      assert InWaiting(reqs, p);
    }
    forall p, o | Inflight(reqs', p) && Inflight(reqs', o) && p != o ensures IdsDiffer(reqs', p, o) {
      assert Inflight(reqs, p) && Inflight(reqs, o) && IdsDiffer(reqs, p, o);
    }
  }

  /** A request leaves its list. */
  lemma Removed(waiting: seq<nat>, heads: Heads, reqs: Requests, r: nat)
    requires Queued(waiting, heads, reqs) && r in reqs
    ensures InWaiting(reqs, r) ==>
              r in waiting && Queued(Remove(waiting, r), heads, map p | p in reqs && p != r :: reqs[p])
    ensures Inflight(reqs, r) ==>
              var b := Bucket(reqs, heads, r);
              r in heads[b] && Queued(waiting, heads[b := Remove(heads[b], r)], map p | p in reqs && p != r :: reqs[p])
  {
    var b := Bucket(reqs, heads, r);
    assert BucketOk(heads, reqs, b);
    forall c | 0 <= c < |heads| ensures BucketOk(heads, reqs, c) && (r in heads[c] ==> Inflight(reqs, r) && c == b) {
      assert BucketOk(heads, reqs, c);
    }
    if InWaiting(reqs, r) {
      RemoveFacts(waiting, r);
      QueuedWithout(waiting, heads, reqs, Remove(waiting, r), heads, r);
    } else {
      assert Listed(heads, reqs, r);
      RemoveFacts(heads[b], r);
      QueuedWithout(waiting, heads, reqs, waiting, heads[b := Remove(heads[b], r)], r);
    }
  }

  function Minus(reqs: Requests, r: nat): Requests {
    map p | p in reqs && p != r :: reqs[p]
  }

  /** A request gets a nameserver and an id: from the waiting queue to its bucket. */
  lemma Promoted(waiting: seq<nat>, heads: Heads, reqs: Requests, r: nat, q: Request)
    requires Queued(waiting, heads, reqs) && r in waiting
    requires q.ns.Some? && q.transId < NO_ID && IdFree(reqs, q.transId)
    ensures var b := q.transId % |heads|;
            Queued(Remove(waiting, r), heads[b := heads[b] + [r]], reqs[r := q])
  {
    hide Queued, Remove;
    WaitingIs(waiting, heads, reqs, r);
    Removed(waiting, heads, reqs, r);
    assert forall p | Inflight(Minus(reqs, r), p) :: Inflight(reqs, p);
    assert Minus(reqs, r)[r := q] == reqs[r := q];
    InsertedInflight(Remove(waiting, r), heads, Minus(reqs, r), r, q);
  }

  lemma WaitingIs(waiting: seq<nat>, heads: Heads, reqs: Requests, r: nat)
    requires Queued(waiting, heads, reqs)
    ensures heads != [] && (r in waiting <==> InWaiting(reqs, r))
    ensures Inflight(reqs, r) <==> Listed(heads, reqs, r)
  {
    if Listed(heads, reqs, r) {
      assert BucketOk(heads, reqs, Bucket(reqs, heads, r));
    }
  }

  /** evdns_base_clear_nameservers_and_suspend moves a request to the front of the
      waiting queue. */
  lemma Requeued(waiting: seq<nat>, heads: Heads, reqs: Requests, b: nat, q: Request)
    requires Queued(waiting, heads, reqs) && b < |heads| && heads[b] != [] && q.ns.None?
    ensures var r := heads[b][0];
            r in reqs && Queued([r] + waiting, heads[b := heads[b][1..]], reqs[r := q])
  {
    var r := heads[b][0];
    assert BucketOk(heads, reqs, b) && Inflight(reqs, r);
    hide Queued;
    Removed(waiting, heads, reqs, r);
    assert Minus(reqs, r)[r := q] == reqs[r := q];
    InsertedWaiting(waiting, heads[b := heads[b][1..]], Minus(reqs, r), r, q, [r] + waiting);
  }

  // ----- struct evdns_base

  /** Only nameservers and progress of requests differ. */
  ghost predicate SameShape(a: Requests, b: Requests) {
    a.Keys == b.Keys && forall r | r in a :: b[r].transId == a[r].transId && b[r].ns.Some? == a[r].ns.Some?
  }

  ghost predicate ServersKnown(reqs: Requests, servers: Servers) {
    forall r | Inflight(reqs, r) :: reqs[r].ns.value in servers
  }

  class EvdnsBase {
    var waiting: seq<nat>    // req_waiting_head
    var heads: Heads         // req_heads, n_req_heads
    var reqs: Requests       // the requests that are not freed
    var inflight: int        // global_requests_inflight
    var waitingCount: int    // global_requests_waiting
    var maxInflight: nat     // global_max_requests_inflight
    const ring: NameserverRing

    ghost predicate Valid()
      reads this, ring
    {
      && ring.Valid() && Queued(waiting, heads, reqs) && ServersKnown(reqs, ring.servers)
      && inflight == Total(heads) && waitingCount == |waiting| && 1 <= maxInflight <= MAX_MAX_INFLIGHT
    }

    /** evdns_base_new */
    constructor ()
      ensures Valid() && fresh(ring) && reqs == map[] && ring.ring == [] && waiting == [] && inflight == 0
    {
      ring := new NameserverRing();
      waiting, heads, reqs, inflight, waitingCount, maxInflight := [], seq(13, _ => []), map[], 0, 0, 64;
      TotalEmpty(seq(13, _ => []));
    }

    /** request_find_from_trans_id */
    method FindFromTransId(id: nat) returns (found: bool)
      requires Valid()
      ensures found <==> !IdFree(reqs, id)
    {
      FoundInBucket(waiting, heads, reqs, id);
      var bucket, i := heads[id % |heads|], 0;
      while i < |bucket|
        invariant i <= |bucket| && forall j | 0 <= j < i :: bucket[j] in reqs && reqs[bucket[j]].transId != id
      {
        assert BucketOk(heads, reqs, id % |heads|) && Inflight(reqs, bucket[i]);
        if reqs[bucket[i]].transId == id {
          return true;
        }
        i := i + 1;
      }
      found := false;
    }

    /** transaction_id_pick, for draws of which some are thrown away, but not all */
    method TransactionIdPick() returns (id: nat)
      requires Valid() && inflight < NO_ID
      ensures id < 65535 && IdFree(reqs, id)
    {
      SomeIdFree(waiting, heads, reqs);
      ghost var free: nat :| free < NO_ID && IdFree(reqs, free);
      FoundInBucket(waiting, heads, reqs, free);
      var more: nat := *;
      while true
        decreases more
      {
        id := *;
        if more == 0 {
          id :| 0 <= id < NO_ID && forall r | r in heads[id % |heads|] :: r in reqs && reqs[r].transId != id;
          FoundInBucket(waiting, heads, reqs, id);
        }
        if id < NO_ID {
          var found := FindFromTransId(id);
          if !found {
            return;
          }
        }
        more := more - 1;
      }
    }

    /** nameserver_failed */
    method NameserverFailed(s: nat)
      requires Valid() && s in ring.servers
      modifies this`reqs, ring
      ensures Valid() && SameShape(old(reqs), reqs) && |ring.ring| == |old(ring.ring)|
      ensures s in ring.servers && !ring.servers[s].state
      ensures ring.servers == if old(ring.servers[s].state)
                              then old(ring.servers)[s := old(ring.servers[s]).(state := false, failedTimes := 1)]
                              else old(ring.servers)
      ensures old(ring.servers[s].state) && ring.good != 0 ==> forall r :: !Stuck(reqs, r, s)
      ensures Reassigned(old(reqs), reqs, s) && (!old(ring.servers[s].state) ==> reqs == old(reqs))
    {
      hide Queued, RingOk, SameShape, Reassigned;
      var was := ring.MarkFailed(s);
      ghost var servers := ring.servers;
      ShapeSteps(reqs, reqs, reqs);
      ReassignedSteps(reqs, reqs, reqs, s);
      if !was || ring.good == 0 {
        return;
      }
      var i := 0;
      WaitingIs(waiting, heads, reqs, 0);
      while i < |heads|
        invariant i <= |heads| && Valid() && SameShape(old(reqs), reqs) && |ring.ring| == |old(ring.ring)|
        invariant ring.good != 0 && s in ring.servers && !ring.servers[s].state
        invariant ring.servers == servers && Reassigned(old(reqs), reqs, s)
        invariant forall b | 0 <= b < i :: NoneStuckIn(reqs, heads[b], s)
      {
        ghost var before := reqs;
        Reassign(i, s);
        ShapeSteps(old(reqs), before, reqs);
        ReassignedSteps(old(reqs), before, reqs, s);
        i := i + 1;
      }
      NoneStuck(waiting, heads, reqs, s);
    }

    /** The requests of one bucket that are still to be sent to s get another server. */
    method Reassign(b: nat, s: nat)
      requires Valid() && b < |heads| && ring.good != 0 && s in ring.servers && !ring.servers[s].state
      modifies this`reqs, ring`ring
      ensures Valid() && SameShape(old(reqs), reqs) && |ring.ring| == |old(ring.ring)|
      ensures NoneStuckIn(reqs, heads[b], s)
      ensures forall l | NoneStuckIn(old(reqs), l, s) :: NoneStuckIn(reqs, l, s)
      ensures Reassigned(old(reqs), reqs, s)
    {
      hide Queued, RingOk, SameShape, Reassigned;
      var j := 0;
      ShapeSteps(reqs, reqs, reqs);
      ReassignedSteps(reqs, reqs, reqs, s);
      while j < |heads[b]|
        invariant j <= |heads[b]| && Valid() && SameShape(old(reqs), reqs) && |ring.ring| == |old(ring.ring)|
        invariant forall k | 0 <= k < j :: !Stuck(reqs, heads[b][k], s)
        invariant forall r | !Stuck(old(reqs), r, s) :: !Stuck(reqs, r, s)
        invariant Reassigned(old(reqs), reqs, s)
      {
        var req := heads[b][j];
        BucketIs(waiting, heads, reqs, b, req);
        if reqs[req].txCount == 0 && reqs[req].ns == Some(s) {
          var ns := ring.Pick();
          ghost var before := reqs;
          SetRequest(req, reqs[req].(ns := ns));
          ShapeSteps(old(reqs), before, reqs);
          OneReassigned(before, req, ns, s);
          ReassignedSteps(old(reqs), before, reqs, s);
        }
        j := j + 1;
      }
    }

    /** evdns_request_transmit.  What sendto returns is arbitrary.  A request that cannot be
        sent now stays to be sent; one that was sent, or failed, is not, and waits for its
        timeout. */
    method Transmit(r: nat) returns (res: nat)
      requires Valid() && Inflight(reqs, r)
      modifies this`reqs, ring
      ensures Valid() && SameShape(old(reqs), reqs) && |ring.ring| == |old(ring.ring)| && res <= 2
      ensures old(Inflight(reqs, r) && ChokedFor(reqs[r])) ==> res == 1 && ring.servers == old(ring.servers)
      ensures var q := old(reqs)[r];
              match res
              case 0 => reqs == old(reqs)[r := q.(txCount := q.txCount + 1, transmitMe := false)]
              case 1 => reqs == old(reqs)[r := q.(transmitMe := true)] && ChokedFor(q)
              case _ =>
                && reqs.Keys == old(reqs.Keys)
                && reqs[r] == q.(ns := reqs[r].ns, txCount := q.txCount + 1, transmitMe := false)
                && forall p | p in reqs && p != r :: reqs[p] == old(reqs)[p].(ns := reqs[p].ns)
    {
      hide Queued;
      SetRequest(r, reqs[r].(transmitMe := true));
      WaitingIs(waiting, heads, reqs, r);
      IdIs(waiting, heads, reqs, r);
      assert reqs[r].transId != NO_ID;   // EVUTIL_ASSERT
      var ns := reqs[r].ns.value;
      if ring.servers[ns].choked {
        return 1;
      }
      res := *;
      if res == 1 {
        ring.Choke(ns);
        return;
      }
      if res == 2 {
        NameserverFailed(ns);
      } else {
        res := 0;
      }
      SetRequest(r, reqs[r].(txCount := reqs[r].txCount + 1, transmitMe := false));
    }

    /** The socket to the server of q has blocked. */
    predicate ChokedFor(q: Request)
      reads this, ring
    {
      q.ns.Some? && q.ns.value in ring.servers && ring.servers[q.ns.value].choked
    }

    method SetRequest(r: nat, q: Request)
      requires Valid() && Inflight(reqs, r) && q.transId == reqs[r].transId && q.ns.Some? && q.ns.value in ring.servers
      modifies this`reqs
      ensures Valid() && reqs == old(reqs)[r := q] && SameShape(old(reqs), reqs)
    {
      FieldsChanged(waiting, heads, reqs, r, q);
      reqs := reqs[r := q];
    }

    /** evdns_transmit */
    method TransmitAll()
      requires Valid()
      modifies this`reqs, ring
      ensures Valid() && SameShape(old(reqs), reqs) && |ring.ring| == |old(ring.ring)|
    {
      hide Queued;
      var i := 0;
      WaitingIs(waiting, heads, reqs, 0);
      while i < |heads|
        invariant i <= |heads| && Valid() && SameShape(old(reqs), reqs) && |ring.ring| == |old(ring.ring)|
      {
        var j := 0;
        while j < |heads[i]|
          invariant j <= |heads[i]| && Valid() && SameShape(old(reqs), reqs) && |ring.ring| == |old(ring.ring)|
        {
          BucketIs(waiting, heads, reqs, i, heads[i][j]);
          if reqs[heads[i][j]].transmitMe {
            var res := Transmit(heads[i][j]);
          }
          j := j + 1;
        }
        i := i + 1;
      }
    }

    /** evdns_requests_pump_waiting_queue.  Without a nameserver the C code follows a null
        pointer; otherwise it stops only when enough is inflight or nothing waits. */
    method Pump() returns (ok: bool)
      requires Valid()
      modifies this`waiting, this`heads, this`reqs, this`inflight, this`waitingCount, ring
      ensures Valid() && reqs.Keys == old(reqs.Keys) && |ring.ring| == |old(ring.ring)| && |heads| == |old(heads)|
      ensures ok <==> ring.ring != [] || maxInflight <= old(inflight) || old(waiting) == []
      ensures ok <==> maxInflight <= inflight || waiting == []
      ensures old(inflight) < maxInflight ==> inflight <= maxInflight
      ensures |waiting| <= |old(waiting)| && waiting == old(waiting)[|old(waiting)| - |waiting|..]
    {
      hide Queued, RingOk, SameShape, ServersKnown, Total;
      ok := true;
      ghost var was, k := waiting, 0;
      assert was[0..] == was;
      while inflight < maxInflight && waitingCount != 0
        invariant Valid() && reqs.Keys == old(reqs.Keys) && |ring.ring| == |old(ring.ring)| && |heads| == |old(heads)|
        invariant k <= |was| && waiting == was[k..] && inflight == old(inflight) + k
        invariant 0 < k ==> ring.ring != [] && inflight <= maxInflight
      {
        if ring.ring == [] {
          return false;   // req->ns would be NULL
        }
        Promote();
        k := k + 1;
      }
    }

    /** The body of the pump's loop */
    method Promote()
      requires Valid() && ring.ring != [] && inflight < maxInflight && waiting != []
      modifies this`waiting, this`heads, this`reqs, this`inflight, this`waitingCount, ring
      ensures Valid() && reqs.Keys == old(reqs.Keys) && |ring.ring| == |old(ring.ring)| && |heads| == |old(heads)|
      ensures inflight == old(inflight) + 1 && waiting == old(waiting)[1..]
    {
      hide Queued, RingOk, SameShape;
      var req := waiting[0];
      WaitingIs(waiting, heads, reqs, req);
      var id := TransactionIdPick();
      var ns := ring.Pick();
      PromotedFirst(waiting, heads, reqs, reqs[req].(ns := ns, transId := id));
      waiting := waiting[1..];
      waitingCount := waitingCount - 1;
      inflight := inflight + 1;
      reqs := reqs[req := reqs[req].(ns := ns, transId := id)];
      heads := heads[id % |heads| := heads[id % |heads|] + [req]];
      label moved:
      var res := Transmit(req);
      ShapeKeys(old@moved(reqs), reqs);
      label sent:
      TransmitAll();
      ShapeKeys(old@sent(reqs), reqs);
    }

    /** request_new and request_submit; r is the address of the new request. */
    method Submit(r: nat) returns (sent: bool)
      requires Valid() && r !in reqs
      modifies this, ring
      ensures Valid() && reqs.Keys == old(reqs.Keys) + {r} && |ring.ring| == |old(ring.ring)|
      ensures sent <==> old(inflight) < maxInflight && ring.ring != []
      ensures sent <==> Inflight(reqs, r)
      ensures !sent ==> waiting == old(waiting) + [r] && inflight == old(inflight)
      ensures sent ==> waiting == old(waiting) && inflight == old(inflight) + 1
      ensures maxInflight == old(maxInflight)
    {
      hide Queued, RingOk, SameShape;
      var issuingNow := inflight < maxInflight;
      var transId, ns := NO_ID, None;
      if issuingNow {
        transId := TransactionIdPick();
        ns := ring.Pick();
      }
      sent := ns.Some?;
      ghost var keys := reqs.Keys;
      if sent {
        InsertedInflight(waiting, heads, reqs, r, Request(transId, ns, 0, false, 0));
        NonemptyHeads(waiting, heads, reqs);
        TotalUpdate(heads, transId % |heads|, heads[transId % |heads|] + [r]);
        heads := heads[transId % |heads| := heads[transId % |heads|] + [r]];
        reqs := reqs[r := Request(transId, ns, 0, false, 0)];
        inflight := inflight + 1;
        label inserted:
        var res := Transmit(r);
        ShapeKeys(old@inserted(reqs), reqs);
        ShapeInflight(old@inserted(reqs), reqs, r);
      } else {
        InsertedWaiting(waiting, heads, reqs, r, Request(transId, ns, 0, false, 0), waiting + [r]);
        waiting := waiting + [r];
        reqs := reqs[r := Request(transId, ns, 0, false, 0)];
        waitingCount := waitingCount + 1;
      }
    }

    /** request_finished, with the list that the request is in: after a reply, or when it
        is canceled. */
    method Finished(r: nat) returns (ok: bool)
      requires Valid() && r in reqs
      modifies this, ring
      ensures Valid() && reqs.Keys == old(reqs.Keys) - {r} && maxInflight == old(maxInflight)
      ensures ok <==> maxInflight <= inflight || waiting == []
      ensures !ok ==> ring.ring == []
      ensures |ring.ring| == |old(ring.ring)|
      ensures var w := if r in old(waiting) then Remove(old(waiting), r) else old(waiting);
              |waiting| <= |w| && waiting == w[|w| - |waiting|..]
    {
      hide Queued, RingOk, SameShape, Remove, Total;
      Removed(waiting, heads, reqs, r);
      NonemptyHeads(waiting, heads, reqs);
      WaitingIs(waiting, heads, reqs, r);
      if reqs[r].ns.Some? {
        var b := reqs[r].transId % |heads|;
        TotalUpdate(heads, b, Remove(heads[b], r));
        heads := heads[b := Remove(heads[b], r)];
        inflight := inflight - 1;
      } else {
        waiting := Remove(waiting, r);
        waitingCount := waitingCount - 1;
      }
      MinusKeys(reqs, r);
      reqs := map p | p in reqs && p != r :: reqs[p];
      ok := Pump();
    }

    /** The server that nameserver_pick gives now: the next good one, or the next one */
    ghost function NextPick(): Option<nat>
      reads this, ring
      requires Valid()
    {
      if ring.ring == [] then None
      else if ring.good != 0 then
        GoodNotEmpty();
        Some(GoodOf(ring.ring, ring.servers)[0])
      else Some(Rotate(ring.ring)[0])
    }

    lemma GoodNotEmpty()
      requires Valid() && ring.good != 0
      ensures GoodOf(ring.ring, ring.servers) != []
    {}

    /** request_reissue: 1 if there is no other server to try */
    method Reissue(r: nat) returns (res: int)
      requires Valid() && Inflight(reqs, r)
      modifies this`reqs, ring`ring
      ensures Valid() && reqs.Keys == old(reqs.Keys)
      ensures res == if old(NextPick()) == old(reqs[r].ns) then 1 else 0
      ensures var q := old(reqs)[r];
              reqs == if res == 1 then old(reqs)
                      else old(reqs)[r := q.(ns := old(NextPick()), reissueCount := q.reissueCount + 1, txCount := 0,
                                             transmitMe := true)]
    {
      hide Queued, RingOk, SameShape;
      WaitingIs(waiting, heads, reqs, r);
      var ns := ring.Pick();
      if ns == reqs[r].ns {
        assert reqs[r := reqs[r].(ns := ns)] == reqs;
        return 1;
      }
      HasServers(r);
      SetRequest(r, reqs[r].(ns := ns, reissueCount := reqs[r].reissueCount + 1, txCount := 0, transmitMe := true));
      res := 0;
    }

    /** An inflight request has a server, so there are servers. */
    lemma HasServers(r: nat)
      requires Valid() && Inflight(reqs, r)
      ensures ring.ring != []
    {
      assert reqs[r].ns.value in ring.servers;
    }

    /** evdns_base_clear_nameservers_and_suspend, with no probe under way: everything
        waits, what was inflight before the others. */
    method ClearAndSuspend()
      requires Valid()
      modifies this, ring
      ensures Valid() && reqs.Keys == old(reqs.Keys) && ring.ring == [] && maxInflight == old(maxInflight)
      ensures old(ring.ring) != [] ==>
                && inflight == 0 && (forall r | r in reqs :: InWaiting(reqs, r))
                && |old(waiting)| <= |waiting| && waiting[|waiting| - |old(waiting)|..] == old(waiting)
                && forall r | r in reqs ::
                     reqs[r] == if old(reqs)[r].ns.Some? then Request(0, None, 0, false, 0) else old(reqs)[r]
      ensures old(ring.ring) == [] ==>
                && waiting == old(waiting) && heads == old(heads) && reqs == old(reqs)
                && inflight == old(inflight) && waitingCount == old(waitingCount)
    {
      hide Queued, RingOk;
      if ring.ring == [] {
        return;
      }
      ring.Clear();
      ghost var was, keys, front, n := waiting, reqs.Keys, [], |heads|;
      assert front + was == waiting;
      var i := 0;
      while i < |heads|
        invariant ring.Valid() && ring.ring == [] && maxInflight == old(maxInflight) && |heads| == n
        invariant i <= |heads| && Queued(waiting, heads, reqs) && reqs.Keys == keys && waitingCount == |waiting|
        invariant (forall b | 0 <= b < i :: heads[b] == []) && waiting == front + was
        invariant Suspended(old(reqs), reqs)
      {
        while heads[i] != []
          invariant ring.Valid() && ring.ring == [] && maxInflight == old(maxInflight) && |heads| == n
          invariant i < |heads| && Queued(waiting, heads, reqs) && reqs.Keys == keys && waitingCount == |waiting|
          invariant (forall b | 0 <= b < i :: heads[b] == []) && waiting == front + was
          invariant Suspended(old(reqs), reqs)
          decreases |heads[i]|
        {
          var req := heads[i][0];
          BucketIs(waiting, heads, reqs, i, req);
          var q := reqs[req].(txCount := 0, reissueCount := 0, ns := None, transId := 0, transmitMe := false);
          Requeued(waiting, heads, reqs, i, q);
          reqs := reqs[req := q];
          waitingCount := waitingCount + 1;
          waiting := [req] + waiting;
          front := [req] + front;
          heads := heads[i := heads[i][1..]];
        }
        i := i + 1;
      }
      TotalEmpty(heads);
      AllWaiting(waiting, heads, reqs);
      inflight := 0;
      assert waiting[|front|..] == was;
    }

    /** evdns_base_set_max_requests_inflight, which hashes the inflight requests anew */
    method SetMaxInflight(n: int)
      requires Valid() && n <= MAX_MAX_INFLIGHT
      modifies this
      ensures Valid() && maxInflight == (if n < 1 then 1 else n) && |heads| == (maxInflight + 4) / 5
      ensures reqs == old(reqs) && waiting == old(waiting) && inflight == old(inflight)
    {
      hide Queued, RingOk;
      var max := if n < 1 then 1 else n;
      var newHeads := Rehash((max + 4) / 5);
      heads, maxInflight := newHeads, max;
    }

    /** The loop of evdns_base_set_max_requests_inflight */
    method Rehash(nHeads: nat) returns (newHeads: Heads)
      requires Valid() && 0 < nHeads
      ensures |newHeads| == nHeads && Queued(waiting, newHeads, reqs) && Total(newHeads) == inflight
    {
      hide Queued, RingOk, Rehashing, Total;
      newHeads := seq(nHeads, _ => []);
      TotalEmpty(newHeads);
      RehashStart(waiting, heads, reqs, newHeads);
      var i, oldHeads := 0, heads;
      while i < |oldHeads|
        invariant i <= |oldHeads| == |heads| && |newHeads| == nHeads && Rehashing(waiting, oldHeads, newHeads, reqs)
        invariant (forall b | 0 <= b < i :: oldHeads[b] == []) && Total(oldHeads) + Total(newHeads) == inflight
      {
        while oldHeads[i] != []
          invariant i < |oldHeads| == |heads| && |newHeads| == nHeads && Rehashing(waiting, oldHeads, newHeads, reqs)
          invariant (forall b | 0 <= b < i :: oldHeads[b] == []) && Total(oldHeads) + Total(newHeads) == inflight
          decreases |oldHeads[i]|
        {
          var req := oldHeads[i][0];
          RehashStep(waiting, oldHeads, newHeads, reqs, i);
          var b := reqs[req].transId % nHeads;
          TotalUpdate(oldHeads, i, oldHeads[i][1..]);
          TotalUpdate(newHeads, b, newHeads[b] + [req]);
          oldHeads := oldHeads[i := oldHeads[i][1..]];
          newHeads := newHeads[b := newHeads[b] + [req]];
        }
        i := i + 1;
      }
      TotalEmpty(oldHeads);
      RehashEnd(waiting, oldHeads, newHeads, reqs);
    }

    /** nameserver_up and _evdns_nameserver_add_impl */
    method ServerUp(s: nat)
      requires Valid() && s in ring.servers
      modifies ring
      ensures Valid() && s in ring.servers && ring.servers[s].state
    {
      ring.Up(s);
    }

    method ServerAdd(s: nat)
      requires Valid() && s !in ring.servers
      modifies ring
      ensures Valid() && s in ring.servers && ring.good == old(ring.good) + 1
    {
      ring.Add(s);
    }
  }

  lemma AllWaiting(waiting: seq<nat>, heads: Heads, reqs: Requests)
    requires Queued(waiting, heads, reqs) && forall b | 0 <= b < |heads| :: heads[b] == []
    ensures forall r | r in reqs :: InWaiting(reqs, r)
  {
    forall r | r in reqs ensures InWaiting(reqs, r) {
      assert Inflight(reqs, r) ==> Listed(heads, reqs, r);
    }
  }

  // ----- hashing anew

  /** Each inflight request is in one of the two tables, in the bucket of its id. */
  ghost predicate Rehashing(waiting: seq<nat>, olds: Heads, news: Heads, reqs: Requests) {
    && olds != [] && news != [] && NoDup(waiting)
    && (forall r :: r in waiting <==> InWaiting(reqs, r))
    && (forall b | 0 <= b < |olds| :: BucketOk(olds, reqs, b))
    && (forall b | 0 <= b < |news| :: BucketOk(news, reqs, b))
    && (forall r | Inflight(reqs, r) :: Listed(olds, reqs, r) != Listed(news, reqs, r) && reqs[r].transId < NO_ID)
    && (forall r, q | Inflight(reqs, r) && Inflight(reqs, q) && r != q :: IdsDiffer(reqs, r, q))
  }

  lemma RehashStart(waiting: seq<nat>, heads: Heads, reqs: Requests, news: Heads)
    requires Queued(waiting, heads, reqs) && news != [] && forall b | 0 <= b < |news| :: news[b] == []
    ensures Rehashing(waiting, heads, news, reqs)
  {
    forall r ensures r in waiting <==> InWaiting(reqs, r) {}
  }

  lemma RehashEnd(waiting: seq<nat>, olds: Heads, news: Heads, reqs: Requests)
    requires Rehashing(waiting, olds, news, reqs) && forall b | 0 <= b < |olds| :: olds[b] == []
    ensures Queued(waiting, news, reqs)
  {
    forall r | Inflight(reqs, r) ensures Listed(news, reqs, r) {
      assert !Listed(olds, reqs, r);
    }
  }

  lemma RehashStep(waiting: seq<nat>, olds: Heads, news: Heads, reqs: Requests, i: nat)
    requires Rehashing(waiting, olds, news, reqs) && i < |olds| && olds[i] != []
    ensures var r := olds[i][0];
            && r in reqs
            && var b := reqs[r].transId % |news|;
               Rehashing(waiting, olds[i := olds[i][1..]], news[b := news[b] + [r]], reqs)
  {
    var r := olds[i][0];
    assert BucketOk(olds, reqs, i) && Inflight(reqs, r) && Listed(olds, reqs, r);
    var b := reqs[r].transId % |news|;
    var olds', news' := olds[i := olds[i][1..]], news[b := news[b] + [r]];
    assert BucketOk(news, reqs, b);
    AppendNoDup(news[b], r);
    forall c | 0 <= c < |olds| ensures BucketOk(olds', reqs, c) {
      assert BucketOk(olds, reqs, c);
    }
    forall c | 0 <= c < |news| ensures BucketOk(news', reqs, c) {
      assert BucketOk(news, reqs, c);
    }
    forall q | Inflight(reqs, q) ensures Listed(olds', reqs, q) != Listed(news', reqs, q) {
      assert Listed(olds, reqs, q) != Listed(news, reqs, q);
      assert q == r ==> r !in olds[i][1..];
      assert q != r && q in olds[i] ==> q in olds[i][1..];
    }
  }

  lemma ShapeKeys(a: Requests, b: Requests)
    requires SameShape(a, b)
    ensures a.Keys == b.Keys
  {}

  ghost predicate NoneStuckIn(reqs: Requests, l: seq<nat>, s: nat) {
    forall k | 0 <= k < |l| :: !Stuck(reqs, l[k], s)
  }

  lemma ShapeSteps(a: Requests, b: Requests, c: Requests)
    ensures SameShape(a, a) && (SameShape(a, b) && SameShape(b, c) ==> SameShape(a, c))
  {}

  /** Only requests that were still to be sent to s have changed, and only their server. */
  ghost predicate Reassigned(a: Requests, b: Requests, s: nat) {
    a.Keys == b.Keys && forall r | r in a :: b[r] == a[r] || (Stuck(a, r, s) && b[r] == a[r].(ns := b[r].ns))
  }

  lemma ReassignedSteps(a: Requests, b: Requests, c: Requests, s: nat)
    ensures Reassigned(a, a, s) && (Reassigned(a, b, s) && Reassigned(b, c, s) ==> Reassigned(a, c, s))
  {}

  lemma OneReassigned(a: Requests, r: nat, ns: Option<nat>, s: nat)
    requires Stuck(a, r, s)
    ensures Reassigned(a, a[r := a[r].(ns := ns)], s)
  {}

  /** Some requests that had a server are as new. */
  ghost predicate Suspended(a: Requests, b: Requests) {
    a.Keys == b.Keys && forall r | r in a :: b[r] == a[r] || (a[r].ns.Some? && b[r] == Request(0, None, 0, false, 0))
  }

  ghost predicate Stuck(reqs: Requests, r: nat, s: nat) {
    r in reqs && reqs[r].txCount == 0 && reqs[r].ns == Some(s)
  }

  lemma BucketIs(waiting: seq<nat>, heads: Heads, reqs: Requests, b: nat, r: nat)
    requires Queued(waiting, heads, reqs) && b < |heads| && r in heads[b]
    ensures Inflight(reqs, r)
  {
    assert BucketOk(heads, reqs, b);
  }

  lemma IdIs(waiting: seq<nat>, heads: Heads, reqs: Requests, r: nat)
    requires Queued(waiting, heads, reqs) && Inflight(reqs, r)
    ensures reqs[r].transId < NO_ID
  {}

  lemma NoneStuck(waiting: seq<nat>, heads: Heads, reqs: Requests, s: nat)
    requires Queued(waiting, heads, reqs)
    requires forall b | 0 <= b < |heads| :: NoneStuckIn(reqs, heads[b], s)
    ensures forall r :: !Stuck(reqs, r, s)
  {
    forall r ensures !Stuck(reqs, r, s) {
      if Inflight(reqs, r) {
        assert Listed(heads, reqs, r);
        var b := Bucket(reqs, heads, r);
        var k :| 0 <= k < |heads[b]| && heads[b][k] == r;
        assert NoneStuckIn(reqs, heads[b], s);
      }
    }
  }

  lemma PromotedFirst(waiting: seq<nat>, heads: Heads, reqs: Requests, q: Request)
    requires Queued(waiting, heads, reqs) && waiting != []
    requires q.ns.Some? && q.transId < NO_ID && IdFree(reqs, q.transId)
    ensures waiting[0] in reqs && heads != []
    ensures var b := q.transId % |heads|;
            var heads' := heads[b := heads[b] + [waiting[0]]];
            Queued(waiting[1..], heads', reqs[waiting[0] := q]) && Total(heads') == Total(heads) + 1
  {
    hide Queued;
    WaitingIs(waiting, heads, reqs, waiting[0]);
    Promoted(waiting, heads, reqs, waiting[0], q);
    var b := q.transId % |heads|;
    TotalUpdate(heads, b, heads[b] + [waiting[0]]);
  }

  lemma NonemptyHeads(waiting: seq<nat>, heads: Heads, reqs: Requests)
    requires Queued(waiting, heads, reqs)
    ensures heads != []
  {}

  lemma ShapeInflight(a: Requests, b: Requests, r: nat)
    requires SameShape(a, b)
    ensures Inflight(a, r) <==> Inflight(b, r)
  {}

  lemma MinusKeys(reqs: Requests, r: nat)
    ensures Minus(reqs, r).Keys == reqs.Keys - {r}
  {}

  /** Two requests and no nameserver: the pump cannot promote, whichever of the two is
      canceled. */
  method NothingToPumpWith() returns (base: EvdnsBase)
    ensures fresh(base) && fresh(base.ring) && base.Valid()
    ensures base.ring.ring == [] && base.inflight < base.maxInflight && base.waiting == [1, 2]
  {
    base := new EvdnsBase();
    var sent := base.Submit(1);
    sent := base.Submit(2);
  }
}
