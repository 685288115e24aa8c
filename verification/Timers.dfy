/** Timeouts of event.c: a heap of deadlines, and in front of it lists of events that
    share a duration, each with an internal timer in the heap. */
module Timers {
  import opened Lists

  // ----- a common timeout is marked in the upper bits of tv_usec

  const MICROSECONDS_MASK: bv32 := 0x000fffff
  const COMMON_TIMEOUT_IDX_MASK: bv32 := 0x0ff00000
  const COMMON_TIMEOUT_MASK: bv32 := 0xf0000000
  const COMMON_TIMEOUT_MAGIC: bv32 := 0x50000000

  function Marked(usec: bv32, idx: bv32): bv32 {
    usec | COMMON_TIMEOUT_MAGIC | (idx << 20)
  }

  /** The mark, the index and the microseconds do not disturb each other, and ordinary
      microseconds carry no mark. */
  lemma MarkRoundTrip(usec: bv32, idx: bv32)
    requires usec <= MICROSECONDS_MASK && idx < 256
    ensures Marked(usec, idx) & COMMON_TIMEOUT_MASK == COMMON_TIMEOUT_MAGIC
    ensures (Marked(usec, idx) & COMMON_TIMEOUT_IDX_MASK) >> 20 == idx
    ensures Marked(usec, idx) & MICROSECONDS_MASK == usec
    ensures usec & COMMON_TIMEOUT_MASK != COMMON_TIMEOUT_MAGIC
  {}

  // ----- events and queues

  /** struct event: the flags EVLIST_TIMEOUT, EVLIST_ACTIVE and EVLIST_INSERTED, whether
      it is active because of a timeout, its deadline in microseconds, the common list
      that the deadline is marked with, and its priority */
  datatype Ev = Ev(timeout: bool, active: bool, inserted: bool, byTimeout: bool, us: int, common: Option<nat>, pri: nat)

  type Events = map<nat, Ev>

  /** t is s with e. */
  ghost predicate More(s: seq<nat>, t: seq<nat>, e: nat) {
    NoDup(t) && forall x :: x in t <==> x in s || x == e
  }

  ghost predicate Pending(es: Events, e: nat, common: Option<nat>) {
    e in es && es[e].timeout && es[e].common == common
  }

  /** An event has EVLIST_TIMEOUT exactly if it is in the heap or, with a marked
      deadline, in the common list of its mark. */
  ghost predicate TimeoutQueues(es: Events, heap: seq<nat>, lists: seq<seq<nat>>) {
    && NoDup(heap) && (forall e :: e in heap <==> Pending(es, e, None))
    && (forall i | 0 <= i < |lists| :: ListOk(es, lists, i))
    && (forall e | e in es && es[e].timeout && es[e].common.Some? :: es[e].common.value < |lists|)
  }

  ghost predicate ListOk(es: Events, lists: seq<seq<nat>>, i: nat) {
    && i < |lists| && NoDup(lists[i]) && (forall e :: e in lists[i] <==> Pending(es, e, Some(i)))
    && Sorted(es, lists[i])
  }

  /** In order of the deadlines */
  ghost predicate Sorted(es: Events, l: seq<nat>) {
    forall j, k | 0 <= j < k < |l| :: InOrder(es, l[j], l[k])
  }

  ghost predicate InOrder(es: Events, a: nat, b: nat) {
    a in es && b in es && es[a].us <= es[b].us
  }

  ghost predicate ActiveAt(es: Events, e: nat, p: nat) {
    e in es && es[e].active && es[e].pri == p
  }

  /** An event has EVLIST_ACTIVE exactly if it is in the active queue of its priority. */
  ghost predicate ActiveQueues(es: Events, active: seq<seq<nat>>) {
    && (forall p | 0 <= p < |active| :: QueueOk(es, active, p))
    && forall e | e in es :: es[e].pri < |active|
  }

  ghost predicate QueueOk(es: Events, active: seq<seq<nat>>, p: nat) {
    p < |active| && NoDup(active[p]) && forall e :: e in active[p] <==> ActiveAt(es, e, p)
  }

  /** An event has EVLIST_INSERTED exactly if it is in the event queue. */
  ghost predicate InsertedQueue(es: Events, inserted: seq<nat>) {
    NoDup(inserted) && forall e :: e in inserted <==> e in es && es[e].inserted
  }

  /** struct common_timeout_list i has an internal event that is never in a common list. */
  ghost predicate TimersOk(es: Events, timers: seq<nat>) {
    && NoDup(timers)
    && forall i | 0 <= i < |timers| :: timers[i] in es && es[timers[i]].common.None?
  }

  /** The first event of list i will not be missed: its timer's callback is about to run,
      or active, or the timer is in the heap no later than the event. */
  ghost predicate Armed(es: Events, lists: seq<seq<nat>>, timers: seq<nat>, running: set<nat>, i: nat) {
    i < |lists| && i < |timers| && timers[i] in es && var t := es[timers[i]];
    lists[i] == [] || i in running || t.active || (t.timeout && lists[i][0] in es && t.us <= es[lists[i][0]].us)
  }

  /** All lists but the one excepted are armed. */
  ghost predicate AllArmed(es: Events, lists: seq<seq<nat>>, timers: seq<nat>, running: set<nat>, except: Option<nat>) {
    |timers| == |lists| && forall i: nat | i < |lists| && except != Some(i) :: Armed(es, lists, timers, running, i)
  }

  // ----- what single changes do

  /** es with other fields of e than those that concern the timeout queues */
  lemma TimeoutsUntouched(es: Events, heap: seq<nat>, lists: seq<seq<nat>>, e: nat, v: Ev)
    requires TimeoutQueues(es, heap, lists) && e in es
    requires v.timeout == es[e].timeout && (v.timeout ==> v.us == es[e].us && v.common == es[e].common)
    ensures TimeoutQueues(es[e := v], heap, lists)
  {
    var es' := es[e := v];
    forall x ensures Pending(es', x, None) <==> Pending(es, x, None) {}
    forall i | 0 <= i < |lists| ensures ListOk(es', lists, i) {
      assert ListOk(es, lists, i);
      forall x ensures Pending(es', x, Some(i)) <==> Pending(es, x, Some(i)) {}
      SortedElsewhere(es, lists[i], e, v);
    }
  }

  lemma SortedElsewhere(es: Events, l: seq<nat>, e: nat, v: Ev)
    requires Sorted(es, l) && e in es && (e in l ==> v.us == es[e].us)
    ensures Sorted(es[e := v], l)
  {
    forall j, k | 0 <= j < k < |l| ensures InOrder(es[e := v], l[j], l[k]) {
      assert InOrder(es, l[j], l[k]);
    }
  }

  /** event_queue_remove with EVLIST_TIMEOUT */
  lemma TimeoutRemoved(es: Events, heap: seq<nat>, lists: seq<seq<nat>>, e: nat)
    requires TimeoutQueues(es, heap, lists) && e in es && es[e].timeout
    ensures var es' := es[e := es[e].(timeout := false)];
            match es[e].common
            case None => e in heap && TimeoutQueues(es', Remove(heap, e), lists)
            case Some(i) =>
              i < |lists| && e in lists[i] && TimeoutQueues(es', heap, lists[i := Remove(lists[i], e)])
  {
    var es' := es[e := es[e].(timeout := false)];
    assert Pending(es, e, es[e].common);
    forall i | 0 <= i < |lists| ensures ListOk(es, lists, i) && Sorted(es', lists[i]) {
      assert ListOk(es, lists, i);
      SortedElsewhere(es, lists[i], e, es[e].(timeout := false));
    }
    forall x, c ensures Pending(es', x, c) <==> Pending(es, x, c) && x != e {}
    if es[e].common.None? {
      RemoveFacts(heap, e);
    } else {
      var i := es[e].common.value;
      assert ListOk(es, lists, i);
      RemoveFacts(lists[i], e);
      SortedLess(es', lists[i], e);
      var lists' := lists[i := Remove(lists[i], e)];
      forall k | 0 <= k < |lists'| ensures ListOk(es', lists', k) {
        assert ListOk(es, lists, k);
      }
    }
  }

  lemma {:induction false} SortedLess(es: Events, l: seq<nat>, e: nat)
    requires Sorted(es, l) && e in l
    ensures Sorted(es, Remove(l, e))
  {
    if l[0] == e {
      assert forall j, k | 0 <= j < k < |l[1..]| ::
               InOrder(es, l[1 + j], l[1 + k]) ==> InOrder(es, l[1..][j], l[1..][k]);
    } else {
      assert Sorted(es, l[1..]) by {
        forall j, k | 0 <= j < k < |l[1..]| ensures InOrder(es, l[1..][j], l[1..][k]) {
          assert InOrder(es, l[1 + j], l[1 + k]);
        }
      }
      SortedLess(es, l[1..], e);
      var t := Remove(l[1..], e);
      RemoveSubset(l[1..], e);
      forall k | 0 <= k < |t| ensures InOrder(es, l[0], t[k]) {
        assert t[k] in l[1..];
        var m :| 0 <= m < |l[1..]| && l[1..][m] == t[k];
        assert InOrder(es, l[0], l[1 + m]);
      }
      forall j, k | 0 <= j < k < |[l[0]] + t| ensures InOrder(es, ([l[0]] + t)[j], ([l[0]] + t)[k]) {
        if j != 0 {
          assert InOrder(es, t[j - 1], t[k - 1]);
        }
      }
    }
  }

  lemma {:induction false} RemoveSubset(s: seq<nat>, e: nat)
    requires e in s
    ensures forall x :: x in Remove(s, e) ==> x in s
  {
    if s[0] != e {
      RemoveSubset(s[1..], e);
    }
  }

  /** event_queue_insert with EVLIST_TIMEOUT; l is the list with e in its place. */
  lemma TimeoutInserted(es: Events, heap: seq<nat>, lists: seq<seq<nat>>, e: nat, v: Ev, l: seq<nat>)
    requires TimeoutQueues(es, heap, lists) && e in es && !es[e].timeout && v.timeout
    requires v.common.Some? ==>
               v.common.value < |lists| && More(lists[v.common.value], l, e) && Sorted(es[e := v], l)
    ensures match v.common
            case None => TimeoutQueues(es[e := v], heap + [e], lists)
            case Some(i) => TimeoutQueues(es[e := v], heap, lists[i := l])
  {
    var es' := es[e := v];
    assert e !in heap by { assert !Pending(es, e, None); }
    AppendNoDup(heap, e);
    forall x, c ensures Pending(es', x, c) <==> Pending(es, x, c) || (x == e && c == v.common) {}
    forall i | 0 <= i < |lists| ensures ListOk(es, lists, i) && Sorted(es', lists[i]) {
      assert ListOk(es, lists, i);
      assert !Pending(es, e, Some(i));
      SortedElsewhere(es, lists[i], e, v);
    }
    if v.common.Some? {
      var lists' := lists[v.common.value := l];
      forall k | 0 <= k < |lists'| ensures ListOk(es', lists', k) {
        assert ListOk(es, lists, k);
      }
    } else {
      forall k | 0 <= k < |lists| ensures ListOk(es', lists, k) {
        assert ListOk(es, lists, k);
      }
    }
  }

  /** The first k events of l are not later than us, and the others are. */
  ghost predicate BehindEarlier(es: Events, l: seq<nat>, us: int, k: int) {
    && 0 <= k <= |l|
    && (forall j | 0 <= j < k :: l[j] in es && es[l[j]].us <= us)
    && forall j | k <= j < |l| :: l[j] in es && us < es[l[j]].us
  }

  /** A list stays armed while its timer stays as it is and its first deadline does not
      become earlier. */
  lemma ArmedLater(es: Events, lists: seq<seq<nat>>, es': Events, lists': seq<seq<nat>>, timers: seq<nat>,
                   running: set<nat>, i: nat)
    requires Armed(es, lists, timers, running, i) && i < |lists'|
    requires timers[i] in es' && es'[timers[i]] == es[timers[i]]
    requires lists'[i] != [] ==>
               && lists[i] != [] && lists[i][0] in es && lists'[i][0] in es'
               && es[lists[i][0]].us <= es'[lists'[i][0]].us
    ensures Armed(es', lists', timers, running, i)
  {}

  /** Removing an event from its list keeps every list armed, except that of e if e is a
      timer. */
  lemma ArmedAfterRemove(es: Events, heap: seq<nat>, lists: seq<seq<nat>>, timers: seq<nat>, running: set<nat>, e: nat,
                         lists': seq<seq<nat>>, v: Ev, except: Option<nat>)
    requires TimeoutQueues(es, heap, lists) && TimersOk(es, timers) && AllArmed(es, lists, timers, running, except)
    requires e in es && v.us == es[e].us && |lists'| == |lists|
    requires except == None || (except.value < |timers| && timers[except.value] == e)
    requires e in timers ==> except != None
    requires forall i | 0 <= i < |lists| :: lists'[i] == lists[i] || (e in lists[i] && lists'[i] == Remove(lists[i], e))
    ensures AllArmed(es[e := v], lists', timers, running, except)
  {
    var es' := es[e := v];
    forall i: nat | i < |lists'| && except != Some(i) ensures Armed(es', lists', timers, running, i) {
      assert Armed(es, lists, timers, running, i) && ListOk(es, lists, i);
      if lists'[i] != [] {
        HeadLater(es, lists[i], e, lists'[i]);
      }
      assert timers[i] != e;
      ArmedLater(es, lists, es', lists', timers, running, i);
    }
  }

  lemma HeadLater(es: Events, l: seq<nat>, e: nat, l': seq<nat>)
    requires Sorted(es, l) && l' != [] && (l' == l || (e in l && l' == Remove(l, e)))
    requires forall x | x in l :: x in es
    ensures l != [] && l[0] in es && l'[0] in es && es[l[0]].us <= es[l'[0]].us
  {
    if l' != l {
      RemoveSubset(l, e);
      assert l'[0] in l;
      var k :| 0 <= k < |l| && l[k] == l'[0];
      assert k != 0 ==> InOrder(es, l[0], l[k]);
    }
  }

  /** An event that gets a deadline: an activation by an earlier one goes. */
  function Queued(v: Ev, us: int, common: Option<nat>): Ev {
    v.(timeout := true, us := us, common := common, active := v.active && !v.byTimeout)
  }

  class EventBase {
    var events: Events
    var heap: seq<nat>            // timeheap
    var lists: seq<seq<nat>>      // common_timeout_queues[i]->events
    var timers: seq<nat>          // common_timeout_queues[i]->timeout_event
    var active: seq<seq<nat>>     // activequeues
    var inserted: seq<nat>        // eventqueue
    ghost var running: set<nat>   // lists whose callback is about to run

    /** Flags match queues. */
    ghost predicate QueuesOk()
      reads this
    {
      TimeoutQueues(events, heap, lists) && ActiveQueues(events, active) && InsertedQueue(events, inserted)
        && TimersOk(events, timers) && |timers| == |lists|
    }

    ghost predicate Valid()
      reads this
    {
      QueuesOk() && AllArmed(events, lists, timers, running, None)
    }

    ghost predicate ArmedBut(except: Option<nat>)
      reads this
    {
      AllArmed(events, lists, timers, running, except)
    }

    constructor (priorities: nat)
      requires 0 < priorities
      ensures Valid() && events == map[]
    {
      events, heap, lists, timers, active, inserted, running := map[], [], [], [], seq(priorities, _ => []), [], {};
    }

    /** event_queue_remove with EVLIST_ACTIVE */
    method RemoveActive(e: nat)
      requires QueuesOk() && e in events && events[e].active
      modifies this`events, this`active
      ensures QueuesOk() && events == old(events)[e := old(events)[e].(active := false)]
    {
      ActiveRemoved(events, active, e);
      TimeoutsUntouched(events, heap, lists, e, events[e].(active := false));
      var p := events[e].pri;
      active := active[p := Remove(active[p], e)];
      events := events[e := events[e].(active := false)];
    }

    /** event_queue_remove with EVLIST_TIMEOUT */
    method RemoveTimeout(e: nat, ghost except: Option<nat>)
      requires QueuesOk() && ArmedBut(except) && e in events && events[e].timeout
      requires except == None || (except.value < |timers| && timers[except.value] == e)
      requires e in timers ==> except != None
      modifies this`events, this`heap, this`lists
      ensures QueuesOk() && ArmedBut(except) && events == old(events)[e := old(events)[e].(timeout := false)]
      ensures |lists| == |old(lists)| && (old(events)[e].common.None? ==> |heap| == |old(heap)| - 1)
      ensures forall i | 0 <= i < |lists| ::
                lists[i] == old(lists)[i] || (e in old(lists)[i] && lists[i] == Remove(old(lists)[i], e))
    {
      hide TimeoutQueues;
      TimeoutRemoved(events, heap, lists, e);
      ActivesUntouched(events, active, e, events[e].(timeout := false));
      ghost var es, hs, ls, v := events, heap, lists, events[e].(timeout := false);
      match events[e].common {
        case None => heap := Remove(heap, e);
        case Some(i) => lists := lists[i := Remove(lists[i], e)];
      }
      events := events[e := events[e].(timeout := false)];
      ArmedAfterRemove(es, hs, ls, timers, running, e, lists, v, except);
    }

    /** event_active_nolock */
    method Activate(e: nat, byTimeout: bool, ghost except: Option<nat>)
      requires QueuesOk() && ArmedBut(except) && e in events
      requires except == None || (except.value < |timers| && timers[except.value] == e)
      modifies this`events, this`active
      ensures Valid() && e in events && events[e].active && (byTimeout ==> events[e].byTimeout)
      ensures var v := old(events)[e];
              && events == old(events)[e := v.(active := true, byTimeout := byTimeout || (v.active && v.byTimeout))]
              && active == if v.active then old(active) else old(active)[v.pri := old(active)[v.pri] + [e]]
    {
      hide TimeoutQueues;
      ghost var es := events;
      var v := if events[e].active then events[e].(byTimeout := events[e].byTimeout || byTimeout)
               else events[e].(active := true, byTimeout := byTimeout);
      TimeoutsUntouched(events, heap, lists, e, v);
      ActiveInserted(events, active, e, v);
      if !events[e].active {
        active := active[events[e].pri := active[events[e].pri] + [e]];
      }
      events := events[e := v];
      ActiveKeepsArmed(es, lists, timers, running, e, v, except);
    }

    /** The start of the timeout part of event_add_internal: an old deadline goes, and so
        does an activation by an old timeout. */
    method Unqueue(e: nat, ghost except: Option<nat>)
      requires QueuesOk() && ArmedBut(except) && e in events
      requires except == None || (except.value < |timers| && timers[except.value] == e)
      requires e in timers ==> except != None
      modifies this`events, this`heap, this`lists, this`active
      ensures QueuesOk() && ArmedBut(except) && |lists| == |old(lists)|
      ensures var v := old(events)[e];
              events == old(events)[e := v.(timeout := false, active := v.active && !v.byTimeout)]
      ensures forall i | 0 <= i < |lists| ::
                lists[i] == old(lists)[i] || (e in old(lists)[i] && lists[i] == Remove(old(lists)[i], e))
    {
      hide TimeoutQueues, ActiveQueues, InsertedQueue, TimersOk, AllArmed;
      ghost var es := events;
      assert es[e := es[e]] == es;
      if events[e].timeout {
        RemoveTimeout(e, except);
      }
      if events[e].active && events[e].byTimeout {
        ghost var before := events;
        RemoveActive(e);
        InactiveArmed(before, lists, timers, running, e, except);
      }
    }

    /** The insertion of a deadline without a mark into the heap */
    method Push(e: nat, us: int, ghost except: Option<nat>)
      requires QueuesOk() && ArmedBut(except) && e in events && !events[e].timeout
      requires except == None || (except.value < |timers| && timers[except.value] == e)
      requires e in timers ==> except != None
      modifies this`events, this`heap
      ensures QueuesOk() && ArmedBut(except)
      ensures events == old(events)[e := old(events)[e].(timeout := true, us := us, common := None)]
    {
      hide TimeoutQueues;
      var v := events[e].(timeout := true, us := us, common := None);
      NotListed(events, heap, lists, e);
      TimeoutInserted(events, heap, lists, e, v, []);
      ActivesUntouched(events, active, e, v);
      PushKeepsArmed(events, heap, lists, timers, running, e, v, except);
      heap := heap + [e];
      events := events[e := v];
    }

    /** common_timeout_schedule for list i, whose first event is given.  The timer goes into the heap. */
    method Schedule(i: nat, head: nat)
      requires QueuesOk() && i < |lists| && ArmedBut(Some(i)) && lists[i] != [] && head == lists[i][0] && head in events
      modifies this`events, this`heap, this`lists, this`active
      ensures Valid() && lists == old(lists) && timers[i] in events
      ensures events == old(events)[timers[i] := Queued(old(events)[timers[i]], old(events)[head].us, None)]
      ensures var t := events[timers[i]];
              t.timeout && t.us == old(events)[head].us && t.inserted == old(events)[timers[i]].inserted
    {
      hide TimeoutQueues, ActiveQueues, InsertedQueue, AllArmed;
      var t, us := timers[i], events[head].us;
      TimerNotListed(events, heap, lists, timers, i);
      Unqueue(t, Some(i));
      assert lists == old(lists);
      Push(t, us, Some(i));
      Rearmed(events, lists, timers, running, i);
    }

    /** insert_common_timeout_inorder: from the end, behind the first event that is not
        later */
    method InsertInOrder(i: nat, e: nat, v: Ev) returns (l: seq<nat>)
      requires QueuesOk() && i < |lists| && e in events && e !in lists[i]
      ensures l != [] && More(lists[i], l, e) && Sorted(events[e := v], l)
      ensures l[0] == e || (lists[i] != [] && l[0] == lists[i][0])
      ensures exists k :: BehindEarlier(events, lists[i], v.us, k) && l == lists[i][..k] + [e] + lists[i][k..]
    {
      hide TimeoutQueues, ActiveQueues, InsertedQueue, Sorted, NoDup, More, BehindEarlier, TimersOk;
      var q := lists[i];
      var k: nat := |q|;
      ListFacts(events, heap, lists, i);
      while 0 < k && v.us < events[q[k - 1]].us
        invariant k <= |q| && forall j | k <= j < |q| :: v.us < events[q[j]].us
      {
        k := k - 1;
      }
      l := q[..k] + [e] + q[k..];
      InsertedAt(events, q, e, v, k);
      EarlierInFront(events, q, v.us, k);
    }

    /** event_add_internal with a marked deadline, for an event that is no timer */
    method AddCommon(e: nat, us: int, i: nat)
      requires Valid() && e in events && e !in timers && i < |lists|
      modifies this`events, this`heap, this`lists, this`active
      ensures Valid() && e in events && |lists| == |old(lists)|
      ensures events[e] == Queued(old(events)[e], us, Some(i))
      ensures events.Keys == old(events.Keys)
      ensures forall x | x in events && x != e && x != timers[i] :: events[x] == old(events)[x]
      ensures timers[i] in events && events[timers[i]].inserted == old(events)[timers[i]].inserted
    {
      hide TimeoutQueues, ActiveQueues, InsertedQueue, AllArmed;
      Unqueue(e, None);
      NotListed(events, heap, lists, e);
      var v := events[e].(timeout := true, us := us, common := Some(i));
      var l := InsertInOrder(i, e, v);
      TimeoutInserted(events, heap, lists, e, v, l);
      ActivesUntouched(events, active, e, v);
      InsertedUntouched(events, inserted, e, v);
      CommonKeepsArmed(events, heap, lists, timers, running, e, v, l);
      lists := lists[i := l];
      events := events[e := v];
      if l[0] == e {
        Schedule(i, e);
      }
    }

    /** event_add_internal.  io tells whether the event also waits for a descriptor or a
        signal; what evmap returns for it is arbitrary. */
    method Add(e: nat, io: bool, deadline: Option<(int, Option<nat>)>) returns (res: int)
      requires Valid() && e in events && e !in timers
      requires deadline.Some? && deadline.value.1.Some? ==> deadline.value.1.value < |lists|
      modifies this`events, this`heap, this`lists, this`active, this`inserted
      ensures Valid() && events.Keys == old(events.Keys)
      ensures res == 0 || (res == -1 && io && !old(events)[e].inserted && !old(events)[e].active)
      ensures res == -1 ==> events == old(events) && lists == old(lists) && heap == old(heap) && active == old(active)
      ensures var v := old(events)[e];
              var registered := v.(inserted := v.inserted || (io && !v.active));
              res == 0 ==>
                events[e] == if deadline.None? then registered
                             else Queued(registered, deadline.value.0, deadline.value.1)
      ensures forall x | x in events && x != e && events[x] != old(events)[x] ::
                deadline.Some? && deadline.value.1.Some? && x == timers[deadline.value.1.value]
    {
      hide TimeoutQueues, ActiveQueues, AllArmed;
      res := 0;
      if io && !events[e].inserted && !events[e].active {
        res := *;
        if res != -1 {
          res := 0;
          InsertEvent(e);
        }
      }
      if res != -1 && deadline.Some? {
        var us, common := deadline.value.0, deadline.value.1;
        match common {
          case Some(i) => AddCommon(e, us, i);
          case None =>
            Unqueue(e, None);
            Push(e, us, None);
        }
      }
    }

    /** event_queue_insert with EVLIST_INSERTED */
    method InsertEvent(e: nat)
      requires Valid() && e in events && !events[e].inserted
      modifies this`events, this`inserted
      ensures Valid() && events == old(events)[e := old(events)[e].(inserted := true)]
    {
      hide TimeoutQueues, ActiveQueues;
      var v := events[e].(inserted := true);
      TimeoutsUntouched(events, heap, lists, e, v);
      ActivesUntouched(events, active, e, v);
      AppendNoDup(inserted, e);
      SameForArming(events, lists, timers, running, e, v);
      inserted := inserted + [e];
      events := events[e := v];
    }

    /** event_del_internal */
    method Del(e: nat, ghost except: Option<nat>)
      requires QueuesOk() && ArmedBut(except) && e in events
      requires except == None || (except.value < |timers| && timers[except.value] == e)
      requires e in timers ==> except != None
      modifies this`events, this`heap, this`lists, this`active, this`inserted
      ensures QueuesOk() && ArmedBut(except) && |lists| == |old(lists)|
      ensures Pending(old(events), e, None) ==> |heap| == |old(heap)| - 1
      ensures events == old(events)[e := old(events)[e].(timeout := false, active := false, inserted := false)]
      ensures forall i | 0 <= i < |lists| ::
                lists[i] == old(lists)[i] || (e in old(lists)[i] && lists[i] == Remove(old(lists)[i], e))
    {
      hide TimeoutQueues, ActiveQueues, InsertedQueue, AllArmed, TimersOk;
      assert events[e := events[e]] == events;
      if events[e].timeout {
        RemoveTimeout(e, except);
      }
      if events[e].active {
        ghost var before := events;
        RemoveActive(e);
        InactiveArmed(before, lists, timers, running, e, except);
      }
      if events[e].inserted {
        RemoveInserted(e, except);
      }
    }

    /** event_queue_remove with EVLIST_INSERTED */
    method RemoveInserted(e: nat, ghost except: Option<nat>)
      requires QueuesOk() && ArmedBut(except) && e in events && events[e].inserted
      modifies this`events, this`inserted
      ensures QueuesOk() && ArmedBut(except) && events == old(events)[e := old(events)[e].(inserted := false)]
    {
      hide TimeoutQueues, ActiveQueues;
      var v := events[e].(inserted := false);
      TimeoutsUntouched(events, heap, lists, e, v);
      ActivesUntouched(events, active, e, v);
      RemoveFacts(inserted, e);
      UninsertedArmed(events, lists, timers, running, e, except);
      inserted := Remove(inserted, e);
      events := events[e := v];
    }

    /** min_heap_top: an event of the heap with the earliest deadline */
    method HeapTop() returns (top: Option<nat>)
      requires QueuesOk()
      ensures top == None <==> heap == []
      ensures top.Some? ==> Pending(events, top.value, None)
      ensures top.Some? ==> forall e | Pending(events, e, None) :: InOrder(events, top.value, e)
    {
      if heap == [] {
        return None;
      }
      assert forall j | 0 <= j < |heap| :: heap[j] in heap;
      var best, k := heap[0], 1;
      while k < |heap|
        invariant 1 <= k <= |heap| && best in heap && forall j | 0 <= j < k :: InOrder(events, best, heap[j])
      {
        if events[heap[k]].us < events[best].us {
          best := heap[k];
        }
        k := k + 1;
      }
      forall e | Pending(events, e, None) ensures InOrder(events, best, e) {
        assert e in heap;
      }
      top := Some(best);
    }

    /** The list whose timer e is */
    ghost function ListOfTimer(e: nat): Option<nat>
      reads this
    {
      if i: nat :| i < |timers| && timers[i] == e then Some(i) else None
    }

    /** timeout_process: what is due in the heap becomes active.  Then every due event is
        active, or in a common list whose timer is active or about to run. */
    method TimeoutProcess(now: int)
      requires Valid()
      modifies this`events, this`heap, this`lists, this`active, this`inserted
      ensures Valid() && events.Keys == old(events.Keys) && |lists| == |old(lists)|
      ensures forall e | e in events && events[e].timeout && events[e].us <= now ::
                exists i: nat :: i < |timers| && events[e].common == Some(i) && Seen(events, timers, running, i)
      ensures events == Fired(old(events), None, now)
    {
      hide TimeoutQueues, ActiveQueues, InsertedQueue, AllArmed, TimersOk, Firing;
      var top := HeapTop();
      NothingFired(events, None, now);
      while top.Some? && events[top.value].us <= now
        invariant Valid() && events.Keys == old(events.Keys) && |lists| == |old(lists)|
        invariant top.None? <==> heap == []
        invariant top.Some? ==> Pending(events, top.value, None)
        invariant top.Some? ==> forall e | Pending(events, e, None) :: InOrder(events, top.value, e)
        invariant Firing(old(events), events, None, now)
        decreases |heap|
      {
        var ev := top.value;
        ghost var except, es := ListOfTimer(ev), events;
        Weaken(events, lists, timers, running, except);
        Del(ev, except);
        Activate(ev, true, except);
        OneFired(old(events), es, events, None, now, ev);
        top := HeapTop();
      }
      NothingDue(events, heap, lists, timers, running, now, top);
      AllFired(old(events), events, None, now);
    }

    /** event_process_active takes an event out of its active queue: a persistent event
        stays where else it is.  The callback of a timer is about to run then. */
    method Take(e: nat, persist: bool)
      requires Valid() && e in events && events[e].active && (e in timers ==> !persist)
      modifies this`events, this`heap, this`lists, this`active, this`inserted, this`running
      ensures var v := old(events)[e];
              Valid() && events == old(events)[e := if persist then v.(active := false)
                                                    else v.(timeout := false, active := false, inserted := false)]
      ensures |lists| == |old(lists)|
      ensures forall i: nat :: i in running <==>
                i in old(running) || (!persist && i < |timers| && timers[i] == e)
    {
      hide TimeoutQueues, ActiveQueues, InsertedQueue, AllArmed, TimersOk;
      ghost var except := ListOfTimer(e);
      Weaken(events, lists, timers, running, except);
      if persist {
        assert e !in timers by { NotATimer(timers, e, except); }
        ghost var es := events;
        RemoveActive(e);
        UserInactiveArmed(es, lists, timers, running, e);
      } else {
        Del(e, except);
        ghost var was := running;
        if except.Some? {
          running := running + {except.value};
        }
        NowRunning(events, lists, timers, was, except);
        OneTimer(events, timers, e, except);
      }
    }

    /** common_timeout_callback, of a timer whose callback is to be run */
    method CommonCallback(i: nat, now: int)
      requires Valid() && i < |lists| && i in running
      modifies this`events, this`heap, this`lists, this`active, this`inserted, this`running
      ensures Valid() && events.Keys == old(events.Keys) && |lists| == |old(lists)| && running == old(running) - {i}
      ensures timers[i] in events && events == Fired(old(events), Some(i), now)[timers[i] := events[timers[i]]]
      ensures forall e | Pending(events, e, Some(i)) :: now < events[e].us
      ensures lists[i] == [] ==> events == Fired(old(events), Some(i), now)
      ensures lists[i] != [] ==>
                && lists[i][0] in events && events[timers[i]].timeout
                && events[timers[i]].us == events[lists[i][0]].us
    {
      hide TimeoutQueues, ActiveQueues, InsertedQueue, AllArmed, TimersOk, Firing, Fired;
      NothingFired(events, Some(i), now);
      TimerIs(events, timers, i);
      var ev := None;
      while true
        invariant Valid() && events.Keys == old(events.Keys) && |lists| == |old(lists)| && running == old(running)
        invariant Firing(old(events), events, Some(i), now)
        decreases |lists[i]|
      {
        if lists[i] == [] {
          ev := None;
          break;
        }
        ev := Some(lists[i][0]);
        HeadIs(events, heap, lists, i);
        if now < events[lists[i][0]].us {
          break;
        }
        var e := lists[i][0];
        ghost var es, l := events, lists[i];
        ListedIsNoTimer(events, heap, lists, timers, i, e);
        Del(e, None);
        DelShortens(es, events, heap, lists, i, l, e);
        Activate(e, true, None);
        OneFired(old(events), es, events, Some(i), now, e);
      }
      NothingDueIn(events, heap, lists, now, i);
      AllFired(old(events), events, Some(i), now);
      running := running - {i};
      assert running + {i} == old(running);
      ArmedButRunning(events, lists, timers, running, i);
      if ev.Some? {
        ghost var es := events;
        TimerIs(events, timers, i);
        Schedule(i, ev.value);
        TimerChanged(es, events, heap, lists, timers, now, i);
      } else {
        EmptyArmed(events, lists, timers, running, i);
      }
    }

    /** One round of the loop at time now, as far as timeouts go: timeout_process, and the
        callbacks of the internal timers that it made active.  A user's event cannot tell
        whether its deadline was in the heap or in a list: it is active if it was due, and
        as it was if not. */
    method ProcessTimeouts(now: int)
      requires Valid() && running == {}
      modifies this`events, this`heap, this`lists, this`active, this`inserted, this`running
      ensures Valid() && running == {} && events.Keys == old(events.Keys)
      ensures forall e | e in events && e !in timers ::
                events[e] == if old(events)[e].timeout && old(events)[e].us <= now then ByDeadline(old(events)[e])
                             else old(events)[e]
    {
      hide QueuesOk, AllArmed, Fired, FiredBelow, SameTimers, AllSeen, Valid;
      ghost var es0 := events;
      TimeoutProcess(now);
      TimersAre();
      ghost var es1 := events;
      FiredFromHeap(es0, es1, timers, now);
      SeenByTimer(es1, timers, now);
      var i := 0;
      while i < |lists|
        invariant i <= |lists| == |timers| && Valid() && running == {} && events.Keys == es0.Keys
        invariant FiredBelow(es0, events, timers, now, i) && SameTimers(es1, events, timers, i)
      {
        ProcessTimer(i, now, es0, es1);
        i := i + 1;
      }
      AllListsFired(es0, es1, events, timers, now);
    }

    /** The internal timer of list i: if it is active, its callback runs. */
    method ProcessTimer(i: nat, now: int, ghost es0: Events, ghost es1: Events)
      requires Valid() && running == {} && i < |lists| && i < |timers|
      requires FiredBelow(es0, events, timers, now, i) && SameTimers(es1, events, timers, i)
      requires es1 == Fired(es0, None, now) && AllSeen(es1, timers, now)
      modifies this`events, this`heap, this`lists, this`active, this`inserted, this`running
      ensures Valid() && running == {} && events.Keys == old(events.Keys) && |lists| == |old(lists)|
      ensures FiredBelow(es0, events, timers, now, i + 1) && SameTimers(es1, events, timers, i + 1)
    {
      hide QueuesOk, AllArmed, Fired, FiredBelow, SameTimers, AllSeen, Valid;
      TimersAre();
      ghost var es := events;
      var t := timers[i];
      if events[t].active {
        Take(t, false);
        OnlyTimer(es, timers, i);
        assert running == {i};
        CommonCallback(i, now);
        OneListFired(es0, es1, es, events, timers, now, i,
            es[t].(timeout := false, active := false, inserted := false));
      } else {
        NoListFired(es0, es1, es, timers, now, i);
      }
    }

    lemma TimersAre()
      requires Valid()
      ensures |lists| == |timers| && TimersOk(events, timers)
      ensures forall e | e in events && events[e].timeout && events[e].common.Some? :: events[e].common.value < |timers|
    {}

    /** event_assign: a new event with no flags */
    method Assign(e: nat, pri: nat)
      requires Valid() && e !in events && pri < |active|
      modifies this`events
      ensures Valid() && events == old(events)[e := Ev(false, false, false, false, 0, None, pri)]
    {
      NewEventKeeps(events, heap, lists, active, inserted, timers, running, e, pri);
      events := events[e := Ev(false, false, false, false, 0, None, pri)];
    }

    /** event_base_init_common_timeout, for a duration that has no list yet: a list and
        its timer */
    method NewCommonList(timer: nat)
      requires Valid() && timer !in events && active != []
      modifies this`events, this`lists, this`timers
      ensures Valid() && lists == old(lists) + [[]] && timers == old(timers) + [timer]
    {
      hide TimeoutQueues, ActiveQueues, InsertedQueue, AllArmed;
      Assign(timer, 0);
      NewListKeeps(events, heap, lists, timers, running, timer);
      lists, timers := lists + [[]], timers + [timer];
    }

    /** timeout_correct, when the clock went back by off: every deadline moves by off. */
    method TimeoutCorrect(off: int)
      requires Valid()
      modifies this`events
      ensures Valid() && events == Moved(old(events), off)
    {
      hide TimeoutQueues, AllArmed, ActiveQueues, InsertedQueue, TimersOk, Moved, MovedIn;
      ghost var es := events;
      ghost var done: set<nat> := {};
      NothingMoved(es, off);
      QueueFacts(es, heap, lists, 0);
      MoveAll(heap, off, es, done);
      done := done + set e | e in heap;
      var i := 0;
      while i < |lists|
        invariant i <= |lists| && events == MovedIn(es, off, done)
        invariant forall e :: e in done <==> Pending(es, e, None) || PendingBelow(es, e, i)
      {
        QueueFacts(es, heap, lists, i);
        MoveAll(lists[i], off, es, done);
        done := done + set e | e in lists[i];
        i := i + 1;
      }
      AllMoved(es, heap, lists, off, done);
      MovedKeeps(es, heap, lists, active, inserted, timers, running, off);
    }

    /** Move the deadlines of the events of one queue. */
    method MoveAll(q: seq<nat>, off: int, ghost es: Events, ghost done: set<nat>)
      requires events == MovedIn(es, off, done) && NoDup(q) && forall e | e in q :: e in es && e !in done
      modifies this`events
      ensures events == MovedIn(es, off, done + set e | e in q)
    {
      ghost var d := done;
      var k := 0;
      while k < |q|
        invariant k <= |q| && events == MovedIn(es, off, d)
        invariant d == done + set e | e in q[..k]
      {
        var e := q[k];
        assert e in q && e !in q[..k];
        MoveOne(es, off, d, e);
        events := events[e := events[e].(us := events[e].us - off)];
        d := d + {e};
        assert q[..k + 1] == q[..k] + [e];
        k := k + 1;
      }
      assert q[..k] == q;
    }
  }

  lemma ActivesUntouched(es: Events, active: seq<seq<nat>>, e: nat, v: Ev)
    requires ActiveQueues(es, active) && e in es && v.active == es[e].active && v.pri == es[e].pri
    ensures ActiveQueues(es[e := v], active)
  {
    var es' := es[e := v];
    forall p | 0 <= p < |active| ensures QueueOk(es', active, p) {
      assert QueueOk(es, active, p);
      forall x ensures ActiveAt(es', x, p) <==> ActiveAt(es, x, p) {}
    }
  }

  lemma ActiveRemoved(es: Events, active: seq<seq<nat>>, e: nat)
    requires ActiveQueues(es, active) && e in es && es[e].active
    ensures var p := es[e].pri;
            && p < |active| && e in active[p]
            && ActiveQueues(es[e := es[e].(active := false)], active[p := Remove(active[p], e)])
  {
    var p := es[e].pri;
    assert QueueOk(es, active, p) && ActiveAt(es, e, p);
    RemoveFacts(active[p], e);
    var es', active' := es[e := es[e].(active := false)], active[p := Remove(active[p], e)];
    forall q | 0 <= q < |active'| ensures QueueOk(es', active', q) {
      assert QueueOk(es, active, q);
      forall x ensures ActiveAt(es', x, q) <==> ActiveAt(es, x, q) && x != e {}
    }
  }

  lemma ActiveInserted(es: Events, active: seq<seq<nat>>, e: nat, v: Ev)
    requires ActiveQueues(es, active) && e in es && v.active && v.pri == es[e].pri
    ensures var p := v.pri;
            && p < |active|
            && ActiveQueues(es[e := v], if es[e].active then active else active[p := active[p] + [e]])
  {
    var p := v.pri;
    assert QueueOk(es, active, p);
    var es', active' := es[e := v], if es[e].active then active else active[p := active[p] + [e]];
    assert !es[e].active ==> e !in active[p] by { assert e in active[p] ==> ActiveAt(es, e, p); }
    if !es[e].active {
      AppendNoDup(active[p], e);
    }
    forall q | 0 <= q < |active'| ensures QueueOk(es', active', q) {
      assert QueueOk(es, active, q);
      forall x ensures ActiveAt(es', x, q) <==> ActiveAt(es, x, q) || (x == e && q == p) {}
    }
  }

  lemma ActiveKeepsArmed(es: Events, lists: seq<seq<nat>>, timers: seq<nat>, running: set<nat>, e: nat, v: Ev,
                         except: Option<nat>)
    requires AllArmed(es, lists, timers, running, except) && TimersOk(es, timers)
    requires e in es && v.active && v.us == es[e].us && v.timeout == es[e].timeout
    requires except == None || (except.value < |timers| && timers[except.value] == e)
    ensures AllArmed(es[e := v], lists, timers, running, None)
  {
    var es' := es[e := v];
    forall i: nat | i < |lists| ensures Armed(es', lists, timers, running, i) {
      if except != Some(i) {
        assert Armed(es, lists, timers, running, i);
      }
    }
  }

  lemma NotListed(es: Events, heap: seq<nat>, lists: seq<seq<nat>>, e: nat)
    requires TimeoutQueues(es, heap, lists) && e in es && !es[e].timeout
    ensures forall i | 0 <= i < |lists| :: e !in lists[i]
  {
    forall i | 0 <= i < |lists| ensures e !in lists[i] {
      assert ListOk(es, lists, i) && !Pending(es, e, Some(i));
    }
  }

  lemma TimerNotListed(es: Events, heap: seq<nat>, lists: seq<seq<nat>>, timers: seq<nat>, i: nat)
    requires TimeoutQueues(es, heap, lists) && TimersOk(es, timers) && i < |timers|
    ensures timers[i] in es && forall k | 0 <= k < |lists| :: timers[i] !in lists[k]
  {
    forall k | 0 <= k < |lists| ensures timers[i] !in lists[k] {
      assert ListOk(es, lists, k) && !Pending(es, timers[i], Some(k));
    }
  }

  /** Deactivating an event disarms no list but its own, if it is a timer. */
  lemma InactiveArmed(es: Events, lists: seq<seq<nat>>, timers: seq<nat>, running: set<nat>, e: nat,
                      except: Option<nat>)
    requires AllArmed(es, lists, timers, running, except) && e in es
    requires except == None || (except.value < |timers| && timers[except.value] == e)
    requires e in timers ==> except != None
    requires TimersOk(es, timers)
    ensures AllArmed(es[e := es[e].(active := false)], lists, timers, running, except)
  {
    var es' := es[e := es[e].(active := false)];
    forall i: nat | i < |lists| && except != Some(i) ensures Armed(es', lists, timers, running, i) {
      assert Armed(es, lists, timers, running, i);
      assert timers[i] != e;
    }
  }

  lemma PushKeepsArmed(es: Events, heap: seq<nat>, lists: seq<seq<nat>>, timers: seq<nat>, running: set<nat>, e: nat,
                       v: Ev, except: Option<nat>)
    requires AllArmed(es, lists, timers, running, except) && e in es && TimersOk(es, timers)
    requires except == None || (except.value < |timers| && timers[except.value] == e)
    requires e in timers ==> except != None
    requires forall i | 0 <= i < |lists| :: e !in lists[i]
    ensures AllArmed(es[e := v], lists, timers, running, except)
  {
    var es' := es[e := v];
    forall i: nat | i < |lists| && except != Some(i) ensures Armed(es', lists, timers, running, i) {
      assert Armed(es, lists, timers, running, i);
      assert timers[i] != e;
      assert lists[i] != [] ==> lists[i][0] in lists[i];
    }
  }

  lemma Rearmed(es: Events, lists: seq<seq<nat>>, timers: seq<nat>, running: set<nat>, i: nat)
    requires i < |lists| && AllArmed(es, lists, timers, running, Some(i)) && timers[i] in es && es[timers[i]].timeout
    requires lists[i] != [] && lists[i][0] in es && es[timers[i]].us <= es[lists[i][0]].us
    ensures AllArmed(es, lists, timers, running, None)
  {
    assert Armed(es, lists, timers, running, i);
  }

  lemma ListFacts(es: Events, heap: seq<nat>, lists: seq<seq<nat>>, i: nat)
    requires TimeoutQueues(es, heap, lists) && i < |lists|
    ensures NoDup(lists[i]) && Sorted(es, lists[i]) && forall j | 0 <= j < |lists[i]| :: lists[i][j] in es
  {
    assert ListOk(es, lists, i);
    assert forall j | 0 <= j < |lists[i]| :: lists[i][j] in lists[i];
  }

  lemma EarlierInFront(es: Events, q: seq<nat>, us: int, k: nat)
    requires Sorted(es, q) && k <= |q| && forall j | 0 <= j < |q| :: q[j] in es
    requires forall j | k <= j < |q| :: us < es[q[j]].us
    requires 0 < k ==> es[q[k - 1]].us <= us
    ensures BehindEarlier(es, q, us, k)
  {
    forall j | 0 <= j < k ensures es[q[j]].us <= us {
      assert j < k - 1 ==> InOrder(es, q[j], q[k - 1]);
    }
  }

  lemma InsertedAt(es: Events, q: seq<nat>, e: nat, v: Ev, k: nat)
    requires Sorted(es, q) && NoDup(q) && e !in q && k <= |q| && forall j | 0 <= j < |q| :: q[j] in es
    requires forall j | k <= j < |q| :: v.us < es[q[j]].us
    requires 0 < k ==> es[q[k - 1]].us <= v.us
    ensures var l := q[..k] + [e] + q[k..];
            More(q, l, e) && Sorted(es[e := v], l) && (l[0] == e || l[0] == q[0])
  {
    var l := q[..k] + [e] + q[k..];
    InsertedMore(q, e, k);
    forall i, j | 0 <= i < j < |l| ensures InOrder(es[e := v], l[i], l[j]) {
      if j == k {
        assert l[i] == q[i] && q[i] in q;
        assert i != k - 1 ==> InOrder(es, q[i], q[k - 1]);
      } else if i == k {
        assert l[j] == q[j - 1] && q[j - 1] in q;
      } else {
        var a, b := if i < k then i else i - 1, if j < k then j else j - 1;
        assert l[i] == q[a] && l[j] == q[b] && q[a] in q && q[b] in q;
        assert InOrder(es, q[a], q[b]);
      }
    }
  }

  lemma InsertedMore(q: seq<nat>, e: nat, k: nat)
    requires NoDup(q) && e !in q && k <= |q|
    ensures More(q, q[..k] + [e] + q[k..], e)
  {
    var l := q[..k] + [e] + q[k..];
    forall i, j | 0 <= i < j < |l| ensures l[i] != l[j] {
      if i != k && j != k {
        var a, b := if i < k then i else i - 1, if j < k then j else j - 1;
        assert l[i] == q[a] && l[j] == q[b];
      } else if j == k {
        assert l[i] == q[i] && q[i] in q;
      } else {
        assert l[j] == q[j - 1] && q[j - 1] in q;
      }
    }
    assert q == q[..k] + q[k..];
  }

  lemma InsertedUntouched(es: Events, inserted: seq<nat>, e: nat, v: Ev)
    requires InsertedQueue(es, inserted) && e in es && v.inserted == es[e].inserted
    ensures InsertedQueue(es[e := v], inserted)
  {}

  /** An event that enters its list behind the head leaves all lists armed; in front it
      may only disarm its own. */
  lemma CommonKeepsArmed(es: Events, heap: seq<nat>, lists: seq<seq<nat>>, timers: seq<nat>, running: set<nat>,
                         e: nat, v: Ev, l: seq<nat>)
    requires AllArmed(es, lists, timers, running, None) && e in es && e !in timers && !es[e].timeout
    requires TimeoutQueues(es, heap, lists) && TimersOk(es, timers)
    requires v.common.Some? && v.common.value < |lists| && l != []
    requires l[0] == e || (lists[v.common.value] != [] && l[0] == lists[v.common.value][0])
    ensures var i := v.common.value;
            AllArmed(es[e := v], lists[i := l], timers, running, if l[0] == e then Some(i) else None)
  {
    var i := v.common.value;
    var es', lists' := es[e := v], lists[i := l];
    NotListed(es, heap, lists, e);
    forall k: nat | k < |lists'| && !(l[0] == e && k == i) ensures Armed(es', lists', timers, running, k) {
      assert Armed(es, lists, timers, running, k) && ListOk(es, lists, k);
      assert lists'[k] != [] ==> lists[k] != [] && lists'[k][0] == lists[k][0] && lists[k][0] in lists[k];
      ArmedLater(es, lists, es', lists', timers, running, k);
    }
  }

  lemma SameForArming(es: Events, lists: seq<seq<nat>>, timers: seq<nat>, running: set<nat>, e: nat, v: Ev)
    requires AllArmed(es, lists, timers, running, None) && e in es
    requires v.active == es[e].active && v.timeout == es[e].timeout && v.us == es[e].us
    ensures AllArmed(es[e := v], lists, timers, running, None)
  {
    var es' := es[e := v];
    forall i: nat | i < |lists| ensures Armed(es', lists, timers, running, i) {
      assert Armed(es, lists, timers, running, i);
    }
  }

  lemma UninsertedArmed(es: Events, lists: seq<seq<nat>>, timers: seq<nat>, running: set<nat>, e: nat,
                        except: Option<nat>)
    requires AllArmed(es, lists, timers, running, except) && e in es
    ensures AllArmed(es[e := es[e].(inserted := false)], lists, timers, running, except)
  {
    var es' := es[e := es[e].(inserted := false)];
    forall i: nat | i < |lists| && except != Some(i) ensures Armed(es', lists, timers, running, i) {
      assert Armed(es, lists, timers, running, i);
    }
  }

  ghost predicate Seen(es: Events, timers: seq<nat>, running: set<nat>, i: nat) {
    i in running || (i < |timers| && timers[i] in es && es[timers[i]].active)
  }

  /** e waits for a deadline with mark c that has come. */
  ghost predicate Due(es: Events, e: nat, c: Option<nat>, now: int) {
    Pending(es, e, c) && es[e].us <= now
  }

  /** An event whose deadline has come is in its active queue only, because of the timeout. */
  function ByDeadline(v: Ev): Ev {
    v.(timeout := false, inserted := false, active := true, byTimeout := true)
  }

  /** The events that were due are active, and no other event is touched. */
  ghost function Fired(es: Events, c: Option<nat>, now: int): Events {
    map e | e in es :: if Due(es, e, c, now) then ByDeadline(es[e]) else es[e]
  }

  /** Some of those that were due are active. */
  ghost predicate Firing(es0: Events, es: Events, c: Option<nat>, now: int) {
    && es.Keys == es0.Keys
    && forall e | e in es0 :: es[e] == es0[e] || (Due(es0, e, c, now) && es[e] == ByDeadline(es0[e]))
  }

  lemma NothingFired(es: Events, c: Option<nat>, now: int)
    ensures Firing(es, es, c, now)
  {}

  lemma OneFired(es0: Events, es: Events, es': Events, c: Option<nat>, now: int, e: nat)
    requires Firing(es0, es, c, now) && Due(es, e, c, now)
    requires es' == es[e := ByDeadline(es[e])]
    ensures Firing(es0, es', c, now)
  {}

  lemma AllFired(es0: Events, es: Events, c: Option<nat>, now: int)
    requires Firing(es0, es, c, now) && forall e | Pending(es, e, c) :: now < es[e].us
    ensures es == Fired(es0, c, now)
  {
    forall e | e in es0 ensures es[e] == Fired(es0, c, now)[e] {
      assert Due(es0, e, c, now) && es[e] == es0[e] ==> Pending(es, e, c);
    }
  }

  // ----- one round of timeouts

  /** What is due is active, if it is from the heap or one of the first n lists. */
  ghost predicate FiredBelow(es0: Events, es: Events, timers: seq<nat>, now: int, n: nat) {
    es.Keys == es0.Keys && forall e | e in es0 && e !in timers ::
      var v := es0[e];
      es[e] == if v.timeout && v.us <= now && (v.common.None? || v.common.value < n) then ByDeadline(v) else v
  }

  /** The timers from index n on have not run, and those that should run are active. */
  ghost predicate SameTimers(es1: Events, es: Events, timers: seq<nat>, n: nat) {
    && (forall j | n <= j < |timers| :: timers[j] in es && timers[j] in es1 && es[timers[j]] == es1[timers[j]])
    && forall e | e in es1 && es1[e].timeout && es1[e].common.Some? :: es1[e].common.value < |timers|
  }

  /** Every event that is still due is in a list whose timer is active. */
  ghost predicate AllSeen(es: Events, timers: seq<nat>, now: int) {
    forall e | e in es && es[e].timeout && es[e].us <= now ::
      && es[e].common.Some? && es[e].common.value < |timers|
      && timers[es[e].common.value] in es && es[timers[es[e].common.value]].active
  }

  lemma SeenByTimer(es: Events, timers: seq<nat>, now: int)
    requires forall e | e in es && es[e].timeout && es[e].us <= now ::
               exists i: nat :: i < |timers| && es[e].common == Some(i) && Seen(es, timers, {}, i)
    ensures AllSeen(es, timers, now)
  {}

  lemma AllListsFired(es0: Events, es1: Events, es: Events, timers: seq<nat>, now: int)
    requires FiredBelow(es0, es, timers, now, |timers|) && es1 == Fired(es0, None, now) && AllSeen(es1, timers, now)
    ensures es.Keys == es0.Keys && forall e | e in es && e !in timers ::
              es[e] == if es0[e].timeout && es0[e].us <= now then ByDeadline(es0[e]) else es0[e]
  {
    forall e | e in es0 && e !in timers && es0[e].timeout && es0[e].us <= now && es0[e].common.Some?
      ensures es0[e].common.value < |timers|
    {
      assert es1[e] == es0[e];
    }
  }

  lemma FiredFromHeap(es0: Events, es1: Events, timers: seq<nat>, now: int)
    requires es1 == Fired(es0, None, now) && TimersOk(es1, timers)
    requires forall e | e in es1 && es1[e].timeout && es1[e].common.Some? :: es1[e].common.value < |timers|
    ensures FiredBelow(es0, es1, timers, now, 0) && SameTimers(es1, es1, timers, 0)
  {}

  lemma OnlyTimer(es: Events, timers: seq<nat>, i: nat)
    requires TimersOk(es, timers) && i < |timers|
    ensures forall j: nat | j < |timers| && timers[j] == timers[i] :: j == i
  {}

  lemma OneListFired(es0: Events, es1: Events, es: Events, es': Events, timers: seq<nat>, now: int, i: nat, v: Ev)
    requires FiredBelow(es0, es, timers, now, i) && SameTimers(es1, es, timers, i) && TimersOk(es, timers)
             && i < |timers|
    requires var u := Fired(es[timers[i] := v], Some(i), now); timers[i] in es' && es' == u[timers[i] := es'[timers[i]]]
    ensures FiredBelow(es0, es', timers, now, i + 1) && SameTimers(es1, es', timers, i + 1)
  {
    OnlyTimer(es, timers, i);
  }

  lemma NoListFired(es0: Events, es1: Events, es: Events, timers: seq<nat>, now: int, i: nat)
    requires FiredBelow(es0, es, timers, now, i) && SameTimers(es1, es, timers, i) && i < |timers|
    requires es1 == Fired(es0, None, now) && AllSeen(es1, timers, now) && !es[timers[i]].active
    ensures FiredBelow(es0, es, timers, now, i + 1) && SameTimers(es1, es, timers, i + 1)
  {
    forall e | e in es0 && e !in timers && es0[e].timeout && es0[e].us <= now ensures es0[e].common != Some(i) {
      assert e in es1 && (Due(es0, e, None, now) || es1[e] == es0[e]);
    }
  }

  lemma Weaken(es: Events, lists: seq<seq<nat>>, timers: seq<nat>, running: set<nat>, except: Option<nat>)
    requires AllArmed(es, lists, timers, running, None)
    ensures AllArmed(es, lists, timers, running, except)
  {}

  lemma OneTimer(es: Events, timers: seq<nat>, e: nat, except: Option<nat>)
    requires TimersOk(es, timers)
    requires if except.Some? then except.value < |timers| && timers[except.value] == e else e !in timers
    ensures forall i | 0 <= i < |timers| && timers[i] == e :: except == Some(i)
  {}

  lemma NotATimer(timers: seq<nat>, e: nat, except: Option<nat>)
    requires e !in timers
    ensures forall i | 0 <= i < |timers| :: timers[i] != e
  {}

  /** With nothing due in the heap, a due event is in a list that is about to be handled. */
  lemma NothingDue(es: Events, heap: seq<nat>, lists: seq<seq<nat>>, timers: seq<nat>, running: set<nat>, now: int,
                   top: Option<nat>)
    requires TimeoutQueues(es, heap, lists) && TimersOk(es, timers) && AllArmed(es, lists, timers, running, None)
    requires top.None? ==> heap == []
    requires top.Some? ==>
               && top.value in es && now < es[top.value].us
               && forall e | Pending(es, e, None) :: InOrder(es, top.value, e)
    ensures forall e | Pending(es, e, None) :: now < es[e].us
    ensures forall e | e in es && es[e].timeout && es[e].us <= now ::
              exists i: nat :: i < |timers| && es[e].common == Some(i) && Seen(es, timers, running, i)
  {
    forall e | Pending(es, e, None) ensures now < es[e].us {
      assert e in heap;
      assert InOrder(es, top.value, e);
    }
    forall e | e in es && es[e].timeout && es[e].us <= now
      ensures exists i: nat :: i < |timers| && es[e].common == Some(i) && Seen(es, timers, running, i)
    {
      assert !Pending(es, e, None);
      var i := es[e].common.value;
      assert ListOk(es, lists, i) && Pending(es, e, Some(i)) && Armed(es, lists, timers, running, i);
      assert e in lists[i];
      var k :| 0 <= k < |lists[i]| && lists[i][k] == e;
      assert k != 0 ==> InOrder(es, lists[i][0], lists[i][k]);
      assert !Pending(es, timers[i], None) || now < es[timers[i]].us;
      assert Seen(es, timers, running, i);
    }
  }

  lemma UserInactiveArmed(es: Events, lists: seq<seq<nat>>, timers: seq<nat>, running: set<nat>, e: nat)
    requires AllArmed(es, lists, timers, running, None) && e in es && e !in timers && TimersOk(es, timers)
    ensures AllArmed(es[e := es[e].(active := false)], lists, timers, running, None)
  {
    InactiveArmed(es, lists, timers, running, e, None);
  }

  lemma NowRunning(es: Events, lists: seq<seq<nat>>, timers: seq<nat>, running: set<nat>, except: Option<nat>)
    requires AllArmed(es, lists, timers, running, except) && TimersOk(es, timers)
    ensures AllArmed(es, lists, timers, if except.Some? then running + {except.value} else running, None)
  {
    var running' := if except.Some? then running + {except.value} else running;
    forall i: nat | i < |lists| ensures Armed(es, lists, timers, running', i) {
      if except != Some(i) {
        assert Armed(es, lists, timers, running, i);
      }
    }
  }

  // ----- the callback of a common timeout

  lemma HeadIs(es: Events, heap: seq<nat>, lists: seq<seq<nat>>, i: nat)
    requires TimeoutQueues(es, heap, lists) && i < |lists| && lists[i] != []
    ensures Pending(es, lists[i][0], Some(i))
  {
    assert ListOk(es, lists, i) && lists[i][0] in lists[i];
  }

  lemma ListedIsNoTimer(es: Events, heap: seq<nat>, lists: seq<seq<nat>>, timers: seq<nat>, i: nat, e: nat)
    requires TimeoutQueues(es, heap, lists) && TimersOk(es, timers) && i < |lists| && e in lists[i]
    ensures e !in timers
  {
    assert ListOk(es, lists, i) && Pending(es, e, Some(i));
  }

  lemma DelShortens(es: Events, es': Events, heap: seq<nat>, lists: seq<seq<nat>>, i: nat, l: seq<nat>, e: nat)
    requires TimeoutQueues(es', heap, lists) && i < |lists| && e in l && e in es' && !es'[e].timeout
    requires lists[i] == l || lists[i] == Remove(l, e)
    ensures |lists[i]| < |l|
  {
    NotListed(es', heap, lists, e);
  }

  lemma NothingDueIn(es: Events, heap: seq<nat>, lists: seq<seq<nat>>, now: int, i: nat)
    requires TimeoutQueues(es, heap, lists) && i < |lists|
    requires lists[i] != [] ==> lists[i][0] in es && now < es[lists[i][0]].us
    ensures forall e | Pending(es, e, Some(i)) :: now < es[e].us
  {
    assert ListOk(es, lists, i);
    forall e | Pending(es, e, Some(i)) ensures now < es[e].us {
      assert e in lists[i];
      var k :| 0 <= k < |lists[i]| && lists[i][k] == e;
      assert k != 0 ==> InOrder(es, lists[i][0], lists[i][k]);
    }
  }

  lemma TimerIs(es: Events, timers: seq<nat>, i: nat)
    requires TimersOk(es, timers) && i < |timers|
    ensures timers[i] in es && es[timers[i]].common.None?
  {}

  lemma ArmedButRunning(es: Events, lists: seq<seq<nat>>, timers: seq<nat>, running: set<nat>, i: nat)
    requires AllArmed(es, lists, timers, running + {i}, None)
    ensures AllArmed(es, lists, timers, running, Some(i))
  {
    forall k: nat | k < |lists| && k != i ensures Armed(es, lists, timers, running, k) {
      assert Armed(es, lists, timers, running + {i}, k);
    }
  }

  lemma EmptyArmed(es: Events, lists: seq<seq<nat>>, timers: seq<nat>, running: set<nat>, i: nat)
    requires AllArmed(es, lists, timers, running, Some(i)) && i < |lists| && lists[i] == [] && TimersOk(es, timers)
    ensures AllArmed(es, lists, timers, running, None)
  {
    assert Armed(es, lists, timers, running, i);
  }

  /** Putting the timer into the heap changes no event of a list. */
  lemma TimerChanged(es: Events, es': Events, heap: seq<nat>, lists: seq<seq<nat>>, timers: seq<nat>, now: int, i: nat)
    requires TimeoutQueues(es', heap, lists) && TimersOk(es', timers) && i < |timers| && timers[i] in es
    requires es' == es[timers[i] := es'[timers[i]]]
    requires es[timers[i]].common.None?
    requires forall e | Pending(es, e, Some(i)) :: now < es[e].us
    ensures forall e | Pending(es', e, Some(i)) :: now < es'[e].us
  {}

  lemma NewEventKeeps(es: Events, heap: seq<nat>, lists: seq<seq<nat>>, active: seq<seq<nat>>, inserted: seq<nat>,
                      timers: seq<nat>, running: set<nat>, e: nat, pri: nat)
    requires TimeoutQueues(es, heap, lists) && ActiveQueues(es, active) && InsertedQueue(es, inserted)
    requires TimersOk(es, timers) && AllArmed(es, lists, timers, running, None) && e !in es && pri < |active|
    ensures var es' := es[e := Ev(false, false, false, false, 0, None, pri)];
            && TimeoutQueues(es', heap, lists) && ActiveQueues(es', active) && InsertedQueue(es', inserted)
            && TimersOk(es', timers) && AllArmed(es', lists, timers, running, None)
  {
    var es' := es[e := Ev(false, false, false, false, 0, None, pri)];
    forall x, c ensures Pending(es', x, c) <==> Pending(es, x, c) {}
    forall i | 0 <= i < |lists| ensures ListOk(es', lists, i) {
      assert ListOk(es, lists, i);
      forall j, k | 0 <= j < k < |lists[i]| ensures InOrder(es', lists[i][j], lists[i][k]) {
        assert InOrder(es, lists[i][j], lists[i][k]);
      }
    }
    forall p | 0 <= p < |active| ensures QueueOk(es', active, p) {
      assert QueueOk(es, active, p);
      forall x ensures ActiveAt(es', x, p) <==> ActiveAt(es, x, p) {}
    }
    forall i: nat | i < |lists| ensures Armed(es', lists, timers, running, i) {
      assert Armed(es, lists, timers, running, i) && ListOk(es, lists, i);
    }
  }

  lemma NewListKeeps(es: Events, heap: seq<nat>, lists: seq<seq<nat>>, timers: seq<nat>, running: set<nat>, t: nat)
    requires TimeoutQueues(es, heap, lists) && TimersOk(es, timers) && AllArmed(es, lists, timers, running, None)
    requires t in es && es[t].common.None? && !es[t].timeout && t !in timers
    ensures TimeoutQueues(es, heap, lists + [[]]) && TimersOk(es, timers + [t])
    ensures AllArmed(es, lists + [[]], timers + [t], running, None)
  {
    var lists', timers' := lists + [[]], timers + [t];
    forall i | 0 <= i < |lists'| ensures ListOk(es, lists', i) {
      if i < |lists| {
        assert ListOk(es, lists, i);
      } else {
        forall e ensures !Pending(es, e, Some(i)) {}
      }
    }
    AppendNoDup(timers, t);
    forall i: nat | i < |lists'| ensures Armed(es, lists', timers', running, i) {
      assert i < |lists| ==> Armed(es, lists, timers, running, i);
    }
  }

  // ----- correcting for a clock that went back

  function Moved(es: Events, off: int): Events {
    map e | e in es :: if es[e].timeout then es[e].(us := es[e].us - off) else es[e]
  }

  function MovedIn(es: Events, off: int, done: set<nat>): Events {
    map e | e in es :: if e in done then es[e].(us := es[e].us - off) else es[e]
  }

  ghost predicate PendingBelow(es: Events, e: nat, i: nat) {
    e in es && es[e].timeout && es[e].common.Some? && es[e].common.value < i
  }

  lemma NothingMoved(es: Events, off: int)
    ensures MovedIn(es, off, {}) == es
  {}

  lemma MoveOne(es: Events, off: int, done: set<nat>, e: nat)
    requires e in es && e !in done
    ensures var m := MovedIn(es, off, done);
            e in m && m[e := m[e].(us := m[e].us - off)] == MovedIn(es, off, done + {e})
  {}

  lemma QueueFacts(es: Events, heap: seq<nat>, lists: seq<seq<nat>>, i: nat)
    requires TimeoutQueues(es, heap, lists)
    ensures NoDup(heap) && forall e :: e in heap <==> Pending(es, e, None)
    ensures i < |lists| ==> NoDup(lists[i]) && forall e :: e in lists[i] <==> Pending(es, e, Some(i))
  {
    if i < |lists| {
      assert ListOk(es, lists, i);
    }
  }

  lemma AllMoved(es: Events, heap: seq<nat>, lists: seq<seq<nat>>, off: int, done: set<nat>)
    requires TimeoutQueues(es, heap, lists)
    requires forall e :: e in done <==> Pending(es, e, None) || PendingBelow(es, e, |lists|)
    ensures MovedIn(es, off, done) == Moved(es, off)
  {
    forall e | e in es ensures e in done <==> es[e].timeout {
      assert es[e].timeout && es[e].common.None? ==> Pending(es, e, None);
    }
  }

  lemma MovedKeeps(es: Events, heap: seq<nat>, lists: seq<seq<nat>>, active: seq<seq<nat>>, inserted: seq<nat>,
                   timers: seq<nat>, running: set<nat>, off: int)
    requires TimeoutQueues(es, heap, lists) && ActiveQueues(es, active) && InsertedQueue(es, inserted)
    requires TimersOk(es, timers) && AllArmed(es, lists, timers, running, None)
    ensures var es' := Moved(es, off);
            && TimeoutQueues(es', heap, lists) && ActiveQueues(es', active) && InsertedQueue(es', inserted)
            && TimersOk(es', timers) && AllArmed(es', lists, timers, running, None)
  {
    var es' := Moved(es, off);
    forall x, c ensures Pending(es', x, c) <==> Pending(es, x, c) {}
    forall i | 0 <= i < |lists| ensures ListOk(es', lists, i) {
      assert ListOk(es, lists, i);
      forall j, k | 0 <= j < k < |lists[i]| ensures InOrder(es', lists[i][j], lists[i][k]) {
        assert InOrder(es, lists[i][j], lists[i][k]) && lists[i][j] in lists[i] && lists[i][k] in lists[i];
        assert Pending(es, lists[i][j], Some(i)) && Pending(es, lists[i][k], Some(i));
      }
    }
    forall p | 0 <= p < |active| ensures QueueOk(es', active, p) {
      assert QueueOk(es, active, p);
      forall x ensures ActiveAt(es', x, p) <==> ActiveAt(es, x, p) {}
    }
    forall i: nat | i < |lists| ensures Armed(es', lists, timers, running, i) {
      assert Armed(es, lists, timers, running, i) && ListOk(es, lists, i);
      assert lists[i] != [] ==> Pending(es, lists[i][0], Some(i));
    }
  }
}
