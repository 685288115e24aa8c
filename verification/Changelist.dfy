/** Which events are wanted on which file descriptor (evmap.c), the log of changes
    that were not yet made (changelist), and the kernel's epoll set (epoll.c). */
module Changelist {
  import opened Lists

  const MAX_COUNT: nat := 0xffff

  /** EV_READ and EV_WRITE, or EPOLLIN and EPOLLOUT */
  datatype Mask = Mask(read: bool, write: bool) {
    predicate Empty() {
      !read && !write
    }
  }

  /** read_change or write_change of a change: nothing, EV_CHANGE_ADD or EV_CHANGE_DEL */
  datatype Delta = Keep | Add | Del

  /** struct event_change */
  datatype Change = Change(fd: nat, oldEvents: Mask, read: Delta, write: Delta)

  /** struct event, as far as evmap.c looks at it */
  datatype Event = Event(id: nat, read: bool, write: bool)

  /** struct evmap_io, with the event_changelist_fdinfo that is allocated behind it */
  datatype EvmapIo = EvmapIo(events: seq<Event>, nread: nat, nwrite: nat, idxplus1: nat) {
    function Counts(): Mask {
      Mask(0 < nread, 0 < nwrite)
    }
  }

  // ----- what a recorded change stands for

  function Turned(was: bool, d: Delta): bool {
    match d
    case Keep => was
    case Add => true
    case Del => false
  }

  /** The events that a change leaves enabled */
  function Target(ch: Change): Mask {
    Mask(Turned(ch.oldEvents.read, ch.read), Turned(ch.oldEvents.write, ch.write))
  }

  predicate NoChange(ch: Change) {
    ch.read == Keep && ch.write == Keep
  }

  /** d says how to get from old to cur. */
  predicate DeltaOk(d: Delta, was: bool, cur: bool) {
    match d
    case Keep => cur == was
    case Add => cur
    case Del => !cur && was
  }

  predicate ChangeOk(ch: Change, cur: Mask) {
    DeltaOk(ch.read, ch.oldEvents.read, cur.read) && DeltaOk(ch.write, ch.oldEvents.write, cur.write)
  }

  /** The kernel's epoll set: the events it watches, per registered descriptor */
  type Kernel = map<nat, Mask>

  function Watched(k: Kernel, fd: nat): Mask {
    if fd in k then k[fd] else Mask(false, false)
  }

  function SetMask(k: Kernel, fd: nat, m: Mask): Kernel {
    if m.Empty() then k - {fd} else k[fd := m]
  }

  datatype CtlOp = CTL_ADD | CTL_MOD | CTL_DEL
  datatype Errno = OK | EEXIST | ENOENT

  /** epoll_ctl(2) */
  function EpollCtl(k: Kernel, op: CtlOp, fd: nat, events: Mask): (Errno, Kernel) {
    match op
    case CTL_ADD => if fd in k then (EEXIST, k) else (OK, k[fd := events])
    case CTL_MOD => if fd in k then (OK, k[fd := events]) else (ENOENT, k)
    case CTL_DEL => if fd in k then (OK, k - {fd}) else (ENOENT, k)
  }

  // ----- the event lists, and what they ask for

  function Readers(events: seq<Event>): nat {
    if events == [] then 0 else Readers(events[..|events| - 1]) + if events[|events| - 1].read then 1 else 0
  }

  function Writers(events: seq<Event>): nat {
    if events == [] then 0 else Writers(events[..|events| - 1]) + if events[|events| - 1].write then 1 else 0
  }

  function Without(events: seq<Event>, ev: Event): (r: seq<Event>)
    requires ev in events
    ensures |r| == |events| - 1
  {
    var last := |events| - 1;
    if events[last] == ev then events[..last] else Without(events[..last], ev) + [events[last]]
  }

  lemma {:induction false} CountsWithout(events: seq<Event>, ev: Event)
    requires ev in events
    ensures Readers(events) == Readers(Without(events, ev)) + (if ev.read then 1 else 0)
    ensures Writers(events) == Writers(Without(events, ev)) + (if ev.write then 1 else 0)
  {
    var last := |events| - 1;
    if events[last] != ev {
      CountsWithout(events[..last], ev);
      assert (Without(events[..last], ev) + [events[last]])[..last - 1] == Without(events[..last], ev);
    }
  }

  lemma CountsWith(events: seq<Event>, ev: Event)
    ensures Readers(events + [ev]) == Readers(events) + (if ev.read then 1 else 0)
    ensures Writers(events + [ev]) == Writers(events) + (if ev.write then 1 else 0)
  {
    assert (events + [ev])[..|events|] == events;
  }

  /** What a set of events asks the kernel for. */
  function WantedBy(events: seq<Event>): Mask {
    Mask(0 < Readers(events), 0 < Writers(events))
  }

  predicate SomeReads(events: seq<Event>) {
    exists i | 0 <= i < |events| :: events[i].read
  }

  predicate SomeWrites(events: seq<Event>) {
    exists i | 0 <= i < |events| :: events[i].write
  }

  /** The counts are zero exactly if nobody reads (writes). */
  lemma {:induction false} NobodyCounts(events: seq<Event>)
    ensures 0 < Readers(events) <==> SomeReads(events)
    ensures 0 < Writers(events) <==> SomeWrites(events)
    ensures Readers(events) <= |events| && Writers(events) <= |events|
  {
    if events != [] {
      var last := |events| - 1;
      NobodyCounts(events[..last]);
      assert SomeReads(events) <==> SomeReads(events[..last]) || events[last].read by {
        if i :| 0 <= i < |events| && events[i].read && i != last {
          assert events[..last][i].read;
        }
        if i :| 0 <= i < last && events[..last][i].read {
          assert events[i].read;
        }
      }
      assert SomeWrites(events) <==> SomeWrites(events[..last]) || events[last].write by {
        if i :| 0 <= i < |events| && events[i].write && i != last {
          assert events[..last][i].write;
        }
        if i :| 0 <= i < last && events[..last][i].write {
          assert events[i].write;
        }
      }
    }
  }

  /** Taking an event off the list takes that event and no other. */
  lemma {:induction false} WithoutIs(events: seq<Event>, ev: Event)
    requires ev in events
    ensures multiset(Without(events, ev)) + multiset{ev} == multiset(events)
  {
    var last := |events| - 1;
    assert events == events[..last] + [events[last]];
    if events[last] != ev {
      WithoutIs(events[..last], ev);
    }
  }

  /** As many readers, or writers, as 16 bits can count are there already. */
  predicate NoRoom(events: seq<Event>, ev: Event) {
    (ev.read && Readers(events) == 65535) || (ev.write && Writers(events) == 65535)
  }

  type Entries = seq<Option<EvmapIo>>

  ghost predicate Live(es: Entries, fd: nat) {
    fd < |es| && es[fd].Some?
  }

  ghost function EventsAt(es: Entries, fd: nat): seq<Event> {
    if Live(es, fd) then es[fd].value.events else []
  }

  /** nread and nwrite count the events on the list. */
  ghost predicate Counted(es: Entries) {
    forall fd: nat | Live(es, fd) :: CountedIo(es[fd].value)
  }

  ghost predicate CountedIo(io: EvmapIo) {
    && io.nread == Readers(io.events) <= MAX_COUNT
    && io.nwrite == Writers(io.events) <= MAX_COUNT
  }

  /** changes[] and the idxplus1 fields are inverse to each other. */
  ghost predicate BackIndexed(es: Entries, chs: seq<Change>) {
    && (forall i | 0 <= i < |chs| :: PointsBack(es, chs, i))
    && (forall fd: nat | Live(es, fd) :: PointsTo(es, chs, fd))
  }

  ghost predicate PointsBack(es: Entries, chs: seq<Change>, i: nat) {
    i < |chs| && Live(es, chs[i].fd) && es[chs[i].fd].value.idxplus1 == i + 1
  }

  ghost predicate PointsTo(es: Entries, chs: seq<Change>, fd: nat) {
    && Live(es, fd)
    && var n := es[fd].value.idxplus1;
    n <= |chs| && (0 < n ==> chs[n - 1].fd == fd)
  }

  /** Every recorded change leads to the events that are wanted now. */
  ghost predicate Recorded(es: Entries, chs: seq<Change>) {
    forall i | 0 <= i < |chs| :: RecordedAt(es, chs, i)
  }

  ghost predicate RecordedAt(es: Entries, chs: seq<Change>, i: nat) {
    i < |chs| && Live(es, chs[i].fd) && ChangeOk(chs[i], es[chs[i].fd].value.Counts())
  }

  /** The kernel watches what was wanted before the recorded changes. */
  ghost predicate Synced(es: Entries, chs: seq<Change>, k: Kernel) {
    && (forall fd | fd in k :: !k[fd].Empty())
    && (forall fd: nat :: Watched(k, fd) == Before(es, chs, fd))
  }

  ghost function Before(es: Entries, chs: seq<Change>, fd: nat): Mask {
    if !Live(es, fd) then Mask(false, false)
    else
      var n := es[fd].value.idxplus1;
      if 0 < n <= |chs| then chs[n - 1].oldEvents else es[fd].value.Counts()
  }

  // ----- logging a change

  /** changes[] after event_changelist_get_or_construct, and the index it found */
  ghost function LogBase(es: Entries, chs: seq<Change>, fd: nat, oldEvents: Mask): (r: seq<Change>)
    requires Live(es, fd)
  {
    if es[fd].value.idxplus1 == 0 then chs + [Change(fd, oldEvents, Keep, Keep)] else chs
  }

  ghost function LogIndex(es: Entries, chs: seq<Change>, fd: nat): nat
    requires Live(es, fd)
  {
    if es[fd].value.idxplus1 == 0 then |chs| else es[fd].value.idxplus1 - 1
  }

  lemma IndexOk(es: Entries, chs: seq<Change>, fd: nat, oldEvents: Mask)
    requires Live(es, fd) && BackIndexed(es, chs)
    ensures LogIndex(es, chs, fd) < |LogBase(es, chs, fd, oldEvents)|
    ensures LogBase(es, chs, fd, oldEvents)[LogIndex(es, chs, fd)].fd == fd
  {
    assert PointsTo(es, chs, fd);
  }

  /** What a change becomes when events are added (deleted). */
  function WithAdd(ch: Change, events: Mask): Change {
    ch.(read := if events.read then Add else ch.read, write := if events.write then Add else ch.write)
  }

  function WithDel(ch: Change, events: Mask): Change {
    ch.(read := if events.read then DelOrNothing(ch.oldEvents.read, ch.read) else ch.read,
        write := if events.write then DelOrNothing(ch.oldEvents.write, ch.write) else ch.write)
  }

  function DelOrNothing(was: bool, d: Delta): Delta {
    if !was && d == Add then Keep else Del
  }

  /** Logging a right change for fd while its entry changes to io. */
  lemma AfterLog(es: Entries, chs: seq<Change>, fd: nat, oldEvents: Mask, io: EvmapIo, ch: Change)
    requires Live(es, fd) && BackIndexed(es, chs) && Recorded(es, chs)
    requires LogIndex(es, chs, fd) < |LogBase(es, chs, fd, oldEvents)|
    requires var n, base := LogIndex(es, chs, fd), LogBase(es, chs, fd, oldEvents);
             io.idxplus1 == n + 1 && ch.fd == fd && ch.oldEvents == base[n].oldEvents && ChangeOk(ch, io.Counts())
    ensures var n, base := LogIndex(es, chs, fd), LogBase(es, chs, fd, oldEvents);
            var es', chs' := es[fd := Some(io)], base[n := ch];
            && BackIndexed(es', chs') && Recorded(es', chs')
            && forall k | Synced(es, chs, k) && oldEvents == es[fd].value.Counts() :: Synced(es', chs', k)
  {
    var n, base := LogIndex(es, chs, fd), LogBase(es, chs, fd, oldEvents);
    var es', chs' := es[fd := Some(io)], base[n := ch];
    assert PointsTo(es, chs, fd);
    forall i | 0 <= i < |chs'| ensures PointsBack(es', chs', i) && RecordedAt(es', chs', i) {
      if i < |chs| {
        assert PointsBack(es, chs, i) && RecordedAt(es, chs, i);
      }
    }
    forall f: nat | Live(es', f)
      ensures PointsTo(es', chs', f) && Before(es', chs', f) == if f == fd then ch.oldEvents else Before(es, chs, f)
    {
      assert Live(es, f) && PointsTo(es, chs, f);
      if f != fd && 0 < es[f].value.idxplus1 {
        assert chs'[es[f].value.idxplus1 - 1] == chs[es[f].value.idxplus1 - 1];
      }
    }
    forall k, f: nat | Synced(es, chs, k) && oldEvents == es[fd].value.Counts()
      ensures Watched(k, f) == Before(es', chs', f)
    {
      assert Watched(k, f) == Before(es, chs, f);
      assert Live(es', f) <==> Live(es, f);
    }
  }

  /** An entry may change without a log as long as the same events are wanted. */
  lemma SameCounts(es: Entries, chs: seq<Change>, fd: nat, io: EvmapIo)
    requires Live(es, fd) && BackIndexed(es, chs) && Recorded(es, chs)
    requires io.idxplus1 == es[fd].value.idxplus1 && io.Counts() == es[fd].value.Counts()
    ensures var es' := es[fd := Some(io)];
            && BackIndexed(es', chs) && Recorded(es', chs) && forall k | Synced(es, chs, k) :: Synced(es', chs, k)
  {
    var es' := es[fd := Some(io)];
    forall i | 0 <= i < |chs| ensures PointsBack(es', chs, i) && RecordedAt(es', chs, i) {
      assert PointsBack(es, chs, i) && RecordedAt(es, chs, i);
    }
    forall f: nat | Live(es', f) ensures PointsTo(es', chs, f) {
      assert Live(es, f) && PointsTo(es, chs, f);
    }
    forall k, f: nat | Synced(es, chs, k) ensures Watched(k, f) == Before(es', chs, f) {
      assert Watched(k, f) == Before(es, chs, f);
    }
  }

  /** Telling the kernel at once, with no changes logged */
  lemma AfterImmediate(es: Entries, fd: nat, io: EvmapIo, ch: Change)
    requires Live(es, fd) && BackIndexed(es, []) && io.idxplus1 == 0
    requires ch.fd == fd && ch.oldEvents == es[fd].value.Counts() && ChangeOk(ch, io.Counts()) && !NoChange(ch)
    ensures var es' := es[fd := Some(io)];
            && BackIndexed(es', [])
            && forall k | Synced(es, [], k) :: Synced(es', [], SetMask(k, fd, Target(ch)))
  {
    var es' := es[fd := Some(io)];
    forall f: nat | Live(es', f) ensures PointsTo(es', [], f) {
      assert Live(es, f) && PointsTo(es, [], f);
    }
    forall k, f: nat | Synced(es, [], k) ensures Watched(SetMask(k, fd, Target(ch)), f) == Before(es', [], f) {
      assert Watched(k, f) == Before(es, [], f);
    }
  }

  /** The new entries of evmap_make_space want nothing. */
  lemma MoreEntries(es: Entries, es': Entries, chs: seq<Change>)
    requires |es| <= |es'| && es'[..|es|] == es
    requires forall f | |es| <= f < |es'| && es'[f].Some? :: es'[f].value == EvmapIo([], 0, 0, 0)
    requires Counted(es) && BackIndexed(es, chs) && Recorded(es, chs)
    ensures Counted(es') && BackIndexed(es', chs) && Recorded(es', chs)
    ensures forall k | Synced(es, chs, k) :: Synced(es', chs, k)
    ensures forall f: nat :: EventsAt(es', f) == EventsAt(es, f)
  {
    forall f: nat | f < |es| ensures es'[f] == es[f] {
      assert es'[..|es|][f] == es[f];
    }
    forall i | 0 <= i < |chs| ensures PointsBack(es', chs, i) && RecordedAt(es', chs, i) {
      assert PointsBack(es, chs, i) && RecordedAt(es, chs, i);
    }
    forall f: nat | Live(es', f) ensures PointsTo(es', chs, f) && CountedIo(es'[f].value) {
      if f < |es| {
        assert Live(es, f) && PointsTo(es, chs, f);
      }
    }
    forall k, f: nat | Synced(es, chs, k) ensures Watched(k, f) == Before(es', chs, f) {
      assert Watched(k, f) == Before(es, chs, f);
    }
  }

  // ----- epoll.c

  class EventBase {
    var entries: Entries      // io.entries
    var changes: seq<Change>  // changelist.changes[..n_changes]
    var changesSize: nat
    var kernel: Kernel
    const batched: bool       // epollops_changelist instead of epollops

    ghost predicate Consistent()
      reads this
    {
      && Counted(entries) && BackIndexed(entries, changes) && Recorded(entries, changes)
      && |changes| <= changesSize && (!batched ==> changes == [])
    }

    /** event_base_new */
    constructor (useChangelist: bool)
      ensures batched == useChangelist && Consistent() && Synced(entries, changes, kernel)
      ensures entries == [] && changes == [] && kernel == map[]
    {
      entries, changes, changesSize, kernel, batched := [], [], 0, map[], useChangelist;
    }

    method Ctl(op: CtlOp, fd: nat, events: Mask) returns (errno: Errno)
      modifies this`kernel
      ensures (errno, kernel) == EpollCtl(old(kernel), op, fd, events)
    {
      var res := EpollCtl(kernel, op, fd, events);
      errno, kernel := res.0, res.1;
    }

    /** epoll_apply_one_change.  Whatever the kernel watched on the descriptor before,
        it watches the target of the change afterwards. */
    method ApplyOneChange(ch: Change) returns (r: int)
      modifies this`kernel
      ensures r == 0
      ensures kernel == if NoChange(ch) then old(kernel) else SetMask(old(kernel), ch.fd, Target(ch))
    {
      var op, events := CTL_DEL, Mask(false, false);
      if ch.read == Add || ch.write == Add {
        op := CTL_ADD;
        if ch.read == Add {
          events := events.(read := true);
        } else if ch.read == Del {
        } else if ch.oldEvents.read {
          events := events.(read := true);
        }
        if ch.write == Add {
          events := events.(write := true);
        } else if ch.write == Del {
        } else if ch.oldEvents.write {
          events := events.(write := true);
        }
        if !ch.oldEvents.Empty() {
          op := CTL_MOD;
        }
      } else if ch.read == Del || ch.write == Del {
        op := CTL_DEL;
        if ch.read == Del {
          if ch.write == Del {
            events := Mask(true, true);
          } else if ch.oldEvents.write {
            events, op := Mask(false, true), CTL_MOD;
          } else {
            events := Mask(true, false);
          }
        } else if ch.write == Del {
          if ch.oldEvents.read {
            events, op := Mask(true, false), CTL_MOD;
          } else {
            events := Mask(false, true);
          }
        }
      }
      if events.Empty() {
        return 0;
      }
      var errno := Ctl(op, ch.fd, events);
      if errno != OK {
        if op == CTL_MOD && errno == ENOENT {
          errno := Ctl(CTL_ADD, ch.fd, events);
          if errno != OK {
            return -1;
          }
        } else if op == CTL_ADD && errno == EEXIST {
          errno := Ctl(CTL_MOD, ch.fd, events);
          if errno != OK {
            return -1;
          }
        } else if op == CTL_DEL && errno == ENOENT {
        } else {
          return -1;
        }
      }
      r := 0;
    }

    // ----- the changelist

    /** event_changelist_grow */
    method Grow()
      modifies this`changesSize
      ensures changesSize == if old(changesSize) < 64 then 64 else 2 * old(changesSize)
    {
      changesSize := if changesSize < 64 then 64 else 2 * changesSize;
    }

    /** event_changelist_get_or_construct: the index of the change of fd */
    method GetOrConstruct(fd: nat, oldEvents: Mask) returns (idx: nat)
      requires Live(entries, fd) && BackIndexed(entries, changes) && |changes| <= changesSize
      modifies this`entries, this`changes, this`changesSize
      ensures idx == old(LogIndex(entries, changes, fd)) < |changes| <= changesSize
      ensures changes == old(LogBase(entries, changes, fd, oldEvents)) && changes[idx].fd == fd
      ensures entries == old(entries[fd := Some(entries[fd].value.(idxplus1 := LogIndex(entries, changes, fd) + 1))])
    {
      IndexOk(entries, changes, fd, oldEvents);
      var fdinfo := entries[fd].value.idxplus1;
      if fdinfo == 0 {
        if |changes| == changesSize {
          Grow();
        }
        idx := |changes|;
        changes := changes + [Change(fd, oldEvents, Keep, Keep)];
        entries := entries[fd := Some(entries[fd].value.(idxplus1 := idx + 1))];
      } else {
        idx := fdinfo - 1;
        assert changes[idx].fd == fd;   // EVUTIL_ASSERT
        assert entries == entries[fd := Some(entries[fd].value.(idxplus1 := idx + 1))];
      }
    }

    /** event_changelist_add */
    method ChangelistAdd(fd: nat, oldEvents: Mask, events: Mask)
      requires Live(entries, fd) && BackIndexed(entries, changes) && |changes| <= changesSize
      modifies this`entries, this`changes, this`changesSize
      ensures |changes| <= changesSize
      ensures entries == old(entries[fd := Some(entries[fd].value.(idxplus1 := LogIndex(entries, changes, fd) + 1))])
      ensures var n, base := old(LogIndex(entries, changes, fd)), old(LogBase(entries, changes, fd, oldEvents));
              n < |base| && changes == base[n := WithAdd(base[n], events)] && base[n].fd == fd
    {
      var idx := GetOrConstruct(fd, oldEvents);
      if events.read {
        changes := changes[idx := changes[idx].(read := Add)];
      }
      if events.write {
        changes := changes[idx := changes[idx].(write := Add)];
      }
    }

    /** event_changelist_del */
    method ChangelistDel(fd: nat, oldEvents: Mask, events: Mask)
      requires Live(entries, fd) && BackIndexed(entries, changes) && |changes| <= changesSize
      modifies this`entries, this`changes, this`changesSize
      ensures |changes| <= changesSize
      ensures entries == old(entries[fd := Some(entries[fd].value.(idxplus1 := LogIndex(entries, changes, fd) + 1))])
      ensures var n, base := old(LogIndex(entries, changes, fd)), old(LogBase(entries, changes, fd, oldEvents));
              n < |base| && changes == base[n := WithDel(base[n], events)] && base[n].fd == fd
    {
      var idx := GetOrConstruct(fd, oldEvents);
      if events.read {
        if !changes[idx].oldEvents.read && changes[idx].read == Add {
          changes := changes[idx := changes[idx].(read := Keep)];
        } else {
          changes := changes[idx := changes[idx].(read := Del)];
        }
      }
      if events.write {
        if !changes[idx].oldEvents.write && changes[idx].write == Add {
          changes := changes[idx := changes[idx].(write := Keep)];
        } else {
          changes := changes[idx := changes[idx].(write := Del)];
        }
      }
    }

    // ----- evmap.c

    /** evmap_make_space */
    method MakeSpace(slot: nat)
      modifies this`entries
      ensures |old(entries)| <= |entries| && slot < |entries| && entries[..|old(entries)|] == old(entries)
      ensures forall f | |old(entries)| <= f < |entries| :: entries[f] == None
    {
      if |entries| <= slot {
        var nentries := if |entries| != 0 then |entries| else 32;
        while nentries <= slot
          invariant |entries| <= nentries && 0 < nentries
        {
          nentries := 2 * nentries;
        }
        entries := entries + seq(nentries - |entries|, _ => None);
      }
    }

    /** evsel->add with events that were not wanted before, or evsel->del with events
        that are not wanted any more.  Afterwards the entry is as before, but the
        recorded changes and the kernel are right for the counts of io. */
    method Tell(fd: nat, events: Mask, adding: bool, ghost io: EvmapIo)
      requires Consistent() && Live(entries, fd) && !events.Empty()
      requires var c, d := entries[fd].value.Counts(), io.Counts();
               && d == (if adding then Mask(c.read || events.read, c.write || events.write)
                        else Mask(c.read && !events.read, c.write && !events.write))
               && (events.read ==> c.read == !adding) && (events.write ==> c.write == !adding)
      modifies this
      ensures |changes| <= changesSize && (!batched ==> changes == []) && (batched ==> kernel == old(kernel))
      ensures Live(entries, fd) && var n := entries[fd].value.idxplus1;
              && entries == old(entries)[fd := Some(old(entries)[fd].value.(idxplus1 := n))]
              && var es' := entries[fd := Some(io.(idxplus1 := n))];
                 && BackIndexed(es', changes) && Recorded(es', changes)
                 && (old(Synced(entries, changes, kernel)) ==> Synced(es', changes, kernel))
    {
      ghost var es, chs := entries, changes;
      var oldEvents := entries[fd].value.Counts();
      if batched {
        IndexOk(es, chs, fd, oldEvents);
        ghost var n, base := LogIndex(es, chs, fd), LogBase(es, chs, fd, oldEvents);
        if adding {
          ChangelistAdd(fd, oldEvents, events);
        } else {
          ChangelistDel(fd, oldEvents, events);
        }
        assert es[fd].value.idxplus1 != 0 ==> PointsTo(es, chs, fd) && RecordedAt(es, chs, n);
        AfterLog(es, chs, fd, oldEvents, io.(idxplus1 := n + 1), changes[n]);
        assert changes == base[n := changes[n]];
      } else {
        assert PointsTo(es, chs, fd);
        // epoll_nochangelist_add, epoll_nochangelist_del
        var d := if adding then Add else Del;
        var ch := Change(fd, oldEvents, if events.read then d else Keep, if events.write then d else Keep);
        var r := ApplyOneChange(ch);
        AfterImmediate(es, fd, io.(idxplus1 := 0), ch);
      }
      ghost var m := entries[fd].value.idxplus1;
      assert entries[fd := Some(io.(idxplus1 := m))] == es[fd := Some(io.(idxplus1 := m))];
    }

    /** evmap_io_add */
    method IoAdd(fd: int, ev: Event) returns (r: int)
      requires Consistent()
      modifies this
      ensures Consistent() && (old(Synced(entries, changes, kernel)) ==> Synced(entries, changes, kernel))
      ensures fd < 0 ==> r == 0
      ensures 0 <= fd ==> var list := old(EventsAt(entries, fd));
                && (r == -1 <==> NoRoom(list, ev))
                && (r == 1 <==> !NoRoom(list, ev) && ((ev.read && !SomeReads(list)) || (ev.write && !SomeWrites(list))))
                && -1 <= r <= 1
      ensures forall f: nat :: EventsAt(entries, f) ==
                if f == fd && r != -1 then old(EventsAt(entries, f)) + [ev] else old(EventsAt(entries, f))
      ensures batched ==> kernel == old(kernel)
    {
      if fd < 0 {
        return 0;
      }
      ghost var was := EventsAt(entries, fd);
      CountsWith(was, ev);
      NobodyCounts(was);
      Slot(fd);
      var io := entries[fd].value;
      assert CountedIo(io);
      var nread, nwrite, res := io.nread, io.nwrite, Mask(false, false);
      if ev.read {
        nread := nread + 1;
        if nread == 1 {
          res := res.(read := true);
        }
      }
      if ev.write {
        nwrite := nwrite + 1;
        if nwrite == 1 {
          res := res.(write := true);
        }
      }
      if MAX_COUNT < nread || MAX_COUNT < nwrite {
        return -1;
      }
      r := SetEntry(fd, EvmapIo(io.events + [ev], nread, nwrite, 0), res, true);
    }

    /** GET_IO_SLOT_AND_CTOR */
    method Slot(fd: nat)
      requires Consistent()
      modifies this`entries
      ensures Consistent() && Live(entries, fd)
      ensures old(Synced(entries, changes, kernel)) ==> Synced(entries, changes, kernel)
      ensures forall f: nat :: EventsAt(entries, f) == old(EventsAt(entries, f))
    {
      ghost var es := entries;
      MakeSpace(fd);
      MoreEntries(es, entries, changes);
      if entries[fd] == None {
        NewSlot(entries, fd, changes);
        entries := entries[fd := Some(EvmapIo([], 0, 0, 0))];
      }
    }

    /** The end of evmap_io_add and evmap_io_del: tell the backend if the wanted
        events change by res, then change the counts and the list of events. */
    method SetEntry(fd: nat, io: EvmapIo, res: Mask, adding: bool) returns (r: int)
      requires Consistent() && Live(entries, fd) && CountedIo(io)
      requires var c, d := entries[fd].value.Counts(), io.Counts();
               && d == (if adding then Mask(c.read || res.read, c.write || res.write)
                        else Mask(c.read && !res.read, c.write && !res.write))
               && (res.read ==> c.read == !adding) && (res.write ==> c.write == !adding)
      modifies this
      ensures Consistent() && (old(Synced(entries, changes, kernel)) ==> Synced(entries, changes, kernel))
      ensures r == if io.Counts() != old(entries)[fd].value.Counts() then 1 else 0
      ensures forall f: nat :: EventsAt(entries, f) == if f == fd then io.events else old(EventsAt(entries, f))
      ensures batched ==> kernel == old(kernel)
    {
      ghost var es := entries;
      r := 0;
      if !res.Empty() {
        Tell(fd, res, adding, io);
        r := 1;
      } else {
        SameCounts(entries, changes, fd, io.(idxplus1 := entries[fd].value.idxplus1));
      }
      var idxplus1 := entries[fd].value.idxplus1;
      entries := entries[fd := Some(io.(idxplus1 := idxplus1))];
      assert forall f: nat | Live(entries, f) && f != fd :: Live(es, f) && entries[f] == es[f];
    }

    /** evmap_io_del, of an event that was added */
    method IoDel(fd: int, ev: Event) returns (r: int)
      requires Consistent() && (0 <= fd < |entries| ==> ev in EventsAt(entries, fd))
      modifies this
      ensures Consistent() && (old(Synced(entries, changes, kernel)) ==> Synced(entries, changes, kernel))
      ensures r == -1 <==> |old(entries)| <= fd
      ensures 0 <= fd < |old(entries)| ==> var rest := Without(old(EventsAt(entries, fd)), ev);
                (r == 1 <==> (ev.read && !SomeReads(rest)) || (ev.write && !SomeWrites(rest)))
      ensures -1 <= r <= 1 && (fd < 0 ==> r == 0)
      ensures forall f: nat :: EventsAt(entries, f) ==
                if f == fd < |old(entries)| then Without(old(EventsAt(entries, f)), ev) else old(EventsAt(entries, f))
      ensures batched ==> kernel == old(kernel)
    {
      if fd < 0 {
        return 0;
      }
      if |entries| <= fd {
        return -1;
      }
      ghost var was := EventsAt(entries, fd);
      CountsWithout(was, ev);
      NobodyCounts(Without(was, ev));
      assert Live(entries, fd);
      var io := entries[fd].value;
      assert CountedIo(io);
      var nread: int, nwrite: int, res := io.nread, io.nwrite, Mask(false, false);
      if ev.read {
        nread := nread - 1;
        if nread == 0 {
          res := res.(read := true);
        }
        assert 0 <= nread;   // EVUTIL_ASSERT
      }
      if ev.write {
        nwrite := nwrite - 1;
        if nwrite == 0 {
          res := res.(write := true);
        }
        assert 0 <= nwrite;
      }
      r := SetEntry(fd, EvmapIo(Without(io.events, ev), nread, nwrite, 0), res, false);
    }

    // ----- dispatch

    /** epoll_apply_changes */
    method ApplyChanges() returns (r: int)
      requires Consistent()
      modifies this`kernel
      ensures r == 0
      ensures forall f: nat :: Watched(kernel, f) == Applied(entries, changes, |changes|, old(kernel), f)
      ensures (forall f | f in old(kernel) :: !old(kernel)[f].Empty()) ==> forall f | f in kernel :: !kernel[f].Empty()
    {
      r := 0;
      var i := 0;
      while i < |changes|
        invariant i <= |changes| && r == 0
        invariant forall f: nat :: Watched(kernel, f) == Applied(entries, changes, i, old(kernel), f)
        invariant (forall f | f in old(kernel) :: !old(kernel)[f].Empty()) ==>
                    forall f | f in kernel :: !kernel[f].Empty()
      {
        AppliedOneMore(entries, changes, i, old(kernel), kernel);
        var res := ApplyOneChange(changes[i]);
        if res < 0 {
          r := -1;
        }
        i := i + 1;
      }
    }

    /** event_changelist_remove_all */
    method RemoveAll()
      requires Consistent()
      modifies this`entries, this`changes
      ensures Consistent() && changes == []
      ensures SameEvents(old(entries), entries) && NoneLogged(entries)
    {
      var i := 0;
      while i < |changes|
        invariant i <= |changes| && changes == old(changes) && |entries| == |old(entries)|
        invariant forall f: nat | f < |entries| :: entries[f] == Cleared(old(entries)[f], i)
      {
        var fd := changes[i].fd;
        assert PointsBack(old(entries), changes, i);
        assert entries[fd].value.idxplus1 == i + 1;   // EVUTIL_ASSERT
        OnlyOneBack(old(entries), changes, i);
        entries := entries[fd := Some(entries[fd].value.(idxplus1 := 0))];
        i := i + 1;
      }
      AllCleared(old(entries), changes, entries);
      changes := [];
    }

    /** What epoll_dispatch does before it waits.  A descriptor with a real change
        gets what is wanted now even if the kernel had dropped it, and with a kernel
        that was right, every descriptor does. */
    method Dispatch() returns (r: int)
      requires Consistent()
      modifies this
      ensures r == 0 && Consistent() && changes == [] && SameEvents(old(entries), entries)
      ensures forall i | 0 <= i < |old(changes)| && !NoChange(old(changes)[i]) ::
                Watched(kernel, old(changes)[i].fd) == WantedBy(EventsAt(entries, old(changes)[i].fd))
      ensures old(Synced(entries, changes, kernel)) ==>
                && Synced(entries, changes, kernel)
                && forall f: nat :: Watched(kernel, f) == WantedBy(EventsAt(entries, f))
    {
      ghost var es, chs, k := entries, changes, kernel;
      r := ApplyChanges();
      RemoveAll();
      AfterDispatch(es, chs, k, entries, kernel);
    }
  }

  lemma NewSlot(es: Entries, fd: nat, chs: seq<Change>)
    requires fd < |es| && es[fd] == None && Counted(es) && BackIndexed(es, chs) && Recorded(es, chs)
    ensures var es' := es[fd := Some(EvmapIo([], 0, 0, 0))];
            && Counted(es') && BackIndexed(es', chs) && Recorded(es', chs)
            && (forall k | Synced(es, chs, k) :: Synced(es', chs, k))
            && forall f: nat :: EventsAt(es', f) == EventsAt(es, f)
  {
    var es' := es[fd := Some(EvmapIo([], 0, 0, 0))];
    forall i | 0 <= i < |chs| ensures PointsBack(es', chs, i) && RecordedAt(es', chs, i) {
      assert PointsBack(es, chs, i) && RecordedAt(es, chs, i);
    }
    forall f: nat | Live(es', f) ensures PointsTo(es', chs, f) && CountedIo(es'[f].value) {
      if f != fd {
        assert Live(es, f) && PointsTo(es, chs, f);
      }
    }
    forall k, f: nat | Synced(es, chs, k) ensures Watched(k, f) == Before(es', chs, f) {
      assert Watched(k, f) == Before(es, chs, f);
    }
  }

  /** What the kernel watches on fd after the first n changes were applied. */
  ghost function Applied(es: Entries, chs: seq<Change>, n: nat, k: Kernel, fd: nat): Mask {
    if Live(es, fd) && 0 < es[fd].value.idxplus1 <= n && es[fd].value.idxplus1 <= |chs|
      && !NoChange(chs[es[fd].value.idxplus1 - 1])
    then Target(chs[es[fd].value.idxplus1 - 1])
    else Watched(k, fd)
  }

  lemma AppliedOneMore(es: Entries, chs: seq<Change>, n: nat, k0: Kernel, k: Kernel)
    requires BackIndexed(es, chs) && n < |chs| && forall f: nat :: Watched(k, f) == Applied(es, chs, n, k0, f)
    ensures var k' := if NoChange(chs[n]) then k else SetMask(k, chs[n].fd, Target(chs[n]));
            forall f: nat :: Watched(k', f) == Applied(es, chs, n + 1, k0, f)
  {
    assert PointsBack(es, chs, n);
    var k' := if NoChange(chs[n]) then k else SetMask(k, chs[n].fd, Target(chs[n]));
    forall f: nat ensures Watched(k', f) == Applied(es, chs, n + 1, k0, f) {
      assert Watched(k, f) == Applied(es, chs, n, k0, f);
      assert Live(es, f) ==> PointsTo(es, chs, f);
    }
  }

  ghost predicate SameEvents(es: Entries, es': Entries) {
    |es'| == |es| && forall f: nat :: EventsAt(es', f) == EventsAt(es, f)
  }

  ghost predicate NoneLogged(es: Entries) {
    forall f: nat | Live(es, f) :: es[f].value.idxplus1 == 0
  }

  /** An entry after the first n changes were removed */
  ghost function Cleared(e: Option<EvmapIo>, n: nat): Option<EvmapIo> {
    if e.Some? && 0 < e.value.idxplus1 <= n then Some(e.value.(idxplus1 := 0)) else e
  }

  lemma OnlyOneBack(es: Entries, chs: seq<Change>, i: nat)
    requires BackIndexed(es, chs) && i < |chs|
    ensures forall f: nat | Live(es, f) && es[f].value.idxplus1 == i + 1 :: f == chs[i].fd
  {
    forall f: nat | Live(es, f) && es[f].value.idxplus1 == i + 1 ensures f == chs[i].fd {
      assert PointsTo(es, chs, f);
    }
  }

  lemma AllCleared(es: Entries, chs: seq<Change>, es': Entries)
    requires Counted(es) && BackIndexed(es, chs) && |es'| == |es|
    requires forall f: nat | f < |es| :: es'[f] == Cleared(es[f], |chs|)
    ensures Counted(es') && BackIndexed(es', []) && Recorded(es', []) && SameEvents(es, es') && NoneLogged(es')
  {
    forall f: nat | Live(es', f) ensures Live(es, f) && es'[f].value == es[f].value.(idxplus1 := 0) {
      assert PointsTo(es, chs, f);
    }
    forall f: nat | Live(es', f) ensures CountedIo(es'[f].value) && PointsTo(es', [], f) {
      assert CountedIo(es[f].value);
    }
    forall f: nat ensures EventsAt(es', f) == EventsAt(es, f) {
      assert Live(es', f) <==> Live(es, f);
    }
  }

  /** Where a change leads is what is wanted now. */
  lemma TargetIsWanted(es: Entries, chs: seq<Change>, i: nat)
    requires Counted(es) && Recorded(es, chs) && i < |chs|
    ensures Live(es, chs[i].fd) && Target(chs[i]) == WantedBy(EventsAt(es, chs[i].fd))
  {
    assert RecordedAt(es, chs, i) && CountedIo(es[chs[i].fd].value);
  }

  lemma AfterDispatch(es: Entries, chs: seq<Change>, k: Kernel, es': Entries, k': Kernel)
    requires Counted(es) && BackIndexed(es, chs) && Recorded(es, chs) && SameEvents(es, es')
    requires Counted(es') && NoneLogged(es') && forall f: nat :: Watched(k', f) == Applied(es, chs, |chs|, k, f)
    requires (forall f | f in k :: !k[f].Empty()) ==> forall f | f in k' :: !k'[f].Empty()
    ensures forall i | 0 <= i < |chs| && !NoChange(chs[i]) ::
              Watched(k', chs[i].fd) == WantedBy(EventsAt(es', chs[i].fd))
    ensures Synced(es, chs, k) ==>
              Synced(es', [], k') && forall f: nat :: Watched(k', f) == WantedBy(EventsAt(es', f))
  {
    forall i | 0 <= i < |chs| && !NoChange(chs[i])
      ensures Watched(k', chs[i].fd) == WantedBy(EventsAt(es', chs[i].fd))
    {
      TargetIsWanted(es, chs, i);
      assert PointsBack(es, chs, i) && Watched(k', chs[i].fd) == Applied(es, chs, |chs|, k, chs[i].fd);
    }
    if Synced(es, chs, k) {
      forall f: nat ensures Watched(k', f) == WantedBy(EventsAt(es', f)) == Before(es', [], f) {
        assert Watched(k', f) == Applied(es, chs, |chs|, k, f) && Watched(k, f) == Before(es, chs, f);
        assert EventsAt(es', f) == EventsAt(es, f);
        if Live(es, f) {
          assert PointsTo(es, chs, f) && CountedIo(es[f].value);
          if 0 < es[f].value.idxplus1 {
            TargetIsWanted(es, chs, es[f].value.idxplus1 - 1);
          }
        }
        if Live(es', f) {
          assert CountedIo(es'[f].value);
        }
      }
    }
  }

  // ----- batched and immediate registration agree

  /** What a program does to the event base.  The callers of evmap_io_add and
      evmap_io_del see to it that an event is not added twice and that only added
      events are deleted (EVLIST_INSERTED in event.c). */
  datatype Op = AddEvent(fd: nat, ev: Event) | DelEvent(fd: nat, ev: Event) | Wait

  type EventLists = map<nat, seq<Event>>

  function ListAt(m: EventLists, fd: nat): seq<Event> {
    if fd in m then m[fd] else []
  }

  /** The reference: the event lists alone, with room for 65535 readers and as many
      writers on each */
  function Step(m: EventLists, op: Op): EventLists {
    match op
    case AddEvent(fd, ev) =>
      if ev !in ListAt(m, fd) && !NoRoom(ListAt(m, fd), ev) then m[fd := ListAt(m, fd) + [ev]] else m
    case DelEvent(fd, ev) =>
      if ev in ListAt(m, fd) then m[fd := Without(ListAt(m, fd), ev)] else m
    case Wait => m
  }

  function Run(ops: seq<Op>): EventLists {
    if ops == [] then map[] else Step(Run(ops[..|ops| - 1]), ops[|ops| - 1])
  }

  /** Lists that never refuse an event */
  function PlainStep(m: EventLists, op: Op): EventLists {
    match op
    case AddEvent(fd, ev) => if ev in ListAt(m, fd) then m else m[fd := ListAt(m, fd) + [ev]]
    case DelEvent(fd, ev) => if ev in ListAt(m, fd) then m[fd := Without(ListAt(m, fd), ev)] else m
    case Wait => m
  }

  function PlainRun(ops: seq<Op>): EventLists {
    if ops == [] then map[] else PlainStep(PlainRun(ops[..|ops| - 1]), ops[|ops| - 1])
  }

  /** A program of at most 65535 steps finds room for every event. */
  lemma {:induction false} RoomForAll(ops: seq<Op>)
    requires |ops| <= 65535
    ensures Run(ops) == PlainRun(ops)
    ensures forall f: nat :: |ListAt(Run(ops), f)| <= |ops|
  {
    if ops != [] {
      var m, op := Run(ops[..|ops| - 1]), ops[|ops| - 1];
      RoomForAll(ops[..|ops| - 1]);
      if op.AddEvent? {
        NobodyCounts(ListAt(m, op.fd));
        assert |ListAt(m, op.fd)| <= |ops| - 1;
      }
      forall f: nat ensures |ListAt(Run(ops), f)| <= |ops| {
        assert |ListAt(m, f)| <= |ops| - 1;
      }
    }
  }

  ghost predicate Matches(es: Entries, m: EventLists) {
    forall f: nat :: EventsAt(es, f) == ListAt(m, f)
  }

  /** One call on an event base */
  method Do(b: EventBase, op: Op, ghost m: EventLists)
    requires b.Consistent() && Synced(b.entries, b.changes, b.kernel) && Matches(b.entries, m)
    modifies b
    ensures b.Consistent() && Synced(b.entries, b.changes, b.kernel) && Matches(b.entries, Step(m, op))
    ensures op == Wait ==> b.changes == []
  {
    match op {
      case AddEvent(fd, ev) =>
        assert EventsAt(b.entries, fd) == ListAt(m, fd);
        if !(fd < |b.entries| && b.entries[fd].Some? && ev in b.entries[fd].value.events) {
          var r := b.IoAdd(fd, ev);
        }
      case DelEvent(fd, ev) =>
        assert EventsAt(b.entries, fd) == ListAt(m, fd);
        if fd < |b.entries| && b.entries[fd].Some? && ev in b.entries[fd].value.events {
          var r := b.IoDel(fd, ev);
        }
      case Wait =>
        ghost var es := b.entries;
        var r := b.Dispatch();
        assert forall f: nat :: EventsAt(b.entries, f) == EventsAt(es, f);
    }
  }

  /** Any program, run with and without the changelist: once the changes are made,
      both kernels watch on every descriptor what the event lists ask for, and
      without the changelist they do so all the time. */
  method RunBoth(ops: seq<Op>) returns (batched: Kernel, immediate: Kernel)
    ensures batched == immediate
    ensures forall f: nat :: Watched(batched, f) == Mask(SomeReads(ListAt(Run(ops), f)),
            SomeWrites(ListAt(Run(ops), f)))
    ensures |ops| <= 65535 ==> forall f: nat ::
              Watched(batched, f) == Mask(SomeReads(ListAt(PlainRun(ops), f)), SomeWrites(ListAt(PlainRun(ops), f)))
    ensures forall f | f in batched :: !batched[f].Empty()
  {
    var b := new EventBase(true);
    var i := new EventBase(false);
    var n := 0;
    assert ops[..0] == [];
    while n < |ops|
      invariant n <= |ops|
      invariant b.Consistent() && Synced(b.entries, b.changes, b.kernel) && Matches(b.entries, Run(ops[..n]))
      invariant i.Consistent() && Synced(i.entries, i.changes, i.kernel) && Matches(i.entries, Run(ops[..n]))
      invariant !i.batched && fresh(b) && fresh(i) && b != i
    {
      assert ops[..n + 1][..n] == ops[..n];
      Do(b, ops[n], Run(ops[..n]));
      Do(i, ops[n], Run(ops[..n]));
      n := n + 1;
    }
    assert ops[..n] == ops;
    var r := b.Dispatch();
    batched, immediate := b.kernel, i.kernel;
    ImmediateIsWanted(i.entries, i.kernel);
    SameKernel(batched, immediate, Run(ops), b.entries, i.entries);
    forall f: nat ensures WantedBy(ListAt(Run(ops), f)) == Mask(SomeReads(ListAt(Run(ops), f)),
           SomeWrites(ListAt(Run(ops), f))) {
      NobodyCounts(ListAt(Run(ops), f));
    }
    if |ops| <= 65535 {
      RoomForAll(ops);
    }
  }

  lemma ImmediateIsWanted(es: Entries, k: Kernel)
    requires Counted(es) && BackIndexed(es, []) && Synced(es, [], k)
    ensures forall f: nat :: Watched(k, f) == WantedBy(EventsAt(es, f))
  {
    forall f: nat ensures Watched(k, f) == WantedBy(EventsAt(es, f)) {
      assert Watched(k, f) == Before(es, [], f);
      if Live(es, f) {
        assert CountedIo(es[f].value);
      }
    }
  }

  lemma SameKernel(k1: Kernel, k2: Kernel, m: EventLists, es1: Entries, es2: Entries)
    requires Matches(es1, m) && Matches(es2, m)
    requires forall f: nat :: Watched(k1, f) == WantedBy(EventsAt(es1, f))
    requires forall f: nat :: Watched(k2, f) == WantedBy(EventsAt(es2, f))
    requires (forall f | f in k1 :: !k1[f].Empty()) && (forall f | f in k2 :: !k2[f].Empty())
    ensures k1 == k2 && forall f: nat :: Watched(k1, f) == WantedBy(ListAt(m, f))
  {
    forall f: nat ensures Watched(k1, f) == Watched(k2, f) == WantedBy(ListAt(m, f)) {
      assert EventsAt(es1, f) == ListAt(m, f) == EventsAt(es2, f);
    }
    forall f: nat ensures f in k1 <==> f in k2 {
      assert Watched(k1, f) == Watched(k2, f);
    }
    forall f | f in k1 ensures k1[f] == k2[f] {
      assert Watched(k1, f) == Watched(k2, f);
    }
  }
}
