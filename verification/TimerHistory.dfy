/** Whole runs of the timer manager: which connections still have a timer follows from the refreshes, the deletions and
    the sweeps. */
module TimerHistory {
  import opened Folding
  import opened TimerManagers

  /** What a sweep leaves in front of the heap: nothing, or an open node with its deadline. */
  datatype Front = Nobody | Opened(deadline: nat)

  /** A timer is added or refreshed, `unwanted` if its channel is marked deleted; a channel is marked deleted; or the
      expiry loop stops, having read `time` last. A deleted channel in `ties` has come out of the heap in front of an
      open one with the same deadline. */
  datatype Event = Refresh(fd: int, deadline: nat, unwanted: bool)
                 | Delete(fd: int)
                 | Sweep(time: nat, front: Front, ties: set<int>)

  /** The deadlines of an fd, that of its node in the heap and the latest, and whether its channel is marked deleted. */
  datatype Timing = Gone | Timed(node: nat, latest: nat, unwanted: bool)

  /** The sweep gets as far as this deadline of an fd: it has run out, or is in front for one that is unwanted. */
  predicate Passes(sweep: Event, fd: int, unwanted: bool, deadline: nat)
    requires sweep.Sweep?
  {
    if !unwanted then deadline <= sweep.time
    else sweep.front == Nobody || deadline < sweep.front.deadline
         || (deadline == sweep.front.deadline && fd in sweep.ties)
  }

  function Swept(s: Timing, sweep: Event, fd: int): Timing
    requires sweep.Sweep?
  {
    if s.Gone? || !Passes(sweep, fd, s.unwanted, s.node) then s
    else if Passes(sweep, fd, s.unwanted, s.latest) then Gone
    else s.(node := s.latest)
  }

  function Next(s: Timing, ev: Event, fd: int): Timing {
    match ev
    case Refresh(f, deadline, unwanted) =>
      if f != fd then s else Timed(if s.Gone? then deadline else s.node, deadline, unwanted)
    case Delete(f) => if f != fd || s.Gone? then s else s.(unwanted := true)
    case Sweep(_, _, _) => Swept(s, ev, fd)
  }

  /** What the manager makes of a history. */
  function After(evs: seq<Event>, fd: int): Timing
    decreases |evs|
  {
    if evs == [] then Gone
    else Next(After(evs[..|evs| - 1], fd), evs[|evs| - 1], fd)
  }

  lemma AfterMore(evs: seq<Event>, ev: Event, fd: int)
    ensures After(evs + [ev], fd) == Next(After(evs, fd), ev, fd)
  {
    assert (evs + [ev])[..|evs|] == evs;
  }

  /** The fd has an open channel, and its node in the heap runs out at `deadline`. */
  predicate OpenWith(evs: seq<Event>, fd: int, deadline: nat) {
    After(evs, fd).Timed? && !After(evs, fd).unwanted && After(evs, fd).node == deadline
  }

  /** After its last sweep a history has in front what that sweep says: the least deadline of all nodes, and an open
      channel's that has not run out. */
  ghost predicate FrontIs(evs: seq<Event>, time: nat, front: Front) {
    match front
    case Nobody => forall fd :: After(evs, fd).Gone?
    case Opened(d) =>
      && time < d
      && (exists fd :: OpenWith(evs, fd, d))
      && forall fd :: After(evs, fd).Timed? ==> d <= After(evs, fd).node
  }

  // The manager

  ghost predicate FdTracked(tm: Timers, hn: Timers, fd: int, s: Timing)
    reads Channels(tm)`deleted
  {
    match s
    case Gone => fd !in tm && fd !in hn
    case Timed(node, latest, unwanted) =>
      && fd in tm && fd in hn && hn[fd].expiredTime == node && tm[fd].expiredTime == latest
      && tm[fd].channel in Channels(tm) && tm[fd].channel.deleted == unwanted
  }

  /** The history is what the timers have been through. */
  ghost predicate Tracked(tm: Timers, hn: Timers, evs: seq<Event>)
    reads Channels(tm)`deleted
  {
    forall fd {:trigger After(evs, fd)} :: FdTracked(tm, hn, fd, After(evs, fd))
  }

  /** What a loop that has stopped leaves in front. */
  ghost predicate HeapFront(h: Heap, g: Progress, front: Front)
    reads (set n | n in h :: n.channel)`deleted
  {
    match front
    case Nobody => h == multiset{}
    case Opened(d) =>
      && g.time < d && g.popped <= d
      && exists p :: p in h && Least(h, p) && !p.channel.deleted && p.expiredTime == d
  }

  lemma StoppedFront(h: Heap, g: Progress) returns (front: Front)
    requires Stopped(h, g)
    ensures HeapFront(h, g, front)
  {
    if h == multiset{} {
      front := Nobody;
    } else {
      var p :| p in h && Least(h, p) && !p.channel.deleted && g.time < p.expiredTime && g.popped <= p.expiredTime;
      front := Opened(p.expiredTime);
    }
  }

  /** The deleted channels that have come out in front of an equal deadline are among those that have gone or moved
      on. */
  ghost function Ties(tm0: Timers, tm: Timers, hn: Timers, front: Front): set<int> {
    set fd | fd in tm0 && (fd !in tm || (fd in hn && front.Opened? && front.deadline < hn[fd].expiredTime))
  }

  /** What one expiry loop makes of an fd. */
  lemma SweepTracked(tm0: Timers, hn0: Timers, tm: Timers, hn: Timers, h: Heap, closed: seq<int>, g: Progress,
                     front: Front, fd: int, s: Timing)
    requires AllOk(tm0, hn0, tm, hn, g) && Entries(tm, hn) && HeapIs(h, hn) && Closed(closed, tm0, tm)
    requires Stopped(h, g) && HeapFront(h, g, front) && FdTracked(tm0, hn0, fd, s)
    ensures FdTracked(tm, hn, fd, Swept(s, Sweep(g.time, front, Ties(tm0, tm, hn, front)), fd))
  {
    SameKeys(tm, hn);
    assert Open(ClosedFold) && Open(FdFold) && Open(HeapFold);
    if fd in tm0 {
      Outcome(tm0, hn0, tm, hn, h, closed, g, fd);
      assert FdOk(tm0, hn0, tm, hn, g, fd);
      if fd in tm {
        assert hn[fd] in h;
      }
    }
  }

  /** The heap's front is the history's. */
  lemma FrontTracked(tm: Timers, hn: Timers, h: Heap, g: Progress, front: Front, evs: seq<Event>)
    requires Entries(tm, hn) && HeapIs(h, hn) && HeapFront(h, g, front) && Tracked(tm, hn, evs)
    ensures FrontIs(evs, g.time, front)
  {
    SameKeys(tm, hn);
    forall fd | After(evs, fd).Timed? ensures hn[fd] in h && hn[fd].expiredTime == After(evs, fd).node {
      assert Open(HeapFold);
      assert FdTracked(tm, hn, fd, After(evs, fd));
    }
    if front.Opened? {
      var p :| p in h && Least(h, p) && !p.channel.deleted && p.expiredTime == front.deadline;
      OwnNode(h, tm, hn, p);
      assert FdTracked(tm, hn, p.channel.fd, After(evs, p.channel.fd));
      assert OpenWith(evs, p.channel.fd, front.deadline);
    }
  }

  method Start() returns (m: TimerManager)
    ensures m.Valid() && Tracked(m.timerMap, m.heapNode, [])
  {
    m := new TimerManager();
  }

  /** Adds or refreshes a timer. */
  method AddTimer(m: TimerManager, channel: Channel, timeout: nat, now: nat, ghost evs: seq<Event>)
      returns (ghost after: seq<Event>)
    requires m.Valid() && !channel.closed && Tracked(m.timerMap, m.heapNode, evs)
    requires if channel.first then channel.fd !in m.timerMap
             else channel.fd in m.timerMap && m.timerMap[channel.fd].channel == channel
    modifies m, channel`first
    ensures m.Valid() && after == evs + [Refresh(channel.fd, now + timeout, channel.deleted)]
    ensures Tracked(m.timerMap, m.heapNode, after)
  {
    ghost var tm, hn, ev := m.timerMap, m.heapNode, Refresh(channel.fd, now + timeout, channel.deleted);
    SameKeys(tm, hn);
    assert !channel.first ==> channel.fd in hn;
    m.AddTimer(channel, timeout, now);
    after := evs + [ev];
    forall fd ensures FdTracked(m.timerMap, m.heapNode, fd, After(after, fd)) {
      AfterMore(evs, ev, fd);
      assert FdTracked(tm, hn, fd, After(evs, fd));
      assert fd in m.timerMap ==> m.timerMap[fd].channel in Channels(m.timerMap);
    }
  }

  /** Marks a channel deleted. The fd of an open channel is not another's. */
  method SetDeleted(m: TimerManager, channel: Channel, ghost evs: seq<Event>) returns (ghost after: seq<Event>)
    requires m.Valid() && Tracked(m.timerMap, m.heapNode, evs)
    requires channel.fd in m.timerMap ==> m.timerMap[channel.fd].channel == channel
    modifies channel`deleted
    ensures channel.deleted && m.Valid() && after == evs + [Delete(channel.fd)]
    ensures Tracked(m.timerMap, m.heapNode, after)
  {
    ghost var tm, hn := m.timerMap, m.heapNode;
    label before:
    DeleteChannel(channel, tm, hn);
    after := evs + [Delete(channel.fd)];
    forall fd ensures FdTracked(tm, hn, fd, After(after, fd)) {
      AfterMore(evs, Delete(channel.fd), fd);
      assert old@before(FdTracked(tm, hn, fd, After(evs, fd)));
      if fd in tm {
        OwnChannel(tm, hn, fd);
      }
    }
  }

  /** Runs the expiry loop. */
  method HandleExpiredEvent(m: TimerManager, clock: nat -> nat, ghost evs: seq<Event>)
      returns (closed: seq<int>, ghost time: nat, ghost front: Front, ghost after: seq<Event>)
    requires m.Valid() && Clock(clock) && Tracked(m.timerMap, m.heapNode, evs)
    modifies m, Channels(m.timerMap)`closed
    ensures m.Valid() && exists ties :: after == evs + [Sweep(time, front, ties)]
    ensures time == 0 || exists k: nat :: time == clock(k)
    ensures Tracked(m.timerMap, m.heapNode, after) && FrontIs(after, time, front)
    ensures forall fd :: fd in closed <==> After(evs, fd).Timed? && After(after, fd).Gone?
  {
    ghost var tm, hn := m.timerMap, m.heapNode;
    ghost var g;
    closed, g := m.HandleExpiredEvent(clock);
    time := g.time;
    front := StoppedFront(m.timerHeap, g);
    ghost var sweep := Sweep(time, front, Ties(tm, m.timerMap, m.heapNode, front));
    after := evs + [sweep];
    forall fd ensures FdTracked(m.timerMap, m.heapNode, fd, After(after, fd)) {
      AfterMore(evs, sweep, fd);
      assert FdTracked(tm, hn, fd, After(evs, fd));
      SweepTracked(tm, hn, m.timerMap, m.heapNode, m.timerHeap, closed, g, front, fd, After(evs, fd));
    }
    FrontTracked(m.timerMap, m.heapNode, m.timerHeap, g, front, after);
    assert Open(ClosedFold);
  }

  // Deleted channels

  /** A deleted channel outlives a sweep only behind an open connection that has not run out, and always behind one
      whose deadline is earlier than the later of its own two. */
  lemma UnwantedStays(evs: seq<Event>, sweep: Event, fd: int)
    requires sweep.Sweep? && FrontIs(evs + [sweep], sweep.time, sweep.front)
    requires After(evs, fd).Timed? && After(evs, fd).unwanted
    ensures var s, after := After(evs, fd), evs + [sweep];
      var last := if s.node < s.latest then s.latest else s.node;
      && (After(after, fd).Timed? ==> exists other: int, d: nat :: OpenWith(after, other, d) && sweep.time < d <= last)
      && ((exists other: int, d: nat :: OpenWith(after, other, d) && d < last) ==> After(after, fd).Timed?)
  {
    AfterMore(evs, sweep, fd);
    var after := evs + [sweep];
    if After(after, fd).Timed? {
      var other :| OpenWith(after, other, sweep.front.deadline);
    }
  }

  // Lazy timers and deadlines

  datatype Deadline = None | At(time: nat, unwanted: bool)

  function NextDue(d: Deadline, ev: Event, fd: int): Deadline {
    match ev
    case Refresh(f, deadline, unwanted) => if f == fd then At(deadline, unwanted) else d
    case Delete(f) => if f == fd && d.At? then d.(unwanted := true) else d
    case Sweep(t, _, _) => if d.At? && (d.unwanted || d.time <= t) then None else d
  }

  /** What a manager without lazy nodes would do: close at the first sweep at or after the latest deadline, and deleted
      channels at the first sweep. */
  function Due(evs: seq<Event>, fd: int): Deadline
    decreases |evs|
  {
    if evs == [] then None
    else NextDue(Due(evs[..|evs| - 1], fd), evs[|evs| - 1], fd)
  }

  /** The fd still has a timer exactly when it is due later, and then for that time. */
  predicate Agree(evs: seq<Event>, fd: int) {
    match After(evs, fd)
    case Gone => Due(evs, fd) == None
    case Timed(_, latest, unwanted) => Due(evs, fd) == At(latest, unwanted)
  }

  predicate AlwaysAgree(evs: seq<Event>, fd: int)
    decreases |evs|
  {
    Agree(evs, fd) && (evs != [] ==> AlwaysAgree(evs[..|evs| - 1], fd))
  }

  /** An open connection is not left behind: the sweep does not stop between its latest deadline and a later one that
      its heap node still has. */
  predicate OpenPasses(s: Timing, ev: Event) {
    s.Timed? && !s.unwanted && ev.Sweep? && s.latest <= ev.time ==> s.node <= ev.time
  }

  /** Nor is a deleted one: the sweep gets past both its deadlines. */
  predicate UnwantedPasses(s: Timing, ev: Event, fd: int) {
    s.Timed? && s.unwanted && ev.Sweep? ==> Passes(ev, fd, true, s.node) && Passes(ev, fd, true, s.latest)
  }

  /** At every sweep both hold. */
  predicate InTime(evs: seq<Event>, fd: int)
    decreases |evs|
  {
    evs != [] ==>
      var before, ev := evs[..|evs| - 1], evs[|evs| - 1];
      InTime(before, fd) && OpenPasses(After(before, fd), ev) && UnwantedPasses(After(before, fd), ev, fd)
  }

  /** Connections are closed when their latest deadline has passed or they are deleted, at every moment of a run, if and
      only if no sweep stops in front of such a connection's heap node. */
  lemma {:induction false} DeadlinesKept(evs: seq<Event>, fd: int)
    ensures AlwaysAgree(evs, fd) <==> InTime(evs, fd)
    decreases |evs|
  {
    if evs != [] {
      DeadlinesKept(evs[..|evs| - 1], fd);
    }
  }

  // What the manager asks of its callers

  /** No refresh brings the deadline of an open connection forward, and nothing opens a deleted one again. */
  predicate Lengthening(evs: seq<Event>, fd: int)
    decreases |evs|
  {
    evs != [] ==>
      var before, ev := evs[..|evs| - 1], evs[|evs| - 1];
      var s := After(before, fd);
      && Lengthening(before, fd)
      && (ev.Refresh? && ev.fd == fd && s.Timed? ==>
            if s.unwanted then ev.unwanted else ev.unwanted || s.latest <= ev.deadline)
  }

  /** Then only deleted connections are ever left behind: all others are closed at their latest deadline. */
  lemma {:induction false} OnlyDeletedLinger(evs: seq<Event>, fd: int)
    requires Lengthening(evs, fd)
    ensures var s, d := After(evs, fd), Due(evs, fd);
      if s.Timed? && s.unwanted then d == None || d == At(s.latest, true)
      else Agree(evs, fd) && (s.Timed? ==> s.node <= s.latest)
    decreases |evs|
  {
    if evs != [] {
      OnlyDeletedLinger(evs[..|evs| - 1], fd);
    }
  }

  lemma HistoryMore(evs: seq<Event>, ev: Event, fd: int)
    ensures After(evs + [ev], fd) == Next(After(evs, fd), ev, fd)
    ensures Due(evs + [ev], fd) == NextDue(Due(evs, fd), ev, fd)
    ensures InTime(evs + [ev], fd) ==> OpenPasses(After(evs, fd), ev)
  {
    assert (evs + [ev])[..|evs|] == evs;
  }

  /** Without that a sweep can leave an open connection behind. */
  lemma ShortenedLingers()
    ensures var evs := [] + [Refresh(0, 10, false)] + [Refresh(0, 5, false)] + [Sweep(7, Opened(10), {})];
      FrontIs(evs, 7, Opened(10)) && !InTime(evs, 0) && !Agree(evs, 0)
  {
    var one := [] + [Refresh(0, 10, false)];
    var two := one + [Refresh(0, 5, false)];
    var three := two + [Sweep(7, Opened(10), {})];
    forall fd ensures After(three, fd) == if fd == 0 then Timed(10, 5, false) else Gone {
      HistoryMore([], Refresh(0, 10, false), fd);
      HistoryMore(one, Refresh(0, 5, false), fd);
      HistoryMore(two, Sweep(7, Opened(10), {}), fd);
    }
    HistoryMore([], Refresh(0, 10, false), 0);
    HistoryMore(one, Refresh(0, 5, false), 0);
    HistoryMore(two, Sweep(7, Opened(10), {}), 0);
    assert OpenWith(three, 0, 10);
  }

  /** And a deleted connection, whatever its last refresh, stays behind an open one until that has run out. */
  lemma DeletedLingers(near: nat, far: nat, latest: nat, time: nat)
    requires time < near < far
    ensures var evs := [] + [Refresh(1, near, false)] + [Refresh(0, far, false)] + [Delete(0)]
                       + [Refresh(0, latest, true)] + [Sweep(time, Opened(near), {})];
      FrontIs(evs, time, Opened(near)) && After(evs, 0) == Timed(far, latest, true) && Due(evs, 0) == None
  {
    var one := [] + [Refresh(1, near, false)];
    var two := one + [Refresh(0, far, false)];
    var three := two + [Delete(0)];
    var four := three + [Refresh(0, latest, true)];
    var five := four + [Sweep(time, Opened(near), {})];
    forall fd
      ensures After(five, fd) ==
        if fd == 0 then Timed(far, latest, true) else if fd == 1 then Timed(near, near, false) else Gone
      ensures fd == 0 ==> Due(five, fd) == None
    {
      HistoryMore([], Refresh(1, near, false), fd);
      HistoryMore(one, Refresh(0, far, false), fd);
      HistoryMore(two, Delete(0), fd);
      HistoryMore(three, Refresh(0, latest, true), fd);
      HistoryMore(four, Sweep(time, Opened(near), {}), fd);
    }
    assert OpenWith(five, 1, near);
  }
}
