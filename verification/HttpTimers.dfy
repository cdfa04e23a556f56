/** How the older HTTP connection uses the timer manager. */
module HttpTimers {
  import opened TimerHistory

  const EXPIRED_TIME: nat := 2000       // DEFAULT_EXPIRED_TIME, in milliseconds
  const KEEP_ALIVE_TIME: nat := 60000   // DEFAULT_KEEP_ALIVE_TIME

  /** A page has been written on a connection, whose keep-alive flag is `keepAlive`; a read has failed or met the end of
      the stream; or the expiry loop stops. */
  datatype Call = Answered(fd: int, now: nat, keepAlive: bool)
                | ReadFailed(fd: int, now: nat)
                | Stop(time: nat, front: Front, ties: set<int>)

  function Timeout(keepAlive: bool): nat {
    if keepAlive then KEEP_ALIVE_TIME else EXPIRED_TIME
  }

  predicate IsUnwanted(evs: seq<Event>, fd: int) { After(evs, fd).Timed? && After(evs, fd).unwanted }

  predicate IsOpen(evs: seq<Event>, fd: int) { After(evs, fd).Timed? && !After(evs, fd).unwanted }

  /** What the calls do to the timers. */
  function Events(calls: seq<Call>): seq<Event>
    decreases |calls|
  {
    if calls == [] then []
    else
      var before := Events(calls[..|calls| - 1]);
      match calls[|calls| - 1]
      case Answered(fd, now, keepAlive) => before + [Refresh(fd, now + Timeout(keepAlive), IsUnwanted(before, fd))]
      case ReadFailed(fd, now) => before + [Delete(fd)] + [Refresh(fd, now + EXPIRED_TIME, true)]
      case Stop(time, front, ties) => before + [Sweep(time, front, ties)]
  }

  /** When the last page was written on the fd, and with which flag. */
  function LastNow(calls: seq<Call>, fd: int): nat
    decreases |calls|
  {
    if calls == [] then 0
    else
      var last := calls[|calls| - 1];
      if last.Answered? && last.fd == fd then last.now else LastNow(calls[..|calls| - 1], fd)
  }

  predicate LastKept(calls: seq<Call>, fd: int)
    decreases |calls|
  {
    calls != [] &&
      var last := calls[|calls| - 1];
      if last.Answered? && last.fd == fd then last.keepAlive else LastKept(calls[..|calls| - 1], fd)
  }

  /** The clock does not go back, and the flag of an open connection is only ever set. */
  predicate Ordinary(calls: seq<Call>, fd: int)
    decreases |calls|
  {
    calls != [] ==>
      var before, last := calls[..|calls| - 1], calls[|calls| - 1];
      && Ordinary(before, fd)
      && (last.Answered? && last.fd == fd && IsOpen(Events(before), fd) ==>
            LastNow(before, fd) <= last.now && (LastKept(before, fd) ==> last.keepAlive))
  }

  lemma LengtheningMore(evs: seq<Event>, ev: Event, fd: int)
    requires Lengthening(evs, fd)
    requires ev.Refresh? && ev.fd == fd && After(evs, fd).Timed? ==>
      if After(evs, fd).unwanted then ev.unwanted else ev.unwanted || After(evs, fd).latest <= ev.deadline
    ensures Lengthening(evs + [ev], fd) && After(evs + [ev], fd) == Next(After(evs, fd), ev, fd)
  {
    assert (evs + [ev])[..|evs|] == evs;
  }

  /** The connection never brings the deadline of an open channel forward: an open one's latest deadline is that of its
      last page. */
  lemma {:induction false} NeverShortens(calls: seq<Call>, fd: int)
    requires Ordinary(calls, fd)
    ensures Lengthening(Events(calls), fd)
    ensures IsOpen(Events(calls), fd) ==>
      After(Events(calls), fd).latest == LastNow(calls, fd) + Timeout(LastKept(calls, fd))
    decreases |calls|
  {
    if calls != [] {
      var before := Events(calls[..|calls| - 1]);
      NeverShortens(calls[..|calls| - 1], fd);
      match calls[|calls| - 1]
      case Answered(f, now, keepAlive) =>
        LengtheningMore(before, Refresh(f, now + Timeout(keepAlive), IsUnwanted(before, f)), fd);
      case ReadFailed(f, now) =>
        LengtheningMore(before, Delete(f), fd);
        LengtheningMore(before + [Delete(f)], Refresh(f, now + EXPIRED_TIME, true), fd);
      case Stop(time, front, ties) =>
        LengtheningMore(before, Sweep(time, front, ties), fd);
    }
  }

  /** So whatever a server full of connections does, one that is not deleted is closed exactly at the first sweep at or
      after the deadline of its last page. */
  lemma OpenConnectionsAreOnTime(calls: seq<Call>, fd: int)
    requires Ordinary(calls, fd) && !IsUnwanted(Events(calls), fd)
    ensures Agree(Events(calls), fd)
    ensures IsOpen(Events(calls), fd) ==>
      Due(Events(calls), fd) == At(LastNow(calls, fd) + Timeout(LastKept(calls, fd)), false)
  {
    NeverShortens(calls, fd);
    OnlyDeletedLinger(Events(calls), fd);
  }
}
