/** The lazy timer manager: one heap node a connection, refreshed through a map of the latest timers. */
module TimerManagers {
  import opened Folding

  datatype Fold = HeapFold | EntryFold | FdFold | ClosedFold  // the predicates this module keeps folded

  class Channel {
    const fd: int
    var first: bool    // no timer has been added yet
    var deleted: bool  // another thread of control wants it closed
    var closed: bool

    constructor (fd: int)
      ensures this.fd == fd && first && !deleted && !closed
    {
      this.fd, first, deleted, closed := fd, true, false, false;
    }

    method SetDeleted()
      modifies this`deleted
      ensures deleted
    {
      deleted := true;
    }
  }

  class TimerNode {
    const channel: Channel
    const expiredTime: nat

    constructor (channel: Channel, now: nat, timeout: nat)
      ensures this.channel == channel && expiredTime == now + timeout
    {
      this.channel, expiredTime := channel, now + timeout;
    }
  }

  type Heap = multiset<TimerNode>

  lemma {:induction false} LeastExists(h: Heap) returns (n: TimerNode)
    requires h != multiset{}
    ensures n in h && forall m :: m in h ==> n.expiredTime <= m.expiredTime
    decreases |h|
  {
    n :| n in h;
    var rest := h - multiset{n};
    assert |rest| < |h|;
    if rest != multiset{} {
      var m := LeastExists(rest);
      if m.expiredTime < n.expiredTime {
        n := m;
      }
    }
    assert forall m :: m in h ==> m in rest || m == n || m.expiredTime >= n.expiredTime;
  }

  /** A node of the heap that expires first; which one of several is up to the heap. */
  method Top(h: Heap) returns (n: TimerNode)
    requires h != multiset{}
    ensures n in h && forall m :: m in h ==> n.expiredTime <= m.expiredTime
  {
    ghost var least := LeastExists(h);
    n :| n in h && forall m :: m in h ==> n.expiredTime <= m.expiredTime;
  }

  /** The readings of a clock that does not go backwards. */
  ghost predicate Clock(clock: nat -> nat) {
    forall i, j :: i <= j ==> clock(i) <= clock(j)
  }

  type Timers = map<int, TimerNode>

  /** The heap holds exactly the nodes of `hn`, each once and under its own fd. */
  ghost predicate HeapIs(h: Heap, hn: Timers) {
    forall u {:trigger Open(u)} :: u == HeapFold ==>
      && (forall fd {:trigger hn[fd]} :: fd in hn ==> hn[fd].channel.fd == fd && h[hn[fd]] == 1)
      && (forall n :: n in h ==> n.channel.fd in hn && hn[n.channel.fd] == n)
  }

  lemma HeapAdd(h: Heap, hn: Timers, n: TimerNode)
    requires HeapIs(h, hn) && n.channel.fd !in hn
    ensures HeapIs(h + multiset{n}, hn[n.channel.fd := n])
  {
    assert Open(HeapFold);
  }

  lemma HeapRemove(h: Heap, hn: Timers, n: TimerNode)
    requires HeapIs(h, hn) && n in h
    ensures HeapIs(h - multiset{n}, hn - {n.channel.fd}) && |h - multiset{n}| == |h| - 1
  {
    assert Open(HeapFold);
  }

  ghost predicate EntryOk(tm: Timers, hn: Timers, fd: int)
    requires fd in tm && fd in hn
    reads tm[fd].channel
  {
    var c := tm[fd].channel;
    c.fd == fd && hn[fd].channel == c && !c.first && !c.closed
  }

  /** The channels with timers are open, and each has its latest timer and its heap node under its own fd. */
  ghost predicate Entries(tm: Timers, hn: Timers)
    reads set fd | fd in tm :: tm[fd].channel
  {
    forall u {:trigger Open(u)} :: u == EntryFold ==>
      && hn.Keys == tm.Keys
      && (forall fd {:trigger EntryOk(tm, hn, fd)} :: fd in tm ==> EntryOk(tm, hn, fd))
  }

  lemma SameKeys(tm: Timers, hn: Timers)
    requires Entries(tm, hn)
    ensures hn.Keys == tm.Keys
  {
    assert Open(EntryFold);
  }

  lemma EntriesPut(tm: Timers, hn: Timers, n: TimerNode)
    requires Entries(tm, hn) && !n.channel.first && !n.channel.closed
    requires n.channel.fd in tm ==> tm[n.channel.fd].channel == n.channel
    ensures Entries(tm[n.channel.fd := n], if n.channel.fd in hn then hn else hn[n.channel.fd := n])
  {
    assert Open(EntryFold);
    var c := n.channel;
    var um, un := tm[c.fd := n], if c.fd in hn then hn else hn[c.fd := n];
    forall fd | fd in um ensures EntryOk(um, un, fd) {
      if fd in tm {
        assert EntryOk(tm, hn, fd);
      }
    }
  }

  /** A heap node is that of its channel's fd, which has a latest timer for the same channel. */
  lemma OwnNode(h: Heap, tm: Timers, hn: Timers, p: TimerNode)
    requires HeapIs(h, hn) && Entries(tm, hn) && p in h
    ensures p.channel.fd in tm && p.channel.fd in hn && hn[p.channel.fd] == p && tm[p.channel.fd].channel == p.channel
  {
    assert Open(HeapFold) && Open(EntryFold);
    assert EntryOk(tm, hn, p.channel.fd);
  }

  lemma EntriesMove(tm: Timers, hn: Timers, fd: int)
    requires Entries(tm, hn) && fd in tm
    ensures Entries(tm, hn[fd := tm[fd]])
  {
    assert Open(EntryFold);
    forall f | f in tm ensures EntryOk(tm, hn[fd := tm[fd]], f) {
      assert EntryOk(tm, hn, f);
    }
  }

  /** Closes the channel of an fd that is going out of the maps. */
  method CloseChannel(channel: Channel, ghost tm: Timers, ghost hn: Timers)
    requires Entries(tm, hn) && channel.fd in tm && tm[channel.fd].channel == channel
    modifies channel`closed
    ensures Entries(tm - {channel.fd}, hn - {channel.fd}) && channel.closed
  {
    assert Open(EntryFold);
    label before:
    channel.closed := true;
    ghost var um, un := tm - {channel.fd}, hn - {channel.fd};
    forall fd | fd in um ensures EntryOk(um, un, fd) {
      assert old@before(EntryOk(tm, hn, fd)) && old@before(EntryOk(tm, hn, channel.fd));
    }
  }

  method SetNotFirst(channel: Channel, ghost tm: Timers, ghost hn: Timers)
    requires Entries(tm, hn)
    modifies channel`first
    ensures Entries(tm, hn) && !channel.first
  {
    assert Open(EntryFold);
    label before:
    channel.first := false;
    forall fd | fd in tm ensures EntryOk(tm, hn, fd) {
      assert old@before(EntryOk(tm, hn, fd));
    }
  }

  method DeleteChannel(channel: Channel, ghost tm: Timers, ghost hn: Timers)
    requires Entries(tm, hn)
    modifies channel`deleted
    ensures Entries(tm, hn) && channel.deleted
  {
    assert Open(EntryFold);
    label before:
    channel.SetDeleted();
    forall fd | fd in tm ensures EntryOk(tm, hn, fd) {
      assert old@before(EntryOk(tm, hn, fd));
    }
  }

  lemma OwnChannel(tm: Timers, hn: Timers, fd: int)
    requires Entries(tm, hn) && fd in tm
    ensures tm[fd].channel.fd == fd
  {
    assert Open(EntryFold);
    assert EntryOk(tm, hn, fd);
  }

  ghost function Channels(tm: Timers): set<Channel> {
    set fd | fd in tm :: tm[fd].channel
  }

  /** The fds whose heap node is not their latest timer. */
  ghost function Stale(tm: Timers, hn: Timers): set<int> {
    set fd | fd in tm && fd in hn && hn[fd] != tm[fd]
  }

  /** `closed` lists the fds that have gone from the map, each once. */
  ghost predicate Closed(closed: seq<int>, tm0: Timers, tm: Timers) {
    forall u {:trigger Open(u)} :: u == ClosedFold ==>
      && (forall i, j :: 0 <= i < j < |closed| ==> closed[i] != closed[j])
      && (forall fd :: fd in closed <==> fd in tm0 && fd !in tm)
      && (forall fd :: fd in tm ==> fd in tm0)
  }

  lemma NoneClosed(tm: Timers)
    ensures Closed([], tm, tm)
  {
  }

  lemma CloseOnce(closed: seq<int>, tm0: Timers, tm: Timers, fd: int)
    requires Closed(closed, tm0, tm) && fd in tm
    ensures fd in tm0 && fd !in closed && Closed(closed + [fd], tm0, tm - {fd})
  {
    assert Open(ClosedFold);
  }

  /** How far an expiry loop has come: the last time it has read, and the latest deadline of a node that it has popped
      because its channel is deleted. */
  datatype Progress = Progress(time: nat, popped: nat)

  /** Which deadlines count as run out by then. */
  function Limit(g: Progress, deleted: bool): nat {
    if deleted then g.popped else g.time
  }

  predicate NoLater(g: Progress, g': Progress) {
    g.time <= g'.time && g.popped <= g'.popped
  }

  /** What has become of an fd. It keeps its latest timer, and its heap node has been replaced by that only if it had
      run out; or it is closed, and then both had run out. */
  ghost predicate FdOk(tm0: Timers, hn0: Timers, tm: Timers, hn: Timers, g: Progress, fd: int)
    requires fd in tm0
    reads tm0[fd].channel`deleted
  {
    fd in hn0 &&
    var limit := Limit(g, tm0[fd].channel.deleted);
    if fd in tm then
      tm[fd] == tm0[fd] && fd in hn && (hn[fd] == hn0[fd] || (hn[fd] == tm0[fd] && hn0[fd].expiredTime <= limit))
    else hn0[fd].expiredTime <= limit && tm0[fd].expiredTime <= limit
  }

  ghost predicate AllOk(tm0: Timers, hn0: Timers, tm: Timers, hn: Timers, g: Progress)
    reads Channels(tm0)`deleted
  {
    forall u {:trigger Open(u)} :: u == FdFold ==>
      forall fd {:trigger FdOk(tm0, hn0, tm, hn, g, fd)} :: fd in tm0 ==>
        tm0[fd].channel in Channels(tm0) && FdOk(tm0, hn0, tm, hn, g, fd)
  }

  lemma AllOkClose(tm0: Timers, hn0: Timers, tm: Timers, hn: Timers, g: Progress, g': Progress, p: TimerNode)
    requires AllOk(tm0, hn0, tm, hn, g) && NoLater(g, g') && p.expiredTime <= Limit(g', p.channel.deleted)
    requires p.channel.fd in tm && p.channel.fd in hn && hn[p.channel.fd] == tm[p.channel.fd] == p
    ensures AllOk(tm0, hn0, tm - {p.channel.fd}, hn - {p.channel.fd}, g')
  {
    assert Open(FdFold);
    forall fd | fd in tm0 ensures FdOk(tm0, hn0, tm - {p.channel.fd}, hn - {p.channel.fd}, g', fd) {
      assert FdOk(tm0, hn0, tm, hn, g, fd);
    }
  }

  lemma AllOkMove(tm0: Timers, hn0: Timers, tm: Timers, hn: Timers, g: Progress, g': Progress, p: TimerNode)
    requires AllOk(tm0, hn0, tm, hn, g) && NoLater(g, g') && p.expiredTime <= Limit(g', p.channel.deleted)
    requires p.channel.fd in tm && p.channel.fd in hn && hn[p.channel.fd] == p != tm[p.channel.fd]
    requires tm[p.channel.fd].channel == p.channel
    ensures AllOk(tm0, hn0, tm, hn[p.channel.fd := tm[p.channel.fd]], g')
  {
    assert Open(FdFold);
    forall fd | fd in tm0 ensures FdOk(tm0, hn0, tm, hn[p.channel.fd := tm[p.channel.fd]], g', fd) {
      assert FdOk(tm0, hn0, tm, hn, g, fd);
    }
  }

  lemma AllOkLater(tm0: Timers, hn0: Timers, tm: Timers, hn: Timers, g: Progress, g': Progress)
    requires AllOk(tm0, hn0, tm, hn, g) && NoLater(g, g')
    ensures AllOk(tm0, hn0, tm, hn, g')
  {
    assert Open(FdFold);
    forall fd | fd in tm0 ensures FdOk(tm0, hn0, tm, hn, g', fd) {
      assert FdOk(tm0, hn0, tm, hn, g, fd);
    }
  }

  lemma AllOkStart(tm: Timers, hn: Timers)
    requires Entries(tm, hn)
    ensures AllOk(tm, hn, tm, hn, Progress(0, 0))
  {
    assert Open(FdFold);
    SameKeys(tm, hn);
  }

  lemma AllOkLatest(tm0: Timers, hn0: Timers, tm: Timers, hn: Timers, g: Progress, fd: int)
    requires AllOk(tm0, hn0, tm, hn, g) && fd in tm && fd in tm0
    ensures tm[fd] == tm0[fd] && tm[fd].channel in Channels(tm0)
  {
    assert Open(FdFold);
    assert FdOk(tm0, hn0, tm, hn, g, fd);
  }

  lemma InChannels(tm0: Timers, hn0: Timers, tm: Timers, hn: Timers, h: Heap, closed: seq<int>, g: Progress,
                   p: TimerNode)
    requires HeapIs(h, hn) && Entries(tm, hn) && Closed(closed, tm0, tm) && AllOk(tm0, hn0, tm, hn, g) && p in h
    ensures p.channel in Channels(tm0)
  {
    OwnNode(h, tm, hn, p);
    CloseOnce(closed, tm0, tm, p.channel.fd);
    AllOkLatest(tm0, hn0, tm, hn, g, p.channel.fd);
  }

  // Where the loop stops

  ghost predicate Least(h: Heap, p: TimerNode) {
    p in h && forall m :: m in h ==> p.expiredTime <= m.expiredTime
  }

  /** A deleted channel's node is only popped from the front: every open one that has not run out lies behind it. */
  ghost predicate Ahead(h: Heap, g: Progress)
    reads (set n | n in h :: n.channel)`deleted
  {
    g.popped <= g.time || forall n :: n in h && !n.channel.deleted ==> g.popped <= n.expiredTime
  }

  /** The loop leaves nothing, or an open node in front that has not run out. */
  ghost predicate Stopped(h: Heap, g: Progress)
    reads (set n | n in h :: n.channel)`deleted
  {
    h == multiset{}
    || exists p :: p in h && Least(h, p) && !p.channel.deleted && g.time < p.expiredTime && g.popped <= p.expiredTime
  }

  /** The progress after one more node has been popped. */
  ghost function Popped(g: Progress, p: TimerNode, now: nat): Progress
    reads p.channel`deleted
  {
    if p.channel.deleted then g.(popped := if g.popped < p.expiredTime then p.expiredTime else g.popped)
    else g.(time := now)
  }

  /** Popping `p` brings nothing into the heap but another timer of its channel. */
  ghost predicate NoOthers(h': Heap, h: Heap, p: TimerNode) {
    forall n :: n in h' ==> n in h || n.channel == p.channel
  }

  lemma PopKeepsAhead(h: Heap, h': Heap, g: Progress, p: TimerNode, now: nat)
    requires Ahead(h, g) && Least(h, p) && g.time <= now && (p.channel.deleted || p.expiredTime <= now)
    requires NoOthers(h', h, p)
    ensures Ahead(h', Popped(g, p, now))
  {
  }

  /** After the expiry loop has stopped, a channel that nobody wants deleted is closed exactly when both its heap node
      and its latest timer have run out. A deleted one is closed then at the latest; if it stays, then behind an open
      node that has not run out. */
  lemma Outcome(tm0: Timers, hn0: Timers, tm: Timers, hn: Timers, h: Heap, closed: seq<int>, g: Progress, fd: int)
    requires AllOk(tm0, hn0, tm, hn, g) && Entries(tm, hn) && HeapIs(h, hn) && Closed(closed, tm0, tm)
    requires Stopped(h, g) && fd in tm0
    ensures fd in hn0 && (fd in closed <==> fd !in tm)
    ensures var bothOut := hn0[fd].expiredTime <= g.time && tm0[fd].expiredTime <= g.time;
      && (!tm0[fd].channel.deleted ==> (fd in closed <==> bothOut))
      && (bothOut ==> fd in closed)
    ensures fd !in closed ==>
      && fd in hn
      && exists p :: p in h && Least(h, p) && !p.channel.deleted && g.time < p.expiredTime <= hn[fd].expiredTime
  {
    assert Open(FdFold) && Open(HeapFold) && Open(ClosedFold);
    SameKeys(tm, hn);
    assert FdOk(tm0, hn0, tm, hn, g, fd);
    if fd in tm {
      assert hn[fd] in h;
    }
  }

  class TimerManager {
    var timerHeap: Heap
    var timerMap: Timers
    ghost var heapNode: Timers  // the node of each fd in the heap

    /** Every fd with a timer has exactly one node in the heap, and it belongs to the same channel as its latest
        timer. */
    ghost predicate Valid()
      reads this, set fd | fd in timerMap :: timerMap[fd].channel
    {
      Entries(timerMap, heapNode) && HeapIs(timerHeap, heapNode)
    }

    constructor ()
      ensures Valid() && timerMap == heapNode == map[]
    {
      timerHeap, timerMap, heapNode := multiset{}, map[], map[];
      new;
      assert Open(HeapFold) && Open(EntryFold);
    }

    /** Adds the first timer of a channel, or refreshes it. The fd of an open channel is not another's. */
    method AddTimer(channel: Channel, timeout: nat, now: nat)
      requires Valid() && !channel.closed
      requires if channel.first then channel.fd !in timerMap
               else channel.fd in timerMap && timerMap[channel.fd].channel == channel
      modifies this, channel`first
      ensures Valid()
      ensures timerMap.Keys == old(timerMap.Keys) + {channel.fd}
      ensures timerMap[channel.fd].channel == channel && timerMap[channel.fd].expiredTime == now + timeout
      ensures forall fd :: fd in old(timerMap) && fd != channel.fd ==> timerMap[fd] == old(timerMap[fd])
      ensures heapNode ==
        if old(channel.first) then old(heapNode)[channel.fd := timerMap[channel.fd]] else old(heapNode)
    {
      var node := new TimerNode(channel, now, timeout);
      ghost var tm, hn := timerMap, heapNode;
      SameKeys(tm, hn);
      if channel.first {
        HeapAdd(timerHeap, heapNode, node);
        timerHeap := timerHeap + multiset{node};
        heapNode := heapNode[channel.fd := node];
        SetNotFirst(channel, tm, hn);
      }
      EntriesPut(tm, hn, node);
      timerMap := timerMap[channel.fd := node];
    }

    /** Takes the last node of a channel out and closes the channel. */
    method Close(p: TimerNode)
      requires Valid() && p in timerHeap && p.channel.fd in timerMap && timerMap[p.channel.fd] == p
      modifies this, p.channel`closed
      ensures Valid() && p.channel.closed && |timerHeap| < |old(timerHeap)|
      ensures timerMap == old(timerMap) - {p.channel.fd} && heapNode == old(heapNode) - {p.channel.fd}
      ensures NoOthers(timerHeap, old(timerHeap), p)
    {
      var fd := p.channel.fd;
      HeapRemove(timerHeap, heapNode, p);
      CloseChannel(p.channel, timerMap, heapNode);
      timerHeap := timerHeap - multiset{p};
      timerMap := timerMap - {fd};
      heapNode := heapNode - {fd};
    }

    /** Puts the latest timer of a channel in place of a node that has run out. */
    method MoveOn(p: TimerNode, timer: TimerNode)
      requires Valid() && p in timerHeap && p.channel.fd in timerMap && timerMap[p.channel.fd] == timer != p
      modifies this`timerHeap, this`heapNode
      ensures Valid() && |timerHeap| == |old(timerHeap)| && heapNode == old(heapNode)[p.channel.fd := timer]
      ensures NoOthers(timerHeap, old(timerHeap), p)
      ensures Stale(timerMap, heapNode) < old(Stale(timerMap, heapNode))
    {
      ghost var fd := p.channel.fd;
      OwnNode(timerHeap, timerMap, heapNode, p);
      HeapRemove(timerHeap, heapNode, p);
      timerHeap := timerHeap - multiset{p};
      HeapAdd(timerHeap, heapNode - {fd}, timer);
      timerHeap := timerHeap + multiset{timer};
      assert (heapNode - {fd})[fd := timer] == heapNode[fd := timer];
      EntriesMove(timerMap, heapNode, fd);
      heapNode := heapNode[fd := timer];
      assert fd in old(Stale(timerMap, heapNode)) && fd !in Stale(timerMap, heapNode);
    }

    /** One node that has run out or whose channel is deleted: the channel is closed, or its latest timer moves in. */
    method Expire(p: TimerNode, now: nat, closed: seq<int>, ghost tm0: Timers, ghost hn0: Timers, ghost g: Progress)
        returns (closedNow: seq<int>)
      requires Valid() && p in timerHeap && g.time <= now && (p.channel.deleted || p.expiredTime <= now)
      requires Closed(closed, tm0, timerMap) && AllOk(tm0, hn0, timerMap, heapNode, g)
      requires forall fd :: fd in closed && fd in tm0 ==> tm0[fd].channel.closed
      modifies this, p.channel`closed
      ensures Valid() && Closed(closedNow, tm0, timerMap)
      ensures AllOk(tm0, hn0, timerMap, heapNode, Popped(g, p, now)) && NoOthers(timerHeap, old(timerHeap), p)
      ensures forall fd :: fd in closedNow && fd in tm0 ==> tm0[fd].channel.closed
      ensures |timerHeap| < |old(timerHeap)|
        || (|timerHeap| == |old(timerHeap)| && Stale(timerMap, heapNode) < old(Stale(timerMap, heapNode)))
    {
      closedNow := closed;
      ghost var later := Popped(g, p, now);
      OwnNode(timerHeap, timerMap, heapNode, p);
      CloseOnce(closed, tm0, timerMap, p.channel.fd);
      AllOkLatest(tm0, hn0, timerMap, heapNode, g, p.channel.fd);
      var timer := timerMap[p.channel.fd];
      if p == timer {
        AllOkClose(tm0, hn0, timerMap, heapNode, g, later, p);
        Close(p);
        closedNow := closed + [p.channel.fd];
      } else {
        AllOkMove(tm0, hn0, timerMap, heapNode, g, later, p);
        MoveOn(p, timer);
      }
    }

    /** Closes the channels whose timers have run out and moves refreshed nodes on, until an open node that has not run
        out is in front. The clock is not read for a deleted channel. */
    method HandleExpiredEvent(clock: nat -> nat) returns (closed: seq<int>, ghost g: Progress)
      requires Valid() && Clock(clock)
      modifies this, Channels(timerMap)`closed
      ensures Valid() && Closed(closed, old(timerMap), timerMap) && Stopped(timerHeap, g)
      ensures AllOk(old(timerMap), old(heapNode), timerMap, heapNode, g)
      ensures g.time == 0 || exists k: nat :: g.time == clock(k)
      ensures forall fd :: fd in closed && fd in old(timerMap) ==> old(timerMap)[fd].channel.closed
    {
      ghost var tm0, hn0 := timerMap, heapNode;
      closed, g := [], Progress(0, 0);
      AllOkStart(timerMap, heapNode);
      NoneClosed(timerMap);
      var k: nat, now: nat := 0, 0;
      while |timerHeap| > 0
        invariant Valid() && Closed(closed, tm0, timerMap) && AllOk(tm0, hn0, timerMap, heapNode, g)
        invariant Ahead(timerHeap, g)
        invariant forall fd :: fd in closed && fd in tm0 ==> tm0[fd].channel.closed
        invariant g.time == now <= clock(k) && (k == 0 ==> now == 0) && (k > 0 ==> now == clock(k - 1))
        decreases |timerHeap|, Stale(timerMap, heapNode)
      {
        var p := Top(timerHeap);
        var expired := p.channel.deleted;
        if !expired {
          now := clock(k);
          k := k + 1;
          expired := !(now < p.expiredTime);
        }
        if expired {
          InChannels(tm0, hn0, timerMap, heapNode, timerHeap, closed, g, p);
          ghost var h, later := timerHeap, Popped(g, p, now);
          closed := Expire(p, now, closed, tm0, hn0, g);
          PopKeepsAhead(h, timerHeap, g, p, now);
          g := later;
        } else {
          AllOkLater(tm0, hn0, timerMap, heapNode, g, g.(time := now));
          g := g.(time := now);
          return;
        }
      }
    }
  }
}
