/** The event loop's own code, as steps of the wake-up protocol. */
module EventLoops {
  import opened WakeUpProtocol

  /** A call of `QueueInLoop`, from the loop thread or from another one. */
  datatype Queueing<F> = Queueing(f: F, inLoopThread: bool)

  function Functions<F>(qs: seq<Queueing<F>>): seq<F> {
    seq(|qs|, i requires 0 <= i < |qs| => qs[i].f)
  }

  /** Everything that is queued while the functions of a batch run, in order. */
  function Spawned<F>(fs: seq<F>, spawn: F -> seq<Queueing<F>>): seq<F>
    decreases |fs|
  {
    if fs == [] then [] else Spawned(fs[..|fs| - 1], spawn) + Functions(spawn(fs[|fs| - 1]))
  }

  class EventLoop<F> {
    var pendingFunctions: seq<F>
    var isCallingPendingFunctions: bool
    var isEventHandling: bool
    var eventCounter: nat        // the eventfd's count
    ghost var edge: bool
    ghost var phase: Phase
    ghost var batch: seq<F>
    ghost var between: nat       // other threads between queueing and writing
    ghost var enqueued: seq<F>
    ghost var executed: seq<F>

    ghost function View(): State<F>
      reads this
    {
      State(pendingFunctions, batch, eventCounter, edge, phase, false, between, enqueued, executed)
    }

    ghost predicate Valid()
      reads this
    {
      && Ordered(View()) && Covered(View())
      && (isCallingPendingFunctions <==> phase == Calling) && (isEventHandling <==> phase.Handling?)
    }

    constructor ()
      ensures Valid() && View() == Start()
    {
      pendingFunctions, isCallingPendingFunctions, isEventHandling, eventCounter := [], false, false, 0;
      edge, phase, batch, between, enqueued, executed := false, Polling, [], 0, [], [];
    }

    method WakeUp()
      modifies this`eventCounter, this`edge
      ensures View() == Written(old(View()))
    {
      eventCounter := eventCounter + 1;
      edge := true;
    }

    /** Queues a function; another thread, or the loop thread while it runs queued functions, wakes the loop. */
    method QueueInLoop(f: F, inLoopThread: bool)
      requires Valid() && (inLoopThread ==> phase.Handling? || phase == Calling)
      modifies this`pendingFunctions, this`enqueued, this`eventCounter, this`edge
      ensures Valid()
      ensures pendingFunctions == old(pendingFunctions) + [f] && enqueued == old(enqueued) + [f]
      ensures !inLoopThread ==> View() == Step(Step(old(View()), Push(f)), Wake)
      ensures inLoopThread && phase == Calling ==> View() == Step(Step(old(View()), LoopPush(f)), LoopWake)
      ensures inLoopThread && phase.Handling? ==> View() == Step(old(View()), LoopPush(f))
    {
      ghost var s := View();
      StepOrdered(s, if inLoopThread then LoopPush(f) else Push(f));
      pendingFunctions := pendingFunctions + [f];
      enqueued := enqueued + [f];
      if !inLoopThread || isCallingPendingFunctions {
        WakeUp();
      }
    }

    /** The wake-up channel's read callback. */
    method HandleRead()
      requires Valid() && phase == Handling(true)
      modifies this`eventCounter, this`phase
      ensures Valid() && View() == Step(old(View()), ReadWake)
    {
      eventCounter := 0;
      phase := Handling(false);
    }

    /** Several functions are queued, by this thread or by others. */
    method QueueAll(qs: seq<Queueing<F>>)
      requires Valid() && ((phase.Handling? || phase == Calling) || forall q :: q in qs ==> !q.inLoopThread)
      modifies this`pendingFunctions, this`enqueued, this`eventCounter, this`edge
      ensures Valid() && pendingFunctions == old(pendingFunctions) + Functions(qs)
    {
      assert Functions(qs[..0]) == [];
      for i := 0 to |qs|
        invariant Valid() && pendingFunctions == old(pendingFunctions) + Functions(qs[..i])
      {
        assert qs[i] in qs;
        QueueInLoop(qs[i].f, qs[i].inLoopThread);
        assert Functions(qs[..i + 1]) == Functions(qs[..i]) + [qs[i].f];
      }
      assert qs[..|qs|] == qs;
    }

    /** Runs one function of the batch; while it runs, it and other threads may queue others. */
    method Perform(f: F, spawn: F -> seq<Queueing<F>>)
      requires Valid() && phase == Calling && batch != [] && f == batch[0]
      modifies this`executed, this`batch, this`pendingFunctions, this`enqueued, this`eventCounter, this`edge
      ensures Valid() && executed == old(executed) + [f] && batch == old(batch[1..])
      ensures pendingFunctions == old(pendingFunctions) + Functions(spawn(f))
    {
      StepOrdered(View(), Call);
      executed := executed + [f];
      batch := batch[1..];
      QueueAll(spawn(f));
    }

    /** Swaps the queue out and runs all of it; what those functions queue waits for the next turn. */
    method PerformPendingFunctions(spawn: F -> seq<Queueing<F>>)
      requires Valid() && phase == Swapping
      modifies this`isCallingPendingFunctions, this`executed, this`batch, this`pendingFunctions, this`enqueued,
               this`eventCounter, this`edge, this`phase
      ensures Valid() && phase == Expiring
      ensures executed == old(executed + pendingFunctions)
      ensures pendingFunctions == Spawned(old(pendingFunctions), spawn)
      ensures pendingFunctions != [] ==> eventCounter > 0 || between > 0
    {
      StepOrdered(View(), Swap);
      ghost var done := executed;
      var functions := pendingFunctions;
      isCallingPendingFunctions := true;
      pendingFunctions, batch, phase := [], functions, Calling;
      assert functions[..0] == [] && functions[0..] == functions;
      for i := 0 to |functions|
        invariant Valid() && phase == Calling && batch == functions[i..]
        invariant executed == done + functions[..i] && pendingFunctions == Spawned(functions[..i], spawn)
      {
        assert functions[i..][1..] == functions[i + 1..];
        Perform(functions[i], spawn);
        assert functions[..i + 1] == functions[..i] + [functions[i]];
        assert functions[..i + 1][..i] == functions[..i];
      }
      assert functions[..|functions|] == functions;
      isCallingPendingFunctions := false;
      phase := Expiring;
    }

    /** The event callbacks of a turn. `woken` says that epoll reports the wake-up channel; event callbacks and other
        threads queue `early` before its callback and `late` behind it. */
    method HandleEvents(woken: bool, early: seq<Queueing<F>>, late: seq<Queueing<F>>)
      requires Valid() && phase == Polling && (woken ==> Reportable(View()))
      modifies this`isEventHandling, this`pendingFunctions, this`enqueued, this`eventCounter, this`edge, this`phase
      ensures Valid() && phase == Swapping
      ensures pendingFunctions == old(pendingFunctions) + Functions(early) + Functions(late)
    {
      StepOrdered(View(), Poll(true, !woken));
      edge := edge && !woken;
      phase := Handling(woken);
      isEventHandling := true;
      QueueAll(early);
      if woken {
        HandleRead();
      }
      QueueAll(late);
      isEventHandling := false;
      phase := Swapping;
    }

    /** One turn of the loop; other threads queue `after` while timers expire. */
    method LoopOnce(woken: bool, early: seq<Queueing<F>>, late: seq<Queueing<F>>, spawn: F -> seq<Queueing<F>>,
                    after: seq<Queueing<F>>)
      requires Valid() && phase == Polling && (woken ==> Reportable(View()))
      requires forall q :: q in after ==> !q.inLoopThread
      modifies this
      ensures Valid() && phase == Polling
      ensures var turn := old(pendingFunctions) + Functions(early) + Functions(late);
        executed == old(executed) + turn && pendingFunctions == Spawned(turn, spawn) + Functions(after)
      ensures !Lost(View())
    {
      HandleEvents(woken, early, late);
      PerformPendingFunctions(spawn);
      QueueAll(after);
      phase := Polling;
    }
  }
}
