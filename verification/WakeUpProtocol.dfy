/** How other threads hand functions to an event loop and wake it up: the steps of all threads, in any order. */
module WakeUpProtocol {
  /** Where the loop thread is: in epoll_wait, running event callbacks (with the wake-up channel still to come or not),
      about to swap the queue, running the swapped functions, or running expired timers. */
  datatype Phase = Polling | Handling(wake: bool) | Swapping | Calling | Expiring

  /** `pending` and `batch` are the queue and its swapped part; `counter` and `edge` the eventfd: its count, and whether
      epoll has a write to it to report; `due` says that the loop thread has queued a function and will now wake itself,
      and `between` how many other threads have queued one and will now wake the loop.
      `enqueued` and `executed` record the order in which functions were queued and run. */
  datatype State<F> = State(pending: seq<F>, batch: seq<F>, counter: nat, edge: bool, phase: Phase, due: bool,
                            between: nat, enqueued: seq<F>, executed: seq<F>)

  datatype Event<F> =
    | Push(f: F)      // another thread queues a function
    | Wake            // and then writes to the eventfd
    | Poll(others: bool, full: bool)  // epoll_wait ends; `full` if there were too many events to report this one
    | Drop            // epoll finds nothing to read behind an old report
    | ReadWake        // the wake-up channel's callback reads the eventfd
    | LoopPush(f: F)  // a callback or a running function queues a function
    | LoopWake        // and then writes to the eventfd
    | EndHandling
    | Swap
    | Call
    | EndCalling
    | LatePush(f: F)  // an expired timer queues a function
    | EndExpiring

  function Start<F>(): State<F> { State([], [], 0, false, Polling, false, 0, [], []) }

  predicate Reportable<F>(s: State<F>) {
    s.edge && s.counter > 0
  }

  predicate Enabled<F>(s: State<F>, ev: Event<F>) {
    match ev
    case Push(_) => true
    case Wake => s.between > 0
    case Poll(others, full) => s.phase == Polling && (others || (Reportable(s) && !full))
    case Drop => s.phase == Polling && s.edge && s.counter == 0
    case ReadWake => s.phase == Handling(true)
    case LoopPush(_) => (s.phase.Handling? || s.phase == Calling) && !s.due
    case LoopWake => s.due
    case EndHandling => s.phase == Handling(false) && !s.due
    case Swap => s.phase == Swapping
    case Call => s.phase == Calling && s.batch != [] && !s.due
    case EndCalling => s.phase == Calling && s.batch == [] && !s.due
    case LatePush(_) => s.phase == Expiring
    case EndExpiring => s.phase == Expiring
  }

  function Queued<F>(s: State<F>, f: F): State<F> {
    s.(pending := s.pending + [f], enqueued := s.enqueued + [f])
  }

  function Written<F>(s: State<F>): State<F> {
    s.(counter := s.counter + 1, edge := true)
  }

  function Step<F>(s: State<F>, ev: Event<F>): State<F>
    requires Enabled(s, ev)
  {
    match ev
    case Push(f) => Queued(s, f).(between := s.between + 1)
    case Wake => Written(s).(between := s.between - 1)
    case Poll(others, full) =>
      if Reportable(s) && !full then s.(phase := Handling(true), edge := false) else s.(phase := Handling(false))
    case Drop => s.(edge := false)
    case ReadWake => s.(phase := Handling(false), counter := 0)
    case LoopPush(f) => Queued(s, f).(due := s.phase == Calling)
    case LoopWake => Written(s).(due := false)
    case EndHandling => s.(phase := Swapping)
    case Swap => s.(phase := Calling, batch := s.pending, pending := [])
    case Call => s.(executed := s.executed + [s.batch[0]], batch := s.batch[1..])
    case EndCalling => s.(phase := Expiring)
    case LatePush(f) => Queued(s, f)
    case EndExpiring => s.(phase := Polling)
  }

  // What every step keeps

  /** Every function queued is run once and in order: the ones run, the rest of the batch and the queue are all of
      them. */
  ghost predicate Ordered<F>(s: State<F>) {
    && s.executed + s.batch + s.pending == s.enqueued
    && (s.phase != Calling ==> s.batch == [])
    && (s.due ==> s.phase == Calling && s.pending != [])
    && (s.counter > 0 ==> s.edge || s.phase == Handling(true))
  }

  /** Once the queue has been swapped, a function left in it has a wake-up behind it or on its way. */
  ghost predicate Covered<F>(s: State<F>) {
    s.pending != [] && (s.phase == Polling || s.phase == Calling || s.phase == Expiring) ==>
      s.counter > 0 || s.between > 0 || s.due
  }

  lemma QueuedOrdered<F>(s: State<F>, f: F)
    requires Ordered(s)
    ensures Queued(s, f).executed + s.batch + Queued(s, f).pending == Queued(s, f).enqueued
  {
    assert s.executed + s.batch + (s.pending + [f]) == s.executed + s.batch + s.pending + [f];
  }

  lemma CalledOrdered<F>(s: State<F>)
    requires Ordered(s) && s.batch != []
    ensures s.executed + [s.batch[0]] + s.batch[1..] + s.pending == s.enqueued
  {
    assert s.executed + [s.batch[0]] + s.batch[1..] == s.executed + s.batch;
  }

  lemma StepOrdered<F>(s: State<F>, ev: Event<F>)
    requires Ordered(s) && Enabled(s, ev)
    ensures Ordered(Step(s, ev))
  {
    match ev
    case Push(f) => QueuedOrdered(s, f);
    case LoopPush(f) => QueuedOrdered(s, f);
    case LatePush(f) => QueuedOrdered(s, f);
    case Call => CalledOrdered(s);
    case Swap => assert s.executed + [] + s.pending == s.executed + s.pending + [];
    case _ =>
  }

  lemma StepCovered<F>(s: State<F>, ev: Event<F>)
    requires Ordered(s) && Covered(s) && Enabled(s, ev) && !ev.LatePush?
    ensures Covered(Step(s, ev))
  {
  }

  // Runs

  ghost predicate Possible<F>(evs: seq<Event<F>>)
    decreases |evs|, 0
  {
    evs == [] || (Possible(evs[..|evs| - 1]) && Enabled(Run(evs[..|evs| - 1]), evs[|evs| - 1]))
  }

  ghost function Run<F>(evs: seq<Event<F>>): State<F>
    requires Possible(evs)
    decreases |evs|, 1
  {
    if evs == [] then Start() else Step(Run(evs[..|evs| - 1]), evs[|evs| - 1])
  }

  /** In every interleaving, queued functions run exactly once and in the order they were queued. */
  lemma {:induction false} ExactlyOnceInOrder<F>(evs: seq<Event<F>>)
    requires Possible(evs)
    ensures Ordered(Run(evs))
    decreases |evs|
  {
    if evs != [] {
      ExactlyOnceInOrder(evs[..|evs| - 1]);
      StepOrdered(Run(evs[..|evs| - 1]), evs[|evs| - 1]);
    }
  }

  /** The loop blocks although a function waits, and nobody is going to wake it. */
  ghost predicate Lost<F>(s: State<F>) {
    s.phase == Polling && s.pending != [] && !Reportable(s) && s.between == 0
  }

  /** As long as the loop thread queues functions only from event callbacks and from queued functions,
      no interleaving loses a wake-up. */
  lemma {:induction false} NoLostWakeUp<F>(evs: seq<Event<F>>)
    requires Possible(evs) && forall ev :: ev in evs ==> !ev.LatePush?
    ensures Covered(Run(evs)) && !Lost(Run(evs))
    decreases |evs|
  {
    ExactlyOnceInOrder(evs);
    if evs != [] {
      var before, ev := evs[..|evs| - 1], evs[|evs| - 1];
      assert ev in evs;
      NoLostWakeUp(before);
      ExactlyOnceInOrder(before);
      StepCovered(Run(before), ev);
    }
  }

  lemma RunMore<F>(evs: seq<Event<F>>, ev: Event<F>)
    requires Possible(evs) && Enabled(Run(evs), ev)
    ensures Possible(evs + [ev]) && Run(evs + [ev]) == Step(Run(evs), ev)
  {
    assert (evs + [ev])[..|evs|] == evs;
  }

  /** Why timers must not queue functions: a run that goes on with an expired timer queueing one loses the wake-up
      if and only if no other wake-up is there or on its way. */
  lemma LateQueueing<F>(evs: seq<Event<F>>, f: F)
    requires Possible(evs) && (forall ev :: ev in evs ==> !ev.LatePush?) && Run(evs).phase == Expiring
    ensures var more := evs + [LatePush(f)] + [EndExpiring];
      && Possible(more)
      && (Lost(Run(more)) <==> Run(evs).counter == 0 && Run(evs).between == 0)
  {
    NoLostWakeUp(evs);
    ExactlyOnceInOrder(evs);
    RunMore(evs, LatePush(f));
    RunMore(evs + [LatePush(f)], EndExpiring);
  }

  /** And there is such a run: one turn in which nothing else happens. */
  lemma LateQueueingLoses<F>(f: F)
    ensures var evs := [Poll(true, false)] + [EndHandling] + [Swap] + [EndCalling] + [LatePush(f)] + [EndExpiring];
      Possible(evs) && Lost(Run(evs))
  {
    var poll: Event<F> := Poll(true, false);
    assert [] + [poll] == [poll];
    RunMore([], poll);
    RunMore([poll], EndHandling);
    var evs := [poll] + [EndHandling];
    RunMore(evs, Swap);
    RunMore(evs + [Swap], EndCalling);
    LateQueueing(evs + [Swap] + [EndCalling], f);
  }

  // The loop delivers what it is woken for

  /** The rest of a batch, run without interruption. */
  function CallAll<F>(s: State<F>): (t: State<F>)
    requires s.phase == Calling && !s.due
    ensures t == s.(batch := [], executed := s.executed + s.batch)
    decreases |s.batch|
  {
    if s.batch == [] then assert s.executed + [] == s.executed; s
    else
      assert s.executed + [s.batch[0]] + s.batch[1..] == s.executed + s.batch;
      CallAll(Step(s, Call))
  }

  /** One turn of the loop thread on its own, from epoll_wait to epoll_wait. */
  function Turn<F>(s: State<F>): State<F>
    requires s.phase == Polling && Reportable(s) && !s.due
  {
    var s1 := Step(s, Poll(false, false));
    var s2 := Step(s1, ReadWake);
    var s3 := Step(s2, EndHandling);
    var s4 := CallAll(Step(s3, Swap));
    var s5 := Step(s4, EndCalling);
    Step(s5, EndExpiring)
  }

  /** A loop that is not lost, with nobody else at work, runs everything that was queued in its next turn. */
  lemma Delivers<F>(s: State<F>)
    requires Ordered(s) && s.phase == Polling && s.pending != [] && s.between == 0 && !Lost(s)
    ensures Reportable(s) && Turn(s).executed == s.enqueued && Turn(s).pending == [] && Turn(s).phase == Polling
  {
    assert s.executed + [] + s.pending == s.executed + s.pending;
  }
}
