/** The asynchronous logger as a state machine over buffer texts. */
module LogModel {
  const BUFFER_SIZE: nat := 4000 * 1000  // kLargeBufferSize
  const MOST_BUFFERS: nat := 25

  /** Where the worker is in its loop. */
  datatype Phase = Top | Swapped | Writing(written: nat)

  /** The front end's buffers, the worker's batch and its two spares, and the log file.
      `taken` records the batches the worker has taken so far. */
  datatype Log = Log(current: string, hasNext: bool, queued: seq<string>,
                     phase: Phase, batch: seq<string>, spare1: bool, spare2: bool,
                     file: string, taken: seq<seq<string>>)

  const START: Log := Log("", true, [], Top, [], true, true, "", [])

  /** A buffer takes a message only if a byte stays free behind it. */
  function Append(text: string, msg: string): string {
    if BUFFER_SIZE - |text| > |msg| then text + msg else text
  }

  function WriteLog(l: Log, msg: string): Log {
    if BUFFER_SIZE - |l.current| > |msg| then l.(current := l.current + msg)
    else l.(queued := l.queued + [l.current], current := Append("", msg), hasNext := false)
  }

  function Swap(l: Log): Log {
    var batch := l.queued + [l.current];
    l.(current := "", queued := [], batch := batch, phase := Swapped, taken := l.taken + [batch],
       spare1 := false, hasNext := true, spare2 := l.hasNext && l.spare2)
  }

  function Kept(batch: seq<string>): seq<string> {
    if |batch| > MOST_BUFFERS then batch[..2] else batch
  }

  function Erase(l: Log): Log {
    l.(batch := Kept(l.batch), phase := Writing(0))
  }

  function WriteOne(l: Log): Log
    requires l.phase.Writing? && l.phase.written < |l.batch|
  {
    l.(file := l.file + l.batch[l.phase.written], phase := Writing(l.phase.written + 1))
  }

  function Restock(l: Log): Log {
    l.(batch := [], spare1 := true, spare2 := true, phase := Top)
  }

  /** The worker's next step. */
  function Work(l: Log): Log {
    match l.phase
    case Top => Swap(l)
    case Swapped => Erase(l)
    case Writing(i) => if i < |l.batch| then WriteOne(l) else Restock(l)
  }

  // Any interleaving of producers and worker

  datatype Event = Message(msg: string) | Worker

  function Step(l: Log, ev: Event): Log {
    match ev case Message(msg) => WriteLog(l, msg) case Worker => Work(l)
  }

  function Run(evs: seq<Event>): Log
    decreases |evs|
  {
    if evs == [] then START else Step(Run(evs[..|evs| - 1]), evs[|evs| - 1])
  }

  /** The bytes of an event that the logger takes: a message as large as a whole buffer is lost. */
  function Bytes(ev: Event): string {
    match ev case Message(msg) => if |msg| < BUFFER_SIZE then msg else "" case Worker => ""
  }

  function Accepted(evs: seq<Event>): string
    decreases |evs|
  {
    if evs == [] then "" else Accepted(evs[..|evs| - 1]) + Bytes(evs[|evs| - 1])
  }

  // What every step keeps

  /** Every assertion of the worker holds: at the top of its loop it has two empty spares and no batch, and when it
      restocks its spares the batch has a buffer for each spare that it gave away. */
  predicate Inv(l: Log) {
    && |l.current| < BUFFER_SIZE && (forall t :: t in l.queued ==> |t| < BUFFER_SIZE)
    && (forall t :: t in l.batch ==> |t| < BUFFER_SIZE)
    && (!l.hasNext ==> l.queued != [])
    && match l.phase
       case Top => l.spare1 && l.spare2 && l.batch == []
       case Swapped => !l.spare1 && |l.batch| >= 1 && (!l.spare2 ==> |l.batch| >= 2)
       case Writing(i) => !l.spare1 && i <= |l.batch| && |l.batch| >= 1 && (!l.spare2 ==> |l.batch| >= 2)
  }

  lemma StepKeepsInv(l: Log, ev: Event)
    requires Inv(l)
    ensures Inv(Step(l, ev))
  {
    match ev
    case Message(msg) =>
      assert forall t :: t in l.queued + [l.current] ==> t in l.queued || t == l.current;
    case Worker =>
      assert forall t :: t in l.queued + [l.current] ==> t in l.queued || t == l.current;
      assert forall t :: t in Kept(l.batch) ==> t in l.batch;
  }

  lemma {:induction false} AlwaysInv(evs: seq<Event>)
    ensures Inv(Run(evs))
    decreases |evs|
  {
    if evs != [] {
      AlwaysInv(evs[..|evs| - 1]);
      StepKeepsInv(Run(evs[..|evs| - 1]), evs[|evs| - 1]);
    }
  }

  // Conservation

  function Flat(ts: seq<string>): string
    decreases |ts|
  {
    if ts == [] then "" else Flat(ts[..|ts| - 1]) + ts[|ts| - 1]
  }

  /** All bytes of all batches. */
  function AllTaken(bs: seq<seq<string>>): string
    decreases |bs|
  {
    if bs == [] then "" else AllTaken(bs[..|bs| - 1]) + Flat(bs[|bs| - 1])
  }

  /** The bytes of the batches that the worker does not erase. */
  function AllKept(bs: seq<seq<string>>): string
    decreases |bs|
  {
    if bs == [] then "" else AllKept(bs[..|bs| - 1]) + Flat(Kept(bs[|bs| - 1]))
  }

  /** No byte the front end has accepted is lost before the worker takes it. */
  predicate FrontConserved(l: Log, accepted: string) {
    AllTaken(l.taken) + Flat(l.queued) + l.current == accepted
  }

  /** The file holds the kept part of every finished batch and the written part of the present one. */
  predicate FileConserved(l: Log) {
    var n := |l.taken|;
    match l.phase
    case Top => l.file == AllKept(l.taken)
    case Swapped => n > 0 && l.batch == l.taken[n - 1] && l.file == AllKept(l.taken[..n - 1])
    case Writing(i) =>
      && n > 0 && i <= |l.batch| && l.batch == Kept(l.taken[n - 1])
      && l.file == AllKept(l.taken[..n - 1]) + Flat(l.batch[..i])
  }

  lemma FlatSnoc(ts: seq<string>, t: string)
    ensures Flat(ts + [t]) == Flat(ts) + t
  {
    assert (ts + [t])[..|ts|] == ts;
  }

  lemma FlatTwo(a: string, b: string)
    ensures Flat([a] + [b]) == a + b
  {
    FlatSnoc([], a);
    FlatSnoc([a], b);
    assert [] + [a] == [a] && "" + a == a;
  }

  lemma TakenSnoc(bs: seq<seq<string>>, b: seq<string>)
    ensures AllTaken(bs + [b]) == AllTaken(bs) + Flat(b)
  {
    assert (bs + [b])[..|bs|] == bs;
  }

  lemma Assoc(a: string, b: string, c: string)
    ensures a + b + c == a + (b + c)
  {
  }

  lemma QueueConserves(taken: string, queued: seq<string>, current: string, msg: string)
    ensures taken + Flat(queued + [current]) + msg == taken + Flat(queued) + current + msg
  {
    FlatSnoc(queued, current);
    Assoc(taken, Flat(queued), current);
  }

  lemma WriteConserves(l: Log, msg: string, accepted: string)
    requires FrontConserved(l, accepted)
    ensures FrontConserved(WriteLog(l, msg), accepted + Bytes(Message(msg)))
  {
    var m, taken := WriteLog(l, msg), AllTaken(l.taken);
    assert m.taken == l.taken;
    if BUFFER_SIZE - |l.current| > |msg| {
      Assoc(taken + Flat(l.queued), l.current, msg);
    } else {
      assert m.queued == l.queued + [l.current];
      assert m.current == Append("", msg) == Bytes(Message(msg)) by { assert "" + msg == msg; }
      QueueConserves(taken, l.queued, l.current, m.current);
    }
  }

  lemma SwapConserves(l: Log, accepted: string)
    requires FrontConserved(l, accepted)
    ensures FrontConserved(Swap(l), accepted)
  {
    var b := l.queued + [l.current];
    FlatSnoc(l.queued, l.current);
    TakenSnoc(l.taken, b);
    Assoc(AllTaken(l.taken), Flat(l.queued), l.current);
    assert AllTaken(l.taken + [b]) + "" + "" == AllTaken(l.taken + [b]);
  }

  lemma WriteOneKeepsFile(l: Log)
    requires FileConserved(l) && l.phase.Writing? && l.phase.written < |l.batch|
    ensures FileConserved(WriteOne(l))
  {
    var i, kept := l.phase.written, AllKept(l.taken[..|l.taken| - 1]);
    WrittenMore(kept, l.batch, i);
  }

  lemma WrittenMore(kept: string, batch: seq<string>, i: nat)
    requires i < |batch|
    ensures kept + Flat(batch[..i]) + batch[i] == kept + Flat(batch[..i + 1])
  {
    FlatSnoc(batch[..i], batch[i]);
    assert batch[..i + 1] == batch[..i] + [batch[i]];
    Assoc(kept, Flat(batch[..i]), batch[i]);
  }

  lemma WorkKeepsFile(l: Log)
    requires Inv(l) && FileConserved(l)
    ensures FileConserved(Work(l))
  {
    match l.phase
    case Top =>
      assert (l.taken + [l.queued + [l.current]])[..|l.taken|] == l.taken;
    case Swapped =>
      assert Kept(l.batch)[..0] == [];
      assert l.file + "" == l.file;
    case Writing(i) =>
      if i < |l.batch| {
        WriteOneKeepsFile(l);
      } else {
        assert l.batch[..i] == l.batch;
      }
  }

  lemma WorkConserves(l: Log, accepted: string)
    requires Inv(l) && FrontConserved(l, accepted)
    ensures FrontConserved(Work(l), accepted)
  {
    if l.phase == Top {
      SwapConserves(l, accepted);
    }
  }

  lemma StepConserves(l: Log, ev: Event, accepted: string)
    requires Inv(l) && FrontConserved(l, accepted)
    ensures FrontConserved(Step(l, ev), accepted + Bytes(ev))
  {
    match ev
    case Message(msg) =>
      WriteConserves(l, msg, accepted);
    case Worker =>
      WorkConserves(l, accepted);
      assert accepted + "" == accepted;
  }

  lemma StepKeepsFile(l: Log, ev: Event)
    requires Inv(l) && FileConserved(l)
    ensures FileConserved(Step(l, ev))
  {
    match ev
    case Message(msg) =>
    case Worker => WorkKeepsFile(l);
  }

  /** In every interleaving, nothing the front end accepted is lost before the worker takes it,
      and the file holds exactly the kept part of what the worker has written. */
  lemma {:induction false} Conservation(evs: seq<Event>)
    ensures FrontConserved(Run(evs), Accepted(evs)) && FileConserved(Run(evs))
    decreases |evs|
  {
    if evs != [] {
      var before := evs[..|evs| - 1];
      Conservation(before);
      AlwaysInv(before);
      StepConserves(Run(before), evs[|evs| - 1], Accepted(before));
      StepKeepsFile(Run(before), evs[|evs| - 1]);
    }
  }

  /** The part of the worker's batch that is not in the file yet. */
  function Unwritten(l: Log): string {
    match l.phase
    case Top => ""
    case Swapped => Flat(l.batch)
    case Writing(i) => if i <= |l.batch| then Flat(l.batch[i..]) else ""
  }

  lemma {:induction false} FlatSplit(ts: seq<string>, i: nat)
    requires i <= |ts|
    ensures Flat(ts[..i]) + Flat(ts[i..]) == Flat(ts)
    decreases |ts| - i
  {
    if i == |ts| {
      assert ts[..i] == ts && ts[i..] == [];
    } else {
      var n := |ts| - 1;
      FlatSplit(ts[..n], i);
      assert ts[..n][..i] == ts[..i] && ts[i..][..n - i] == ts[..n][i..];
      Assoc(Flat(ts[..i]), Flat(ts[i..n]), ts[n]);
    }
  }

  lemma WrittenOut(kept: string, batch: seq<string>, i: nat)
    requires i <= |batch|
    ensures kept + Flat(batch[..i]) + Flat(batch[i..]) == kept + Flat(batch)
  {
    FlatSplit(batch, i);
    Assoc(kept, Flat(batch[..i]), Flat(batch[i..]));
  }

  // What is lost

  /** The file, the unwritten part of the batch, the queue and the current buffer are exactly what was accepted. */
  predicate Whole(l: Log, accepted: string) {
    l.file + Unwritten(l) + Flat(l.queued) + l.current == accepted
  }

  /** The batches that have been through the erasing of large batches. */
  function Erased(l: Log): seq<seq<string>> {
    if l.phase == Swapped && l.taken != [] then l.taken[..|l.taken| - 1] else l.taken
  }

  /** A batch of at most 25 buffers is not cut, and from a larger one only empty buffers are. */
  predicate CutNothing(bs: seq<seq<string>>) {
    forall b :: b in bs ==> |b| <= 25 || Flat(b[2..]) == ""
  }

  lemma KeptPart(b: seq<string>)
    ensures |Flat(Kept(b))| <= |Flat(b)|
    ensures Flat(Kept(b)) == Flat(b) <==> |b| <= 25 || Flat(b[2..]) == ""
  {
    if |b| > MOST_BUFFERS {
      FlatSplit(b, 2);
    }
  }

  lemma SameParts(a: string, b: string, c: string, d: string)
    requires |a| <= |c| && |b| <= |d|
    ensures a + b == c + d <==> a == c && b == d
  {
    if a + b == c + d {
      assert |a + b| == |a| + |b|;
      assert a == (a + b)[..|a|] == c && b == (a + b)[|a|..] == d;
    }
  }

  lemma CutMore(bs: seq<seq<string>>, b: seq<string>)
    ensures CutNothing(bs + [b]) <==> CutNothing(bs) && CutNothing([b])
  {
    assert forall c :: c in bs + [b] <==> c in bs || c in [b];
  }

  lemma {:induction false} KeptAll(bs: seq<seq<string>>)
    ensures |AllKept(bs)| <= |AllTaken(bs)|
    ensures AllKept(bs) == AllTaken(bs) <==> CutNothing(bs)
    decreases |bs|
  {
    if bs != [] {
      var front, b := bs[..|bs| - 1], bs[|bs| - 1];
      KeptAll(front);
      KeptPart(b);
      SameParts(AllKept(front), Flat(Kept(b)), AllTaken(front), Flat(b));
      CutMore(front, b);
      assert bs == front + [b] && b in [b];
    }
  }

  /** What the file and the batch hold together: the kept part of what was erased, and the batch still whole. */
  lemma FileAndBatch(l: Log)
    requires FileConserved(l)
    ensures l.file + Unwritten(l) == AllKept(Erased(l)) + (if l.phase == Swapped then Flat(l.batch) else "")
    ensures AllTaken(l.taken) == AllTaken(Erased(l)) + (if l.phase == Swapped then Flat(l.batch) else "")
  {
    if l.phase.Writing? {
      WrittenOut(AllKept(l.taken[..|l.taken| - 1]), l.batch, l.phase.written);
    }
  }

  lemma SameFront(a: string, b: string, more: string, rest: string, last: string)
    requires |a| <= |b|
    ensures a + more + rest + last == b + more + rest + last <==> a == b
  {
    Assoc(a, more, rest);
    Assoc(a, more + rest, last);
    Assoc(b, more, rest);
    Assoc(b, more + rest, last);
    SameParts(a, more + rest + last, b, more + rest + last);
  }

  /** In every interleaving: everything accepted is still there, in order, if and only if no buffer with text in it was
      erased. */
  lemma NothingLost(evs: seq<Event>)
    ensures Whole(Run(evs), Accepted(evs)) <==> CutNothing(Erased(Run(evs)))
  {
    var l := Run(evs);
    var kept, taken := AllKept(Erased(l)), AllTaken(Erased(l));
    var present := if l.phase == Swapped then Flat(l.batch) else "";
    Conservation(evs);
    FileAndBatch(l);
    KeptAll(Erased(l));
    SameFront(kept, taken, present, Flat(l.queued), l.current);
  }

  /** A batch larger than 25 buffers puts exactly its first two into the file. */
  lemma LargeBatch(evs: seq<Event>)
    requires var l := Run(evs); l.phase == Top && l.taken != [] && |l.taken[|l.taken| - 1]| > 25
    ensures var l := Run(evs);
      var n := |l.taken| - 1;
      l.file == AllKept(l.taken[..n]) + (l.taken[n][0] + l.taken[n][1])
  {
    var l := Run(evs);
    Conservation(evs);
    var b := l.taken[|l.taken| - 1];
    FlatTwo(b[0], b[1]);
    assert b[..2] == [b[0]] + [b[1]];
  }

  /** How many messages have come since the worker last took the queue. */
  function SinceSwap(evs: seq<Event>): nat
    decreases |evs|
  {
    if evs == [] then 0
    else
      var before := evs[..|evs| - 1];
      match evs[|evs| - 1]
      case Message(_) => SinceSwap(before) + 1
      case Worker => if Run(before).phase == Top then 0 else SinceSwap(before)
  }

  /** At most 25 messages come between two swaps. */
  predicate FewMessages(evs: seq<Event>)
    decreases |evs|
  {
    evs != [] ==> FewMessages(evs[..|evs| - 1]) && SinceSwap(evs[..|evs| - 1]) <= 25
  }

  /** Each message queues at most one buffer, and the first one to come queues one only if it is lost itself. */
  predicate Paced(l: Log, n: nat) {
    && |l.queued| <= n && (|l.queued| == n ==> Flat(l.queued) == "" && l.current == "")
    && CutNothing(l.taken)
  }

  lemma WritePaced(l: Log, n: nat, msg: string)
    requires Paced(l, n)
    ensures Paced(WriteLog(l, msg), n + 1)
  {
    FlatSnoc(l.queued, l.current);
  }

  lemma BatchPaced(l: Log, n: nat)
    requires Paced(l, n) && n <= 25
    ensures CutNothing([l.queued + [l.current]])
  {
    var b := l.queued + [l.current];
    if |b| > MOST_BUFFERS {
      FlatSnoc(l.queued, l.current);
      FlatSplit(b, 2);
    }
  }

  lemma WorkPaced(l: Log, n: nat)
    requires Paced(l, n) && n <= 25
    ensures Paced(Work(l), if l.phase == Top then 0 else n)
  {
    if l.phase == Top {
      BatchPaced(l, n);
      assert l.queued + [l.current] in [l.queued + [l.current]];
    }
  }

  lemma {:induction false} AlwaysPaced(evs: seq<Event>)
    requires FewMessages(evs)
    ensures Paced(Run(evs), SinceSwap(evs))
    decreases |evs|
  {
    if evs != [] {
      var before := evs[..|evs| - 1];
      AlwaysPaced(before);
      match evs[|evs| - 1]
      case Message(msg) => WritePaced(Run(before), SinceSwap(before), msg);
      case Worker => WorkPaced(Run(before), SinceSwap(before));
    }
  }

  /** With at most 25 messages between two swaps nothing accepted is ever lost. */
  lemma FewMessagesLoseNothing(evs: seq<Event>)
    requires FewMessages(evs)
    ensures Whole(Run(evs), Accepted(evs))
  {
    AlwaysPaced(evs);
    NothingLost(evs);
  }

  // Losing

  function Messages(msg: string, n: nat): (evs: seq<Event>)
    ensures |evs| == n
  {
    seq(n, i => Message(msg))
  }

  function Copies(text: string, n: nat): (ts: seq<string>)
    ensures |ts| == n
  {
    seq(n, i => text)
  }

  lemma RunMore(evs: seq<Event>, ev: Event)
    ensures Run(evs + [ev]) == Step(Run(evs), ev) && Accepted(evs + [ev]) == Accepted(evs) + Bytes(ev)
  {
    assert (evs + [ev])[..|evs|] == evs;
  }

  /** `n` messages of half a buffer or more: each fills a buffer of its own. */
  function Filled(msg: string, n: nat): Log
    requires n > 0
  {
    START.(current := msg, queued := Copies(msg, n - 1), hasNext := n == 1)
  }

  lemma FilledMore(msg: string, n: nat)
    requires |msg| < BUFFER_SIZE <= 2 * |msg|
    ensures n > 0 ==> WriteLog(Filled(msg, n), msg) == Filled(msg, n + 1)
    ensures WriteLog(START, msg) == Filled(msg, 1)
  {
    assert "" + msg == msg && Copies(msg, 0) == [];
    assert n > 0 ==> Copies(msg, n) == Copies(msg, n - 1) + [msg];
  }

  lemma {:induction false} FilledBuffers(msg: string, n: nat)
    requires |msg| < BUFFER_SIZE <= 2 * |msg| && n > 0
    ensures Run(Messages(msg, n)) == Filled(msg, n) && Accepted(Messages(msg, n)) == Flat(Copies(msg, n))
    decreases n
  {
    assert Messages(msg, n) == Messages(msg, n - 1) + [Message(msg)];
    assert Copies(msg, n) == Copies(msg, n - 1) + [msg];
    RunMore(Messages(msg, n - 1), Message(msg));
    FlatSnoc(Copies(msg, n - 1), msg);
    FilledMore(msg, n - 1);
    if n > 1 {
      FilledBuffers(msg, n - 1);
    } else {
      assert Messages(msg, 0) == [] && Copies(msg, 0) == [];
    }
  }

  lemma {:induction false} CopiesLonger(msg: string, n: nat)
    requires n >= 2 && msg != ""
    ensures |Flat(Copies(msg, n))| >= n * |msg|
    decreases n
  {
    assert Copies(msg, n)[..n - 1] == Copies(msg, n - 1);
    if n == 2 {
      FlatTwo(msg, msg);
      assert Copies(msg, 2) == [msg] + [msg];
    } else {
      CopiesLonger(msg, n - 1);
    }
  }

  /** What is left of a large batch that the worker has taken and cut. */
  lemma TakenAndCut(l: Log)
    requires l.phase == Top && l.file == "" && |l.queued| >= 25
    ensures var m := Work(Work(l));
      && m.file == "" && m.queued == [] && m.current == ""
      && Unwritten(m) == Flat((l.queued + [l.current])[..2])
  {
    var b := (l.queued + [l.current])[..2];
    assert b[0..] == b;
  }

  /** When the worker gets to them only now, of more than 25 such messages the first two are left. */
  lemma ManyMessagesLost(msg: string, n: nat)
    requires |msg| < BUFFER_SIZE <= 2 * |msg| && n > 25
    ensures var evs := Messages(msg, n) + [Worker] + [Worker];
      && Accepted(evs) == Flat(Copies(msg, n)) && |Accepted(evs)| >= n * |msg|
      && Whole(Run(evs), msg + msg)
  {
    var evs := Messages(msg, n);
    FilledBuffers(msg, n);
    RunMore(evs, Worker);
    RunMore(evs + [Worker], Worker);
    CopiesLonger(msg, n);
    NoneAdded(Flat(Copies(msg, n)));
    CutToTwo(Run(evs), msg, n);
  }

  lemma NoneAdded(s: string)
    ensures s + "" == s && "" + s == s
  {
  }

  lemma CutToTwo(l: Log, msg: string, n: nat)
    requires l.phase == Top && l.file == "" && n > 25
    requires l.queued == Copies(msg, n - 1) && l.current == msg
    ensures Whole(Work(Work(l)), msg + msg)
  {
    TakenAndCut(l);
    FlatTwo(msg, msg);
    assert (l.queued + [l.current])[..2] == [msg] + [msg];
    NoneAdded(msg + msg);
  }
}