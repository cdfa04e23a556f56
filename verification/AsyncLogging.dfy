/** The asynchronous logger as an object: buffers change hands between the producers and the worker. */
module AsyncLoggings {
  import opened Folding
  import opened LogModel

  datatype Fold = BufferFold | QueueFold  // the predicates this module keeps folded

  /** What a buffer is used for; the queue of one round is the batch of the next. */
  datatype Role = Current | Next | Queued(round: nat, index: nat) | Spare1 | Spare2

  class FixedBuffer {
    var data: string   // the bytes inside the object, always BUFFER_SIZE of them
    var position: nat  // where the next byte goes
    var size: nat
    ghost var text: string  // what has been written since the last reset
    ghost var role: Role

    ghost predicate Valid()
      reads this`data, this`position, this`size, this`text
    {
      forall u {:trigger Open(u)} :: u == BufferFold ==>
        |data| == BUFFER_SIZE && position == size <= BUFFER_SIZE && text == data[..size]
    }

    constructor (ghost role: Role)
      ensures Valid() && text == "" && this.role == role
    {
      this.role := role;
      data := seq(BUFFER_SIZE, _ => '\0');
      position, size, text := 0, 0, "";
      new;
      assert Open(BufferFold);
    }

    function Capacity(): (n: int)
      requires Valid()
      reads this`data, this`position, this`size, this`text
      ensures n == BUFFER_SIZE - |text|
    {
      assert Open(BufferFold);
      BUFFER_SIZE - size
    }

    /** Copies the message behind the text if a byte stays free behind it. */
    method Write(msg: string)
      requires Valid()
      modifies this`data, this`position, this`size, this`text
      ensures Valid() && text == Append(old(text), msg)
    {
      assert Open(BufferFold);
      if Capacity() > |msg| {
        data := data[..position] + msg + data[position + |msg|..];
        Add(|msg|, msg);
      }
    }

    method Add(n: nat, ghost msg: string)
      requires |data| == BUFFER_SIZE && position == size && size + n <= BUFFER_SIZE
      requires text == data[..size] && msg == data[size..size + n]
      modifies this`position, this`size, this`text
      ensures Valid() && text == old(text) + msg
    {
      position := position + n;
      size := size + n;
      text := text + msg;
      assert Open(BufferFold);
    }

    method Reset()
      requires Valid()
      modifies this`position, this`size, this`text
      ensures Valid() && text == ""
    {
      assert Open(BufferFold);
      position := 0;
      size := 0;
      text := "";
      assert Open(BufferFold);
    }
  }

  ghost function Maybe(b: FixedBuffer?): set<FixedBuffer> {
    if b == null then {} else {b}
  }

  ghost predicate Plays(b: FixedBuffer, role: Role)
    reads b
  {
    b.role == role && b.Valid()
  }

  ghost predicate EmptySpare(b: FixedBuffer?, role: Role)
    reads b
  {
    b != null ==> Plays(b, role) && b.text == ""
  }

  /** The buffers of the queue of a round, in order, and their texts (kept folded). */
  ghost predicate Queue(bs: seq<FixedBuffer>, round: nat, ts: seq<string>)
    reads bs
  {
    forall u {:trigger Open(u)} :: u == QueueFold ==>
      && |ts| == |bs|
      && forall i {:trigger bs[i]} :: 0 <= i < |bs| ==> Plays(bs[i], Queued(round, i)) && bs[i].text == ts[i]
  }

  lemma NotQueued(b: FixedBuffer, bs: seq<FixedBuffer>, round: nat, ts: seq<string>)
    requires Queue(bs, round, ts) && (b.role.Queued? ==> b.role.round != round)
    ensures b !in bs
  {
    assert Open(QueueFold);
  }

  class AsyncLogging {
    // shared, behind the lock
    var currentBuffer: FixedBuffer
    var nextBuffer: FixedBuffer?
    var buffers: seq<FixedBuffer>
    // the worker's own
    var newBuffer1: FixedBuffer?
    var newBuffer2: FixedBuffer?
    var batch: seq<FixedBuffer>
    var phase: Phase
    var file: string
    ghost var round: nat
    ghost var queued: seq<string>   // the texts of `buffers`
    ghost var batched: seq<string>  // the texts of `batch`
    ghost var taken: seq<seq<string>>

    /** Every buffer has one role, so it is in one place only; the unused ones are empty. */
    ghost predicate Owned()
      reads this, currentBuffer, nextBuffer, buffers, newBuffer1, newBuffer2, batch
    {
      Plays(currentBuffer, Current) && OthersOwned()
    }

    ghost predicate OthersOwned()
      reads this, nextBuffer, buffers, newBuffer1, newBuffer2, batch
    {
      && EmptySpare(nextBuffer, Next)
      && EmptySpare(newBuffer1, Spare1) && EmptySpare(newBuffer2, Spare2)
      && Queue(buffers, round + 1, queued) && Queue(batch, round, batched)
    }

    ghost function View(): Log
      reads this, currentBuffer
    {
      Log(currentBuffer.text, nextBuffer != null, queued, phase, batched,
          newBuffer1 != null, newBuffer2 != null, file, taken)
    }

    ghost predicate Valid()
      reads this, currentBuffer, nextBuffer, buffers, newBuffer1, newBuffer2, batch
    {
      Owned() && Inv(View())
    }

    /** In every reachable state no buffer is in two places, and no queue holds one twice. */
    lemma NoSharing()
      requires Valid()
      ensures currentBuffer != nextBuffer && currentBuffer != newBuffer1 && currentBuffer != newBuffer2
      ensures nextBuffer != null ==> nextBuffer != newBuffer1 && nextBuffer != newBuffer2
      ensures newBuffer1 != null ==> newBuffer1 != newBuffer2
      ensures forall b :: b in Maybe(currentBuffer) + Maybe(nextBuffer) + Maybe(newBuffer1) + Maybe(newBuffer2) ==>
        b !in buffers && b !in batch
      ensures forall i, j :: 0 <= i < j < |buffers| ==> buffers[i] != buffers[j]
      ensures forall i, j :: 0 <= i < j < |batch| ==> batch[i] != batch[j]
      ensures forall b :: b in buffers ==> b !in batch
    {
      assert Open(QueueFold);
    }

    constructor ()
      ensures Valid() && View() == START
      ensures fresh(currentBuffer) && fresh(nextBuffer) && fresh(newBuffer1) && fresh(newBuffer2)
    {
      var b0 := new FixedBuffer(Current);
      var b1 := new FixedBuffer(Next);
      var b2 := new FixedBuffer(Spare1);
      var b3 := new FixedBuffer(Spare2);
      currentBuffer, nextBuffer, newBuffer1, newBuffer2 := b0, b1, b2, b3;
      buffers, batch, taken, round := [], [], [], 0;
      queued, batched := [], [];
      phase, file := Top, "";
    }

    /** Appends to the current buffer. */
    method AppendCurrent(msg: string)
      requires Owned()
      modifies currentBuffer`data, currentBuffer`position, currentBuffer`size, currentBuffer`text
      ensures Owned() && currentBuffer.text == Append(old(currentBuffer.text), msg)
    {
      NotQueued(currentBuffer, buffers, round + 1, queued);
      NotQueued(currentBuffer, batch, round, batched);
      currentBuffer.Write(msg);
    }

    /** Queues the current buffer. */
    method QueueCurrent()
      requires Owned()
      modifies this`buffers, this`queued, currentBuffer`role
      ensures OthersOwned() && queued == old(queued) + [currentBuffer.text]
    {
      NotQueued(currentBuffer, buffers, round + 1, queued);
      NotQueued(currentBuffer, batch, round, batched);
      Enqueue(currentBuffer, buffers, round + 1, queued);
      buffers := buffers + [currentBuffer];
      queued := queued + [currentBuffer.text];
    }

    /** Puts an empty buffer in place of the queued one. */
    method ReplaceCurrent()
      requires OthersOwned()
      modifies this`currentBuffer, this`nextBuffer, Maybe(nextBuffer)`role
      ensures Owned() && currentBuffer.text == "" && nextBuffer == null
      ensures currentBuffer in old(Maybe(nextBuffer)) || fresh(currentBuffer)
    {
      if nextBuffer != null {
        NotQueued(nextBuffer, buffers, round + 1, queued);
        NotQueued(nextBuffer, batch, round, batched);
        currentBuffer := nextBuffer;
        nextBuffer := null;
        currentBuffer.role := Current;
      } else {
        currentBuffer := new FixedBuffer(Current);
      }
    }

    /** Queues the full current buffer for the worker and goes on with an empty one. */
    method Rotate()
      requires Owned()
      modifies this`currentBuffer, this`nextBuffer, this`buffers, this`queued
      modifies currentBuffer`role, Maybe(nextBuffer)`role
      ensures Owned() && currentBuffer.text == "" && nextBuffer == null
      ensures queued == old(queued + [currentBuffer.text])
      ensures currentBuffer in old(Maybe(nextBuffer)) || fresh(currentBuffer)
    {
      QueueCurrent();
      ReplaceCurrent();
    }

    /** A producer appends a message, all under the lock. */
    method WriteLog(msg: string)
      requires Valid()
      modifies this`currentBuffer, this`nextBuffer, this`buffers, this`queued, currentBuffer, Maybe(nextBuffer)
      ensures Valid() && View() == LogModel.WriteLog(old(View()), msg)
    {
      ghost var v := View();
      StepKeepsInv(v, Message(msg));
      if currentBuffer.Capacity() > |msg| {
        AppendCurrent(msg);
        assert View() == v.(current := v.current + msg);
      } else {
        Rotate();
        AppendCurrent(msg);
        assert View() == v.(current := Append("", msg), queued := v.queued + [v.current], hasNext := false);
      }
    }

    /** What the worker asserts at the top of its loop. */
    lemma TopOfLoop()
      requires Valid() && phase == Top
      ensures newBuffer1 != null && newBuffer1.size == 0 && newBuffer2 != null && newBuffer2.size == 0 && batch == []
    {
      assert Open(BufferFold);
      QueueLength(batch, round, batched);
    }

    /** The worker takes the queue and the current buffer, and leaves its spares in their place. */
    method SwapBuffers()
      requires Valid() && phase == Top
      modifies this, currentBuffer`role, Maybe(newBuffer1)`role, Maybe(newBuffer2)`role
      ensures Valid() && View() == Swap(old(View()))
    {
      ghost var v := View();
      StepKeepsInv(v, Worker);
      TopOfLoop();
      Exchange();
      taken := taken + [batched];
      phase := Swapped;
      assert View() == Swap(v);
    }

    method Exchange()
      requires Owned() && batch == [] && newBuffer1 != null && newBuffer2 != null
      modifies this`currentBuffer, this`nextBuffer, this`newBuffer1, this`newBuffer2, this`buffers, this`batch,
               this`round, this`queued, this`batched, currentBuffer`role, newBuffer1`role, newBuffer2`role
      ensures Owned() && currentBuffer.text == "" && queued == [] && batched == old(queued + [currentBuffer.text])
      ensures newBuffer1 == null && nextBuffer != null && (newBuffer2 != null <==> old(nextBuffer) != null)
    {
      QueueCurrent();
      TakeSpares();
    }

    method TakeSpares()
      requires OthersOwned() && batch == [] && newBuffer1 != null && newBuffer2 != null
      modifies this`currentBuffer, this`nextBuffer, this`newBuffer1, this`newBuffer2, this`buffers, this`batch,
               this`round, this`queued, this`batched, newBuffer1`role, newBuffer2`role
      ensures Owned() && currentBuffer.text == "" && queued == [] && batched == old(queued)
      ensures newBuffer1 == null && nextBuffer != null && (newBuffer2 != null <==> old(nextBuffer) != null)
    {
      NotQueued(newBuffer1, buffers, round + 1, queued);
      NotQueued(newBuffer2, buffers, round + 1, queued);
      currentBuffer := newBuffer1;
      newBuffer1 := null;
      currentBuffer.role := Current;
      batch, buffers := buffers, [];
      batched, queued, round := queued, [], round + 1;
      if nextBuffer == null {
        nextBuffer := newBuffer2;
        newBuffer2 := null;
        nextBuffer.role := Next;
      }
      NewQueue(round + 1);
    }

    /** A batch that is too large loses all but its first two buffers. */
    method EraseBatch()
      requires Valid() && phase == Swapped
      modifies this`batch, this`batched, this`phase
      ensures Valid() && View() == Erase(old(View()))
    {
      ghost var v := View();
      StepKeepsInv(v, Worker);
      QueueLength(batch, round, batched);
      if |batch| > 25 {
        QueuePrefix(batch, round, batched, 2);
        batch := batch[..2];
        batched := batched[..2];
      }
      phase := Writing(0);
      assert View() == Erase(v);
    }

    /** Writes one buffer of the batch to the file. */
    method WriteBuffer()
      requires Valid() && phase.Writing? && phase.written < |batch|
      modifies this`file, this`phase
      ensures Valid() && old(phase.written < |batched|) && View() == WriteOne(old(View()))
    {
      ghost var v := View();
      StepKeepsInv(v, Worker);
      var i := phase.written;
      QueueLength(batch, round, batched);
      QueueAt(batch, round, batched, i);
      file := file + batch[i].data[..batch[i].size];
      phase := Writing(i + 1);
      assert View() == WriteOne(v);
    }

    /** Takes the spares back out of the batch and drops the rest of it. */
    method RestockSpares()
      requires Valid() && phase.Writing? && phase.written == |batch|
      modifies this`newBuffer1, this`newBuffer2, this`batch, this`batched, this`phase, batch
      ensures Valid() && View() == Restock(old(View()))
    {
      ghost var v := View();
      StepKeepsInv(v, Worker);
      EndRound();
      phase := Top;
      assert View() == Restock(v);
    }

    /** One step of the worker, wherever it is in its loop. */
    method WorkerStep()
      requires Valid()
      modifies this, currentBuffer`role, Maybe(newBuffer1)`role, Maybe(newBuffer2)`role, batch
      ensures Valid() && View() == Work(old(View()))
    {
      QueueLength(batch, round, batched);
      match phase
      case Top => SwapBuffers();
      case Swapped => EraseBatch();
      case Writing(i) =>
        if i < |batch| {
          WriteBuffer();
        } else {
          RestockSpares();
        }
    }

    method EndRound()
      requires Owned() && |batched| >= 1 && newBuffer1 == null && (newBuffer2 == null ==> |batched| >= 2)
      modifies this`newBuffer1, this`newBuffer2, this`batch, this`batched, batch
      ensures Owned() && newBuffer1 != null && newBuffer2 != null && batched == []
      ensures currentBuffer.text == old(currentBuffer.text)
    {
      RefillSpares();
      batch, batched := [], [];
      NewQueue(round);
    }

    /** The batch has a buffer for each spare that is missing. */
    method RefillSpares()
      requires Owned() && |batched| >= 1 && newBuffer1 == null && (newBuffer2 == null ==> |batched| >= 2)
      modifies this`newBuffer1, this`newBuffer2, this`batch, this`batched, batch
      ensures Owned() && newBuffer1 != null && newBuffer2 != null
      ensures currentBuffer.text == old(currentBuffer.text)
    {
      QueueLength(batch, round, batched);
      var b := LastOfBatch(Spare1);
      newBuffer1 := b;
      if newBuffer2 == null {
        b := LastOfBatch(Spare2);
        newBuffer2 := b;
      }
    }

    method LastOfBatch(ghost role: Role) returns (b: FixedBuffer)
      requires Owned() && batch != [] && !role.Queued?
      modifies this`batch, this`batched, batch
      ensures Owned() && old(|batched|) > 0
      ensures batch == old(batch[..|batch| - 1]) && batched == old(batched[..|batched| - 1])
      ensures Plays(b, role) && b.text == "" && b == old(batch[|batch| - 1])
      ensures b != newBuffer1 && b != newBuffer2 && currentBuffer.text == old(currentBuffer.text)
    {
      QueueLength(batch, round, batched);
      b := batch[|batch| - 1];
      QueueAt(batch, round, batched, |batch| - 1);
      QueuePrefix(batch, round, batched, |batch| - 1);
      NotQueued(b, buffers, round + 1, queued);
      batch, batched := batch[..|batch| - 1], batched[..|batched| - 1];
      b.Reset();
      b.role := role;
    }
  }

  /** `b` joins the end of a queue. */
  ghost method Enqueue(b: FixedBuffer, bs: seq<FixedBuffer>, round: nat, ts: seq<string>)
    requires Queue(bs, round, ts) && b.Valid() && b !in bs
    modifies b`role
    ensures b.role == Queued(round, |bs|) && Queue(bs + [b], round, ts + [b.text]) && Queue(bs, round, ts)
  {
    assert Open(QueueFold);
    b.role := Queued(round, |bs|);
  }

  lemma NewQueue(round: nat)
    ensures Queue([], round, [])
  {
  }

  lemma QueueLength(bs: seq<FixedBuffer>, round: nat, ts: seq<string>)
    requires Queue(bs, round, ts)
    ensures |ts| == |bs|
  {
    assert Open(QueueFold);
  }

  lemma QueueAt(bs: seq<FixedBuffer>, round: nat, ts: seq<string>, i: nat)
    requires Queue(bs, round, ts) && i < |bs|
    ensures |ts| == |bs| && Plays(bs[i], Queued(round, i)) && bs[i].text == ts[i]
    ensures |bs[i].data| >= bs[i].size && bs[i].data[..bs[i].size] == ts[i]
  {
    assert Open(QueueFold) && Open(BufferFold);
  }

  lemma QueuePrefix(bs: seq<FixedBuffer>, round: nat, ts: seq<string>, n: nat)
    requires Queue(bs, round, ts) && n <= |bs|
    ensures |ts| == |bs| && Queue(bs[..n], round, ts[..n])
    ensures n < |bs| ==> bs[n] !in bs[..n]
  {
    assert Open(QueueFold);
  }
}
