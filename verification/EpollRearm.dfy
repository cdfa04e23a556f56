/** How a connection's epoll registration follows its events, and why a one-shot registration is always renewed. */
module EpollRearm {
  datatype Flag = In | Out | Et | OneShot | Hup | Err | Pri | RdHup
  type Mask = set<Flag>

  const DEFAULT_EVENT: Mask := {In, Et, OneShot}

  /** The kernel's entry for one descriptor: what it watches for, and whether a one-shot entry has not fired yet. */
  class Kernel {
    var present: bool
    var mask: Mask
    var armed: bool

    constructor ()
      ensures !present
    {
      present, mask, armed := false, {}, false;
    }

    method Control(mask: Mask)
      modifies this
      ensures present && armed && this.mask == mask
    {
      present, armed, this.mask := true, true, mask;
    }

    method Remove()
      modifies this
      ensures !present
    {
      present, armed := false, false;
    }

    /** epoll_wait may report what is watched for, and errors and hang-ups always. */
    ghost predicate MayReport(revents: Mask)
      reads this
    {
      present && armed && revents != {} && revents <= mask * {In, Out} + {Hup, Err}
    }

    method Report(revents: Mask)
      requires MayReport(revents)
      modifies this`armed
      ensures armed == (OneShot !in mask)
    {
      armed := OneShot !in mask;
    }
  }

  class Channel {
    var events: Mask
    var revents: Mask
    var lastEvents: Mask

    constructor ()
      ensures events == {} && lastEvents == {}
    {
      events, revents, lastEvents := {}, {}, {};
    }

    /** Remembers the events and says whether they are the same as before. */
    method UpdateLastEvents() returns (same: bool)
      modifies this`lastEvents
      ensures same == (old(lastEvents) == events) && lastEvents == events
    {
      same := lastEvents == events;
      lastEvents := events;
    }
  }

  method EpollAdd(channel: Channel, kernel: Kernel)
    modifies channel`lastEvents, kernel
    ensures kernel.present && kernel.armed && kernel.mask == channel.lastEvents == channel.events
  {
    var same := channel.UpdateLastEvents();
    kernel.Control(channel.events);
  }

  /** Tells the kernel about the events unless they are the ones it was told last. */
  method EpollMod(channel: Channel, kernel: Kernel)
    requires kernel.present && kernel.mask == channel.lastEvents
    modifies channel`lastEvents, kernel
    ensures kernel.present && kernel.mask == channel.lastEvents == channel.events
    ensures kernel.armed == (old(kernel.armed) || channel.events != old(channel.lastEvents))
  {
    var same := channel.UpdateLastEvents();
    if !same {
      kernel.Control(channel.events);
    }
  }

  datatype State = Connected | Disconnecting | Disconnected

  /** What one attempt to write comes to: `n` more bytes are taken, and then an error, or not. */
  datatype Write = Write(n: nat, failed: bool)

  /** What one attempt to read and serve a request comes to: the peer has closed or not; an error page, a request still
      incomplete, or a response; what the write then does; whether more input is there. */
  datatype Read = Read(closed: bool, result: Result, write: Write, more: bool)

  /** A response is added to what waits to be written; only the page "echo" takes its place. */
  datatype Result = Fault | Incomplete | Response(text: string, echo: bool)

  const NO_INPUT: Read := Read(false, Incomplete, Write(0, false), false)

  /** What a socket takes of a text, and what it leaves. */
  function Taken(text: string, n: nat): string {
    if n < |text| then text[..n] else text
  }

  function Left(text: string, n: nat): string {
    if n < |text| then text[n..] else ""
  }

  lemma TakenAndLeft(sent: string, text: string, n: nat)
    ensures sent + Taken(text, n) + Left(text, n) == sent + text
  {
    if n < |text| {
      assert text == text[..n] + text[n..];
      assert sent + text[..n] + text[n..] == sent + (text[..n] + text[n..]);
    } else {
      assert sent + text + "" == sent + text;
    }
  }

  /** What an attempt adds to the responses. */
  function TextOf(read: Read): string {
    if read.result.Response? then read.result.text else ""
  }

  /** All responses of a turn, in order. */
  function Texts(turn: seq<Read>): string {
    if turn == [] then "" else TextOf(turn[0]) + Texts(turn[1..])
  }

  predicate Closes(turn: seq<Read>) { exists i :: 0 <= i < |turn| && turn[i].closed }

  predicate Faults(turn: seq<Read>) { exists i :: 0 <= i < |turn| && turn[i].result.Fault? }

  predicate Clean(turn: seq<Read>) { forall i :: 0 <= i < |turn| ==> !turn[i].result.Fault? && !turn[i].write.failed }

  /** The socket takes at least `size` bytes in each attempt. */
  predicate Roomy(turn: seq<Read>, size: nat) { forall i :: 0 <= i < |turn| ==> turn[i].write.n >= size }

  /** A turn that has served `n` attempts and leaves some has a reason to stop behind the last of them. */
  predicate Stops(turn: seq<Read>, n: nat, failed: bool)
    requires n <= |turn|
  {
    n < |turn| ==>
      n > 0 && (failed || turn[n - 1].closed || !turn[n - 1].result.Response? || !turn[n - 1].more)
  }

  lemma TurnOfOne(turn: seq<Read>)
    requires turn != []
    ensures Texts(turn[..1]) == TextOf(turn[0])
    ensures (Closes(turn[..1]) <==> turn[0].closed) && (Faults(turn[..1]) <==> turn[0].result.Fault?)
  {
    assert turn[..1] == [turn[0]] && turn[..1][1..] == [];
  }

  /** From the rest of a turn to the turn, behind a first attempt. */
  lemma TurnOn(turn: seq<Read>, m: nat, failed: bool)
    requires turn != [] && m <= |turn[1..]|
    ensures Texts(turn[..1 + m]) == TextOf(turn[0]) + Texts(turn[1..][..m])
    ensures Closes(turn[..1 + m]) <==> turn[0].closed || Closes(turn[1..][..m])
    ensures Faults(turn[..1 + m]) <==> turn[0].result.Fault? || Faults(turn[1..][..m])
    ensures m > 0 && Stops(turn[1..], m, failed) ==> Stops(turn, 1 + m, failed)
  {
    assert turn[..1 + m] == [turn[0]] + turn[1..][..m];
    assert turn[..1 + m][1..] == turn[1..][..m];
  }

  /** What a read changes, but for the text that waits: `empty` if none does, `asking` if a write event is asked for. */
  datatype Look = Look(state: State, failed: bool, owed: string, dropped: bool, empty: bool, asking: bool)

  /** One attempt, with the write behind it; `again` if the turn goes on with another. */
  ghost predicate Attempted(s: Look, read: Read, again: bool, t: Look) {
    && t.owed == s.owed + (if s.state == Disconnecting then "" else TextOf(read))
    && t.state == (if s.state == Disconnecting || read.closed then Disconnecting else Connected)
    && (again <==> !t.failed && t.state == Connected && read.result.Response? && read.more)
    && (s.state == Connected && read.result.Fault? ==> t.failed)
    && (!read.result.Fault? && !read.write.failed ==> !t.failed)
    && (s.dropped ==> t.dropped)
    && (!t.failed && !t.dropped && !s.asking && (read.write.n >= |t.owed| || (s.empty && read == NO_INPUT)) ==>
          t.empty && !t.asking)
  }

  /** A turn that serves the first `n` attempts: their responses are added; the peer has closed if one of them says so;
      the turn stops for a reason; a fault fails the connection, and nothing but a fault or a failed write does; and if
      the socket takes everything at once, nothing is left and no write event asked for. */
  ghost predicate Turn(s: Look, inputs: seq<Read>, n: nat, t: Look) {
    && n <= |inputs| && t.owed == s.owed + Texts(inputs[..n])
    && t.state == (if s.state == Disconnecting || Closes(inputs[..n]) then Disconnecting else Connected)
    && (if s.state == Disconnecting then n == 0 else Stops(inputs, n, t.failed))
    && (Faults(inputs[..n]) ==> t.failed) && (Clean(inputs) ==> !t.failed)
    && (s.dropped ==> t.dropped)
    && (!t.failed && !t.dropped && !s.asking && (s.empty || inputs != []) && Roomy(inputs, |t.owed|) ==>
          t.empty && !t.asking)
  }

  function First(inputs: seq<Read>): Read { if inputs == [] then NO_INPUT else inputs[0] }

  lemma LastAttempt(s: Look, inputs: seq<Read>, t: Look)
    requires s.state != Disconnected && Attempted(s, First(inputs), false, t)
    ensures Turn(s, inputs, if inputs == [] || s.state == Disconnecting then 0 else 1, t)
  {
    if inputs != [] {
      TurnOfOne(inputs);
    }
  }

  lemma CleanRest(turn: seq<Read>, size: nat)
    requires turn != []
    ensures Clean(turn) ==> Clean(turn[1..])
    ensures Roomy(turn, size) ==> Roomy(turn[1..], size)
  {
  }

  lemma OwedOn(owed: string, turn: seq<Read>, n: nat)
    requires turn != [] && n <= |turn[1..]|
    ensures owed + TextOf(turn[0]) + Texts(turn[1..][..n]) == owed + Texts(turn[..1 + n])
  {
    TurnOn(turn, n, false);
  }

  lemma NextAttempt(s: Look, m: Look, inputs: seq<Read>, n: nat, t: Look)
    requires s.state != Disconnected && Attempted(s, First(inputs), true, m)
    requires inputs != [] && Turn(m, inputs[1..], n, t)
    ensures Turn(s, inputs, 1 + n, t)
  {
    OwedOn(s.owed, inputs, n);
    TurnOn(inputs, n, t.failed);
    CleanRest(inputs, |t.owed|);
  }

  /** The channel does nothing about a hang-up without input, or an error. */
  predicate Ignored(revents: Mask) { (Hup in revents && In !in revents) || Err in revents }

  class HttpConnection {
    const channel: Channel
    const kernel: Kernel
    var connectionState: State
    var isError: bool
    var writeBuffer: string
    ghost var updated: bool  // the update handler has run while the connection was open
    ghost var sent: string   // what the socket has taken of responses
    ghost var owed: string   // all responses built
    ghost var dropped: bool  // one has taken the place of what still waited

    /** The channel's last events are the kernel's mask; an open connection that has been updated is armed, for writing
        whenever it has something to write; one that has not been updated yet has nothing to write. The kernel has let
        go of a connection that is over, and only of that; a failed one is over. */
    ghost predicate Valid()
      reads this, channel, kernel
    {
      && (kernel.present ==> channel.lastEvents == kernel.mask)
      && (kernel.present <==> connectionState != Disconnected) && (isError ==> connectionState == Disconnected)
      && (Open() && updated ==>
            && kernel.armed && (kernel.mask == {In, Et} || kernel.mask == {Out, Et})
            && (writeBuffer != "" ==> kernel.mask == {Out, Et}))
      && (Open() && !updated ==> writeBuffer == "" && kernel.mask == DEFAULT_EVENT)
      && Accounted()
    }

    ghost predicate Open()
      reads this
    {
      connectionState == Connected && !isError
    }

    /** As long as the page "echo" has not taken the place of something waiting: what the socket has taken and what
        waits are all responses in order, and after an error the socket has taken a front part of them. */
    ghost predicate Accounted()
      reads this
    {
      !dropped ==> if isError then sent <= owed else sent + writeBuffer == owed
    }

    constructor ()
      ensures Valid() && Open() && !updated && kernel.armed && fresh(channel) && fresh(kernel)
      ensures sent == owed == writeBuffer == "" && !dropped
    {
      channel := new Channel();
      kernel := new Kernel();
      connectionState, isError, writeBuffer, updated := Connected, false, "", false;
      sent, owed, dropped := "", "", false;
      new;
      channel.events := DEFAULT_EVENT;
      EpollAdd(channel, kernel);
    }

    /** Within a turn: whatever waits to be written is asked for. */
    ghost predicate Asked()
      reads this, channel
    {
      && channel.events <= {In, Out} && Accounted()
      && (!isError && connectionState != Disconnected && writeBuffer != "" ==> Out in channel.events)
    }

    /** Writes what waits: the socket takes the front of it, the rest stays and is asked for. */
    method HandleWrite(write: Write)
      requires channel.events <= {In, Out} && Accounted()
      modifies this`isError, this`writeBuffer, this`sent, channel`events
      ensures Asked()
      ensures old(isError || connectionState == Disconnected) ==>
        isError == old(isError) && writeBuffer == old(writeBuffer) && sent == old(sent)
        && channel.events == old(channel.events)
      ensures old(!isError && connectionState != Disconnected) ==>
        && isError == write.failed && sent == old(sent) + Taken(old(writeBuffer), write.n)
        && writeBuffer == (if write.failed then old(writeBuffer) else Left(old(writeBuffer), write.n))
        && channel.events ==
           (if write.failed then {} else old(channel.events)) + (if writeBuffer != "" then {Out} else {})
    {
      if !isError && connectionState != Disconnected {
        TakenAndLeft(sent, writeBuffer, write.n);
        sent := sent + Taken(writeBuffer, write.n);
        if write.failed {
          channel.events := {};
          isError := true;
        } else {
          writeBuffer := Left(writeBuffer, write.n);
        }
        if |writeBuffer| > 0 {
          channel.events := channel.events + {Out};
        }
      }
    }

    /** The first part of a read: input is read, and a request served that is complete. */
    method ServeRequest(read: Read) returns (finished: bool)
      requires Accounted()
      modifies this`isError, this`writeBuffer, this`connectionState, this`owed, this`dropped
      ensures Accounted()
      ensures old(connectionState) == Disconnecting ==>
        !finished && connectionState == Disconnecting && isError == old(isError) && writeBuffer == old(writeBuffer)
        && owed == old(owed) && dropped == old(dropped)
      ensures old(connectionState) != Disconnecting ==>
        && connectionState == (if read.closed then Disconnecting else old(connectionState))
        && (finished <==> read.result.Response?) && (isError <==> old(isError) || read.result.Fault?)
        && match read.result
           case Fault => writeBuffer == "" && owed == old(owed) && dropped == old(dropped)
           case Incomplete => writeBuffer == old(writeBuffer) && owed == old(owed) && dropped == old(dropped)
           case Response(text, echo) =>
             && writeBuffer == (if echo then text else old(writeBuffer) + text) && owed == old(owed) + text
             && (dropped <==> old(dropped) || (echo && old(writeBuffer) != ""))
    {
      finished := false;
      if connectionState == Disconnecting {
        return;
      }
      if read.closed {
        connectionState := Disconnecting;
      }
      match read.result {
        case Fault =>
          isError, writeBuffer := true, "";
        case Incomplete =>
        case Response(text, echo) =>
          assert sent + (writeBuffer + text) == sent + writeBuffer + text;
          dropped, owed := dropped || (echo && writeBuffer != ""), owed + text;
          writeBuffer, finished := if echo then text else writeBuffer + text, true;
      }
    }

    ghost function View(): Look
      reads this, channel
    {
      Look(connectionState, isError, owed, dropped, writeBuffer == "", Out in channel.events)
    }

    /** One attempt of a read event, with the write behind it; says whether the turn goes on with another. */
    method Attempt(read: Read) returns (again: bool)
      requires channel.events <= {In, Out} && Accounted() && !isError && connectionState != Disconnected
      modifies this`isError, this`writeBuffer, this`connectionState, this`sent, this`owed, this`dropped, channel`events
      ensures Asked() && Attempted(old(View()), read, again, View())
    {
      again := false;
      var finished := ServeRequest(read);
      if !isError {
        if |writeBuffer| > 0 {
          HandleWrite(read.write);
        }
        if !isError && finished {
          again := read.more && connectionState != Disconnecting;
        } else if !isError && connectionState != Disconnected {
          channel.events := channel.events + {In};
        }
      }
    }

    /** One read event. `inputs` is what the attempts of this turn come to; behind them there is no more input. The
        first `n` are served: the loop goes on behind a response as long as more is there and the peer has not
        closed. */
    method HandleRead(inputs: seq<Read>) returns (ghost n: nat)
      requires channel.events <= {In, Out} && Accounted() && !isError && connectionState != Disconnected
      modifies this`isError, this`writeBuffer, this`connectionState, this`sent, this`owed, this`dropped, channel`events
      ensures Asked() && Turn(old(View()), inputs, n, View())
      decreases |inputs|
    {
      ghost var before := View();
      n := if inputs == [] || connectionState == Disconnecting then 0 else 1;
      var again := Attempt(First(inputs));
      if again {
        ghost var between := View();
        n := HandleRead(inputs[1..]);
        NextAttempt(before, between, inputs, n, View());
        n := 1 + n;
      } else {
        LastAttempt(before, inputs, View());
      }
    }

    /** Settles on one event to wait for and tells epoll; a connection that has failed, or whose peer has closed with
        nothing left to write, is deleted. */
    method HandleUpdate()
      requires Asked() && connectionState != Disconnected && kernel.present && channel.lastEvents == kernel.mask
      requires Open() && updated ==> kernel.armed && OneShot !in kernel.mask
      requires Open() && !updated ==> kernel.mask == DEFAULT_EVENT
      modifies this`connectionState, this`updated, channel`events, channel`lastEvents, kernel
      ensures Valid()
      ensures old(Open()) ==>
        && connectionState == Connected && updated && kernel.present && kernel.armed
        && kernel.mask == (if Out in old(channel.events) then {Out, Et} else {In, Et})
      ensures old(!isError && connectionState == Disconnecting && Out in channel.events) ==>
        && connectionState == Disconnecting && updated == old(updated)
        && kernel.present && kernel.mask == old(kernel.mask) && kernel.armed == old(kernel.armed)
      ensures old(isError || (connectionState == Disconnecting && Out !in channel.events)) ==>
        connectionState == Disconnected && !kernel.present
    {
      if !isError && connectionState == Connected {
        if channel.events != {} {
          if In in channel.events && Out in channel.events {
            channel.events := {Out};
          }
          channel.events := channel.events + {Et};
        } else {
          channel.events := channel.events + {In, Et};
        }
        EpollMod(channel, kernel);
        updated := true;
      } else if !isError && connectionState == Disconnecting && Out in channel.events {
        channel.events := {Out, Et};
      } else {
        Delete();
      }
    }

    method Delete()
      modifies this`connectionState, kernel
      ensures connectionState == Disconnected && !kernel.present
    {
      connectionState := Disconnected;
      kernel.Remove();
    }

    /** What a channel does about an event that is not ignored: it reads, writes and tells epoll, in this order. */
    method Dispatch(revents: Mask, inputs: seq<Read>, write: Write) returns (ghost n: nat)
      requires channel.events == {} && !Ignored(revents) && revents <= {In, Out, Hup} && revents != {}
      requires Accounted() && !isError && connectionState != Disconnected
      requires kernel.present && channel.lastEvents == kernel.mask
      requires Open() && updated ==> OneShot !in kernel.mask && kernel.armed
      requires Open() && !updated ==> kernel.mask == DEFAULT_EVENT
      modifies this, channel, kernel
      ensures Valid() && n <= |inputs| && owed == old(owed) + Texts(inputs[..n])
      ensures Open() ==> updated
      ensures In !in revents ==> n == 0
      ensures !isError ==> Followed(old(connectionState), inputs[..n])
      ensures revents == {In} && old(connectionState) == Connected ==> Stops(inputs, n, isError)
      ensures Gone(old(connectionState), revents, inputs, n)
      ensures revents == {Out} ==> Written(old(sent), old(writeBuffer), write)
      ensures connectionState == Disconnecting ==>
        kernel.mask == old(kernel.mask) && kernel.armed == old(kernel.armed)
    {
      n := 0;
      assert Texts([]) == "" && owed + "" == owed;
      assert In in revents || Out in revents by {
        assert !(revents <= {Hup}) || Hup in revents;
      }
      assert In in revents <==> In in revents * {In, Pri, RdHup};
      if revents * {In, Pri, RdHup} != {} {
        n := HandleRead(inputs);
      }
      if Out in revents {
        HandleWrite(write);
      }
      HandleUpdate();
    }

    /** An open connection stays open until the peer has closed; then it stays while something waits. It is not certain
        to go when nothing does: an earlier write of the turn that left something may have asked for a write event. */
    ghost predicate Followed(before: State, turn: seq<Read>)
      reads this
    {
      if before == Connected && !Closes(turn) then connectionState == Connected
      else connectionState != Connected && (writeBuffer != "" ==> connectionState == Disconnecting)
    }

    /** A connection whose peer has closed is gone when what waited went out at the first attempt. */
    ghost predicate Gone(before: State, revents: Mask, inputs: seq<Read>, n: nat)
      requires n <= |inputs|
      reads this
    {
      && (revents == {Out} && before == Disconnecting && writeBuffer == "" ==> connectionState == Disconnected)
      && (revents == {In} && (before == Disconnecting || Closes(inputs[..n])) ==>
            inputs != [] && Roomy(inputs, |owed|) && !dropped ==> connectionState == Disconnected)
    }

    /** What one write makes of what waited. */
    ghost predicate Written(was: string, waiting: string, write: Write)
      reads this
    {
      && isError == write.failed && sent == was + Taken(waiting, write.n)
      && writeBuffer == if write.failed then waiting else Left(waiting, write.n)
    }

    /** Whether epoll is going to tell when the socket takes more. */
    ghost predicate WriteEventDue()
      reads this, kernel
    {
      kernel.present && kernel.armed && Out in kernel.mask
    }

    /** One turn of the event loop for this connection. A lone hang-up and an error only use up a one-shot registration.
        A connection whose peer closes while a response is not yet out hears of the socket again only if it was waiting
        to write before this turn. */
    method HandleEvents(revents: Mask, inputs: seq<Read>, write: Write) returns (ghost n: nat)
      requires Valid() && kernel.MayReport(revents)
      modifies this, channel, kernel
      ensures Valid() && n <= |inputs| && owed == old(owed) + Texts(inputs[..n])
      ensures Ignored(revents) ==>
        && n == 0 && connectionState == old(connectionState) && !isError && updated == old(updated)
        && writeBuffer == old(writeBuffer) && sent == old(sent) && kernel.mask == old(kernel.mask)
      ensures !Ignored(revents) && Open() ==> updated
      ensures In !in revents ==> n == 0
      ensures !Ignored(revents) && !isError ==> Followed(old(connectionState), inputs[..n])
      ensures revents == {In} && old(connectionState) == Connected ==> Stops(inputs, n, isError)
      ensures Gone(old(connectionState), revents, inputs, n)
      ensures revents == {Out} ==> Written(old(sent), old(writeBuffer), write)
      ensures old(Open()) && connectionState == Disconnecting ==> (WriteEventDue() <==> old(kernel.mask) == {Out, Et})
    {
      n := 0;
      assert Texts([]) == "" && owed + "" == owed;
      kernel.Report(revents);
      channel.revents := revents;
      channel.events := {};
      if Hup in channel.revents && In !in channel.revents {
        return;
      }
      if Err in channel.revents {
        return;
      }
      n := Dispatch(channel.revents, inputs, write);
    }
  }
}
