/** Which page is written for which request: the channel has one write handler, and it reads the connection
    as it is when the handler runs. */
module HttpResponses {
  import opened Folding
  import opened HttpParser
  import opened HttpRequests

  /** The response a head asks for. */
  function Own(v: Verdict): Response {
    match v
    case Rejected(fault) => ErrorPage(fault)
    case Parsed(verb, file, _, _, keep) => if verb == Post then Nothing else Page(file, Suffix(file), keep)
  }

  function Owns(vs: seq<Verdict>): seq<Response> { seq(|vs|, i requires 0 <= i < |vs| => Own(vs[i])) }

  // On any bytes

  /** While a response waits to be written, the slot holds the handler of the last head. What the handler reads is
      that head's, apart from method and file once the next request line is being parsed. */
  ghost predicate Shown(c: Conn) {
    c.out.writing ==>
      && c.out.heads != []
      && match c.out.heads[|c.out.heads| - 1]
         case Rejected(fault) => c.out.slot == ErrorHandler(fault)
         case Parsed(verb, file, _, _, keep) =>
           && c.out.slot == SuccessHandler && c.out.fileType == Suffix(file) && c.keepAlive == keep
           && (c.state == Request ==> c.verb == verb && c.file == file)
  }

  /** What the steps of a read do to the way out: heads are added, and with the first the channel waits to write. */
  ghost predicate Grown(c: Conn, d: Conn) {
    && c.out.heads <= d.out.heads && d.out.written == c.out.written
    && (d.out.writing <==> c.out.writing || |c.out.heads| < |d.out.heads|)
  }

  lemma InsideHead(c: Conn, d: Conn)
    requires Shown(c) && d.out == c.out && d.keepAlive == c.keepAlive && d.state != Request
    ensures Shown(d) && Grown(c, d)
  {
  }

  lemma HeadFinished(c: Conn)
    requires Shown(c) && Valid(c)
    ensures c.state == Success ==> Shown(ParseSuccess(c)) && Grown(c, ParseSuccess(c))
    ensures Shown(ParseError(c)) && Grown(c, ParseError(c))
  {
  }

  lemma StepShown(c: Conn, hasPage: string -> bool)
    requires Valid(c) && Shown(c)
    ensures Shown(Step(c, hasPage)) && Grown(c, Step(c, hasPage))
  {
    match c.state
    case Error => HeadFinished(c);
    case Success => HeadFinished(c);
    case Request => InsideHead(c, ParseRequest(c, hasPage));
    case Header => InsideHead(c, ParseHeader(c));
  }

  lemma {:induction false} DrainShown(c: Conn, d: Conn, hasPage: string -> bool)
    requires Shown(c) && Ends(c, d, hasPage)
    ensures Shown(d) && Grown(c, d) && Valid(d) && !Ready(d)
    decreases |Unread(c)|, Rank(c.state)
  {
    if Ready(c) {
      EndsLater(c, d, hasPage);
      StepShown(c, hasPage);
      DrainShown(Step(c, hasPage), d, hasPage);
    } else {
      EndsHere(c, d, hasPage);
    }
  }

  lemma HandleShown(c: Conn, ev: Event, d: Conn, hasPage: string -> bool)
    requires Shown(c) && Handles(c, ev, d, hasPage)
    ensures Shown(d) && (d.out.writing ==> Valid(d) && !Ready(d))
    ensures ev.Bytes? ==> Grown(c, d)
    ensures ev.Written? && c.out.writing ==>
      d.out == c.out.(writing := false, written := c.out.written + [Respond(c)])
  {
    match ev
    case Bytes(b) =>
      var e := Arrive(c, b);
      assert Ends(e, d, hasPage) by { assert Open(DrainFold); }
      DrainShown(e, d, hasPage);
    case Written =>
      assert Open(DrainFold);
  }

  lemma {:induction false} AlwaysShown(c: Conn, evs: seq<Event>, d: Conn, hasPage: string -> bool)
    requires Fresh(c) && Reaches(c, evs, d, hasPage)
    ensures Shown(d)
    ensures d.out.writing ==> Valid(d) && !Ready(d)
    decreases |evs|
  {
    var m := ReachesBack(c, evs, d, hasPage);
    if evs != [] {
      AlwaysShown(c, evs[..|evs| - 1], m, hasPage);
      HandleShown(m, evs[|evs| - 1], d, hasPage);
    }
  }

  /** Method and file are still the ones that `last` asked for, as far as its response depends on them. */
  predicate StillAsks(c: Conn, last: Verdict) {
    last.Rejected? || (c.verb == last.verb && (c.verb == Post || c.file == last.file))
  }

  lemma ResponseIsOwn(c: Conn)
    requires Shown(c) && c.out.writing
    ensures c.out.heads != []
    ensures var last := c.out.heads[|c.out.heads| - 1]; Respond(c) == Own(last) <==> StillAsks(c, last)
  {
  }

  /** Whatever bytes arrive, a response that waits is the one of the last head if and only if that head was rejected,
      or method and file are still the ones it asked for. */
  lemma ResponseOfLastHead(c: Conn, evs: seq<Event>, hasPage: string -> bool)
    requires Fresh(c) && Run(c, evs, hasPage).out.writing
    ensures var d := Run(c, evs, hasPage);
      && d.out.heads != []
      && var last := d.out.heads[|d.out.heads| - 1];
         Respond(d) == Own(last) <==> StillAsks(d, last)
  {
    var d := Run(c, evs, hasPage);
    assert Reaches(c, evs, d, hasPage);
    AlwaysShown(c, evs, d, hasPage);
    ResponseIsOwn(d);
  }

  // On well-formed requests

  /** The conversation after `n` characters of `rs`. */
  function TalkAfter(rs: seq<Req>, n: nat): Talk { ParseAll(Talk(rs, n, [], false)) }

  /** The request line behind the last complete head has come. */
  predicate NextLineIn(t: Talk) {
    t.open != [] && t.waiting >= |Line(t.open[0])| + 2
  }

  /** Both requests are answered with the same page, if their connection stays alike. */
  predicate SameAsk(r: Req, s: Req) {
    r.verb == s.verb && (r.verb == Post || Target(r.path) == Target(s.path))
  }

  /** What comes between `n` and `m` characters completes at most one head, and stops there or goes on with
      a request line that asks for the same. */
  predicate CleanRead(rs: seq<Req>, n: nat, m: nat) {
    var t, k := TalkAfter(rs, m), |TalkAfter(rs, n).heads|;
    && |t.heads| <= k + 1
    && (|t.heads| == k + 1 <= |rs| && NextLineIn(t) ==> SameAsk(rs[k], t.open[0]))
  }

  /** Where a read stops in the first request of `rs`. */
  lemma StopsAt(c: Conn, rs: seq<Req>, left: seq<Field>, rest: string)
    requires InHead(c, rs, left, rest) && !Ready(c)
    ensures c.state == (if rs != [] && |c.buf| >= |Line(rs[0])| + 2 then Header else Request)
    ensures c.state == Header ==> Reading(c, rs[0])
  {
    assert Open(HeadFold);
    if rs != [] {
      var r, e := rs[0], Encode(rs[1..]);
      var line, tail := Line(r) + CRLF, Fields(r.fields) + CRLF + e;
      HeadLine(rs);
      assert c.buf + rest == line + tail;
      if c.state == Request && |c.buf| >= |line| {
        EndArrived(c.buf, rest, 0, line, tail);
      } else if c.state == Header {
        assert |c.buf| + |rest| == |line| + |Fields(r.fields)| + 2 + |e|;
        assert |Unread(c)| + |rest| == |Fields(left)| + 2 + |e|;
      }
    }
  }

  /** A settled connection still asks what its last head asked if it has not read the next request line, or that asks
      the same. */
  lemma SettledAsks(d: Conn, t: Talk, rs: seq<Req>, still: seq<Field>, rest: string)
    requires Shown(d) && d.out.writing && Valid(d) && !Ready(d) && Settled(d, t, still, rest) && Told(t, rs)
    ensures var k := |t.heads|;
      && d.out.heads == t.heads && 0 < k
      && (StillAsks(d, t.heads[k - 1]) <==> NextLineIn(t) ==> SameAsk(rs[k - 1], t.open[0]))
  {
    var k := |t.heads|;
    StopsAt(d, t.open, still, rest);
    assert t.heads[k - 1] == HeadFor(rs[k - 1], Asked(rs, k - 1));
  }

  lemma SettledResponse(d: Conn, t: Talk, rs: seq<Req>, still: seq<Field>, rest: string)
    requires Shown(d) && d.out.writing && Valid(d) && !Ready(d) && Settled(d, t, still, rest) && Told(t, rs)
    ensures var k := |t.heads|;
      && d.out.heads == t.heads && 0 < k
      && (Respond(d) == Own(t.heads[k - 1]) <==> NextLineIn(t) ==> SameAsk(rs[k - 1], t.open[0]))
  {
    SettledAsks(d, t, rs, still, rest);
    ResponseIsOwn(d);
  }

  lemma PageOfLast(d: Conn, rs: seq<Req>, n: nat, still: seq<Field>, rest: string)
    requires Shown(d) && d.out.writing && Valid(d) && !Ready(d)
    requires SettledIn(d, Talk(rs, n, [], false), still, rest)
    ensures var k := |d.out.heads|;
      && 0 < k <= |rs|
      && (Respond(d) == Own(d.out.heads[k - 1]) <==>
           k == |rs| || |d.buf| < |Line(rs[k])| + 2 || SameAsk(rs[k - 1], rs[k]))
  {
    var t := TalkAfter(rs, n);
    assert Settled(d, t, still, rest) by { assert Open(DrainFold); }
    AllTold(Talk(rs, n, [], false), rs);
    SettledResponse(d, t, rs, still, rest);
    assert t.waiting == |d.buf| && t.open == rs[|t.heads|..];
  }

  /** After a read, the page of the last complete head waits to be written if and only if the read stops before the
      next request line is complete, or that line asks for the same. */
  lemma PageOfLastHead(c: Conn, evs: seq<Event>, rs: seq<Req>, rest: string, hasPage: string -> bool)
    requires Fresh(c) && AllWellFormed(rs, hasPage) && Received(evs) + rest == Encode(rs)
    requires Run(c, evs, hasPage).out.writing
    ensures var d := Run(c, evs, hasPage);
      var k := |d.out.heads|;
      && 0 < k <= |rs|
      && (Respond(d) == Own(d.out.heads[k - 1]) <==>
           k == |rs| || |d.buf| < |Line(rs[k])| + 2 || SameAsk(rs[k - 1], rs[k]))
  {
    var d := Run(c, evs, hasPage);
    assert Reaches(c, evs, d, hasPage);
    AlwaysShown(c, evs, d, hasPage);
    var still := Runs(c, evs, d, rs, rest, hasPage);
    PageOfLast(d, rs, |Received(evs)|, still, rest);
  }

  // Whole runs

  /** The channel waits either to read or to write, and only what it waits for happens. */
  ghost predicate Possible(c: Conn, evs: seq<Event>, hasPage: string -> bool)
    requires Valid(c)
    decreases |evs|
  {
    evs != [] ==>
      var before := evs[..|evs| - 1];
      Possible(c, before, hasPage) && (evs[|evs| - 1].Written? <==> Run(c, before, hasPage).out.writing)
  }

  predicate AllClean(rs: seq<Req>, evs: seq<Event>)
    decreases |evs|
  {
    evs != [] ==>
      var before := evs[..|evs| - 1];
      AllClean(rs, before) && CleanRead(rs, |Received(before)|, |Received(evs)|)
  }

  /** What has been written, and what waits to be. */
  function Responses(c: Conn): seq<Response> {
    c.out.written + if c.out.writing then [Respond(c)] else []
  }

  lemma ReadResponses(m: Conn, d: Conn, rs: seq<Req>)
    requires Grown(m, d) && !m.out.writing && |Responses(m)| <= |m.out.heads|
    ensures |Responses(d)| <= |d.out.heads|
    ensures Responses(d) == Owns(d.out.heads) <==>
      && Responses(m) == Owns(m.out.heads) && |d.out.heads| <= |m.out.heads| + 1
      && (d.out.writing ==> Respond(d) == Own(d.out.heads[|d.out.heads| - 1]))
  {
    var a, b := m.out.heads, d.out.heads;
    if |b| == |a| + 1 {
      assert Owns(b) == Owns(a) + [Own(b[|a|])];
      assert Owns(b)[..|a|] == Owns(a);
    } else {
      assert |Owns(b)| == |b|;
    }
  }

  /** A run, step by step: how far it is, and whether everything so far got its own response. */
  ghost predicate Tracks(d: Conn, rs: seq<Req>, n: nat, still: seq<Field>, rest: string, clean: bool) {
    && Shown(d) && (d.out.writing ==> Valid(d) && !Ready(d))
    && SettledIn(d, Talk(rs, n, [], false), still, rest)
    && |Responses(d)| <= |d.out.heads| && (Responses(d) == Owns(d.out.heads) <==> clean)
  }

  lemma ReadTracked(m: Conn, d: Conn, rs: seq<Req>, n: nat, bytes: string, left: seq<Field>, still: seq<Field>,
                    rest: string, clean: bool)
    requires Tracks(m, rs, n, left, bytes + rest, clean) && !m.out.writing && Grown(m, d)
    requires Shown(d) && (d.out.writing ==> Valid(d) && !Ready(d))
    requires SettledIn(d, Talk(rs, n + |bytes|, [], false), still, rest)
    ensures Tracks(d, rs, n + |bytes|, still, rest, clean && CleanRead(rs, n, n + |bytes|))
  {
    assert Open(DrainFold);
    var t := TalkAfter(rs, n + |bytes|);
    AllTold(Talk(rs, n, [], false), rs);
    AllTold(Talk(rs, n + |bytes|, [], false), rs);
    ReadResponses(m, d, rs);
    if d.out.writing {
      SettledResponse(d, t, rs, still, rest);
    }
  }

  lemma WriteTracked(m: Conn, d: Conn, rs: seq<Req>, n: nat, left: seq<Field>, still: seq<Field>, rest: string,
                     clean: bool)
    requires Tracks(m, rs, n, left, rest, clean) && m.out.writing && Shown(d)
    requires d.out == m.out.(writing := false, written := m.out.written + [Respond(m)])
    requires SettledIn(d, Talk(rs, n, [], false), still, rest)
    ensures Tracks(d, rs, n, still, rest, clean && CleanRead(rs, n, n))
  {
    assert Responses(d) == Responses(m);
  }

  lemma EventTracked(m: Conn, d: Conn, rs: seq<Req>, n: nat, ev: Event, left: seq<Field>, rest: string, clean: bool,
                     k: nat, still: seq<Field>, cleanNow: bool, hasPage: string -> bool)
    requires Tracks(m, rs, n, left, TextOf(ev) + rest, clean) && Handles(m, ev, d, hasPage)
    requires m.out.writing <==> ev.Written?
    requires k == n + |TextOf(ev)| && (cleanNow <==> clean && CleanRead(rs, n, k))
    requires SettledIn(d, Talk(rs, k, [], false), still, rest)
    ensures Tracks(d, rs, k, still, rest, cleanNow)
  {
    HandleShown(m, ev, d, hasPage);
    match ev
    case Bytes(b) => ReadTracked(m, d, rs, n, b, left, still, rest, clean);
    case Written =>
      assert "" + rest == rest;
      WriteTracked(m, d, rs, n, left, still, rest, clean);
  }

  lemma PossibleBack(c: Conn, evs: seq<Event>, m: Conn, hasPage: string -> bool)
    requires Valid(c) && evs != [] && Possible(c, evs, hasPage) && Reaches(c, evs[..|evs| - 1], m, hasPage)
    ensures Possible(c, evs[..|evs| - 1], hasPage) && (m.out.writing <==> evs[|evs| - 1].Written?)
  {
    assert Open(DrainFold);
  }

  lemma FreshTracked(c: Conn, rs: seq<Req>, still: seq<Field>, rest: string)
    requires Fresh(c) && SettledIn(c, Talk(rs, 0, [], false), still, rest)
    ensures Tracks(c, rs, 0, still, rest, AllClean(rs, []))
  {
    assert Owns(c.out.heads) == [];
  }

  lemma {:induction false} RunTracked(c: Conn, evs: seq<Event>, d: Conn, rs: seq<Req>, rest: string,
                                      hasPage: string -> bool) returns (still: seq<Field>)
    requires Fresh(c) && AllWellFormed(rs, hasPage) && Received(evs) + rest == Encode(rs)
    requires Reaches(c, evs, d, hasPage) && Possible(c, evs, hasPage)
    ensures Tracks(d, rs, |Received(evs)|, still, rest, AllClean(rs, evs))
    decreases |evs|
  {
    var m := ReachesBack(c, evs, d, hasPage);
    still := Runs(c, evs, d, rs, rest, hasPage);
    if evs == [] {
      FreshTracked(c, rs, still, rest);
    } else {
      var before, ev := evs[..|evs| - 1], evs[|evs| - 1];
      PossibleBack(c, evs, m, hasPage);
      ReceivedBack(evs, rest);
      var left := RunTracked(c, before, m, rs, TextOf(ev) + rest, hasPage);
      EventTracked(m, d, rs, |Received(before)|, ev, left, rest, AllClean(rs, before),
                   |Received(evs)|, still, AllClean(rs, evs), hasPage);
    }
  }

  /** Every request gets the response it asks for, in order, if and only if every read is clean. */
  lemma EveryRequestItsPage(c: Conn, evs: seq<Event>, rs: seq<Req>, rest: string, hasPage: string -> bool)
    requires Fresh(c) && AllWellFormed(rs, hasPage) && Received(evs) + rest == Encode(rs)
    requires Possible(c, evs, hasPage)
    ensures var d := Run(c, evs, hasPage);
      && |Responses(d)| <= |d.out.heads|
      && (Responses(d) == Owns(d.out.heads) <==> AllClean(rs, evs))
  {
    var d := Run(c, evs, hasPage);
    assert Reaches(c, evs, d, hasPage);
    var still := RunTracked(c, evs, d, rs, rest, hasPage);
  }

  lemma {:induction false} AllHere(t: Talk)
    requires t.waiting == |Encode(t.open)|
    ensures ParseAll(t).open == [] && |ParseAll(t).heads| == |t.heads| + |t.open|
    decreases |t.open|
  {
    if t.open != [] {
      AllHere(ParseFirst(t));
    }
  }

  lemma NothingHere(rs: seq<Req>)
    ensures TalkAfter(rs, 0).heads == []
  {
    assert rs != [] ==> HeadSize(rs[0]) > 0;
  }

  lemma OneRead(rs: seq<Req>, bytes: string)
    ensures AllClean(rs, [Bytes(bytes)]) <==> CleanRead(rs, 0, |bytes|)
  {
    var evs := [Bytes(bytes)];
    assert evs[..0] == [] && Received([]) == "" && Received(evs) == "" + bytes;
  }

  /** Requests sent together, in one read, get their own responses only if there is at most one of them. */
  lemma SentTogether(rs: seq<Req>)
    ensures AllClean(rs, [Bytes(Encode(rs))]) <==> |rs| <= 1
  {
    OneRead(rs, Encode(rs));
    NothingHere(rs);
    AllHere(Talk(rs, |Encode(rs)|, [], false));
  }

  /** The connection object handles a run of events as `Run` says: it parses the heads that are complete, and the
      responses are their own if and only if every read is clean. */
  method Serve(pages: string -> bool, evs: seq<Event>, ghost rs: seq<Req>, ghost rest: string)
      returns (conn: HttpConnection, ghost start: Conn)
    requires AllWellFormed(rs, pages) && Received(evs) + rest == Encode(rs)
    ensures fresh(conn) && Fresh(start) && conn.View() == Run(start, evs, pages) && conn.hasPage == pages
    ensures |conn.out.heads| <= |rs|
    ensures forall i :: 0 <= i < |conn.out.heads| ==> Says(conn.out.heads[i], rs, i)
    ensures conn.keepAlive <==> Wanted(rs, |conn.out.heads|)
    ensures conn.inBuffer + rest == Encode(rs[|conn.out.heads|..])
    ensures |conn.out.heads| < |rs| ==> |conn.inBuffer| < |Head(rs[|conn.out.heads|])|
    ensures Possible(start, evs, pages) ==> (Responses(conn.View()) == Owns(conn.out.heads) <==> AllClean(rs, evs))
  {
    conn := new HttpConnection(pages);
    start := conn.View();
    for i := 0 to |evs|
      invariant Valid(conn.View()) && conn.hasPage == pages && conn.View() == Run(start, evs[..i], pages)
      modifies conn
    {
      assert evs[..i + 1][..i] == evs[..i];
      match evs[i]
      case Bytes(b) => conn.HandleRead(b, false);
      case Written => conn.HandleWrite();
    }
    assert evs[..|evs|] == evs;
    ChunksDoNotMatter(start, evs, rs, rest, pages);
    if Possible(start, evs, pages) {
      EveryRequestItsPage(start, evs, rs, rest, pages);
    }
  }

  /** `conn` has parsed and answered what had come before its last read, and nothing of that. */
  ghost predicate ClosedAfter(out: Outlet, c: Conn, evs: seq<Event>, last: string, rs: seq<Req>, rest: string,
                              hasPage: string -> bool)
    requires Valid(c)
  {
    && out == Run(c, evs, hasPage).out
    && (forall i: nat :: i <= |rs| ==> (i <= |out.heads| <==> |Encode(rs[..i])| <= |Received(evs)|))
    && (rest == "" ==> (|out.heads| == |rs| <==> last == ""))
  }

  lemma ClosesAfter(c: Conn, evs: seq<Event>, last: string, rs: seq<Req>, rest: string, hasPage: string -> bool)
    requires Fresh(c) && AllWellFormed(rs, hasPage) && Received(evs) + (last + rest) == Encode(rs)
    ensures ClosedAfter(HangUp(Run(c, evs, hasPage), last).out, c, evs, last, rs, rest, hasPage)
  {
    var d := HangUp(Run(c, evs, hasPage), last);
    forall i: nat | i <= |rs| ensures i <= |d.out.heads| <==> |Encode(rs[..i])| <= |Received(evs)| {
      LastReadUnparsed(c, evs, last, rs, rest, i, hasPage);
    }
    LastReadUnparsed(c, evs, last, rs, rest, 0, hasPage);
  }

  /** The same with a last read that ends the connection: what it brings is neither parsed nor answered. */
  method ServeAndClose(pages: string -> bool, evs: seq<Event>, last: string, ghost rs: seq<Req>, ghost rest: string)
      returns (conn: HttpConnection, ghost start: Conn)
    requires AllWellFormed(rs, pages) && Received(evs) + (last + rest) == Encode(rs)
    ensures Fresh(start) && conn.deleted && ClosedAfter(conn.out, start, evs, last, rs, rest, pages)
  {
    conn, start := Serve(pages, evs, rs, last + rest);
    ClosesAfter(start, evs, last, rs, rest, pages);
    conn.HandleRead(last, true);
  }
}
