/** What a request for a page that is not there does to the requests behind it. */
module MissingPages {
  import opened Folding
  import opened HttpParser
  import opened HttpRequests
  import opened HttpResponses

  /** Only the page is wanting. */
  predicate Missing(r: Req, hasPage: string -> bool) { Plain(r) && !HasPage(r, hasPage) }

  /** All of a head that has come is read. */
  lemma {:induction false} HeadRead(c: Conn, d: Conn, rs: seq<Req>, left: seq<Field>, rest: string,
                                    hasPage: string -> bool) returns (e: Conn)
    requires InHead(c, rs, left, rest) && rs != [] && WellFormed(rs[0], hasPage) && Ends(c, d, hasPage)
    requires |c.buf| >= |Head(rs[0])|
    ensures Ends(e, d, hasPage) && InHead(e, rs[1..], [], rest) && e.state == Request
    ensures TalkOf(e, rs[1..]) == ParseFirst(TalkOf(c, rs))
    decreases |Unread(c)|, Rank(c.state)
  {
    if !Ready(c) {
      WaitsForBytes(c, rs, left, rest);
    }
    NotPastHead(c, rs, left, rest);
    EndsLater(c, d, hasPage);
    e := Step(c, hasPage);
    if c.state == Success {
      StepSuccess(c, rs, left, rest);
    } else {
      var now := StepInHead(c, rs, left, rest, hasPage);
      e := HeadRead(e, d, rs, now, rest, hasPage);
    }
  }

  lemma MissingPage(c: Conn, r: Req, more: string, hasPage: string -> bool) returns (d: Conn)
    requires Valid(c) && c.state == Request && Unread(c) == Line(r) + CRLF + more && Missing(r, hasPage)
    ensures d == ParseRequest(c, hasPage) && d.state == Error && d.fault == NotFound && Ready(d)
    ensures d.out == c.out && d.keepAlive == c.keepAlive
  {
    var version := VersionText(r.version) + CRLF + more;
    Regroup(VerbText(r.verb), " /", r.path, " ", VersionText(r.version), CRLF, more);
    VerbStep(c, r.verb, r.path + " " + version);
    d := ParseVerb(c);
    FoundBehind(d, r.path, " ", version);
    d := ParseRequest(c, hasPage);
    IndexBehind(VersionText(r.version), CRLF, more);
  }

  /** A head has been rejected: nothing is left in the buffer, and the answer waits to be written. */
  predicate JustRejected(c: Conn, heads: seq<Verdict>, fault: Fault) {
    && c.buf == "" && c.pos == 0 && c.state == Request && c.headers == map[]
    && c.out.heads == heads + [Rejected(fault)] && c.out.slot == ErrorHandler(fault) && c.out.writing
  }

  lemma RejectionEnds(c: Conn, d: Conn, hasPage: string -> bool)
    requires Ends(c, d, hasPage) && c.state == Error && Ready(c)
    ensures JustRejected(d, c.out.heads, c.fault)
  {
    EndsLater(c, d, hasPage);
    EndsHere(ParseError(c), d, hasPage);
  }

  lemma MissingEnds(c: Conn, d: Conn, rs: seq<Req>, rest: string, hasPage: string -> bool)
    requires InHead(c, rs, [], rest) && c.state == Request && rs != [] && Missing(rs[0], hasPage)
    requires |c.buf| >= |Line(rs[0])| + 2 && Ends(c, d, hasPage)
    ensures JustRejected(d, c.out.heads, NotFound)
  {
    var r, line := rs[0], Line(rs[0]) + CRLF;
    var more := c.buf[|line|..];
    assert c.pos == 0 && c.buf == line + more by {
      assert Open(HeadFold);
      HeadLine(rs);
      SplitOff(c.buf, rest, line, Fields(r.fields) + CRLF + Encode(rs[1..]));
    }
    LineHasNoEnd(r);
    IndexBehind(Line(r), CRLF, more);
    assert Unread(c) == c.buf;
    EndsLater(c, d, hasPage);
    var e := MissingPage(c, r, more, hasPage);
    RejectionEnds(e, d, hasPage);
  }

  /** How many characters there are of the requests from `k` on, up to the end of the request line of `i`. */
  function LineEnd(rs: seq<Req>, k: nat, i: nat): nat
    requires k <= i < |rs|
    decreases i - k
  {
    if k == i then |Line(rs[i])| + 2 else HeadSize(rs[k]) + LineEnd(rs, k + 1, i)
  }

  predicate FirstMissing(rs: seq<Req>, i: nat, hasPage: string -> bool) {
    i < |rs| && Missing(rs[i], hasPage) && forall j :: 0 <= j < i ==> WellFormed(rs[j], hasPage)
  }

  lemma {:induction false} UpToMissing(c: Conn, d: Conn, rs: seq<Req>, i: nat, rest: string, hasPage: string -> bool)
      returns (e: Conn)
    requires FirstMissing(rs, i, hasPage) && |c.out.heads| <= i && Told(TalkOf(c, rs[|c.out.heads|..]), rs)
    requires InHead(c, rs[|c.out.heads|..], [], rest) && c.state == Request && Ends(c, d, hasPage)
    requires |c.buf| >= LineEnd(rs, |c.out.heads|, i)
    ensures |e.out.heads| == i && Told(TalkOf(e, rs[i..]), rs) && JustRejected(d, e.out.heads, NotFound)
    decreases i - |c.out.heads|
  {
    var k := |c.out.heads|;
    if k == i {
      MissingEnds(c, d, rs[i..], rest, hasPage);
      return c;
    }
    var open := rs[k..];
    assert open[1..] == rs[k + 1..] && WellFormed(open[0], hasPage);
    e := HeadRead(c, d, open, [], rest, hasPage);
    FirstTold(TalkOf(c, open), rs);
    e := UpToMissing(e, d, rs, i, rest, hasPage);
  }

  lemma {:induction false} LineEndIn(rs: seq<Req>, k: nat, i: nat)
    requires k <= i < |rs|
    ensures LineEnd(rs, k, i) <= |Encode(rs[k..])| - |Encode(rs[i + 1..])| - 2
    decreases i - k
  {
    assert rs[k..][1..] == rs[k + 1..];
    if k < i {
      LineEndIn(rs, k + 1, i);
    }
  }

  /** In a run from the start: whatever comes in one read with a request for a missing page is dropped. */
  lemma ReadUpToMissing(c: Conn, chunk: string, rs: seq<Req>, i: nat, rest: string, hasPage: string -> bool)
    requires Fresh(c) && FirstMissing(rs, i, hasPage) && chunk + rest == Encode(rs)
    requires |chunk| >= LineEnd(rs, 0, i)
    ensures var d := Drain(Arrive(c, chunk), hasPage);
      && |d.out.heads| == i + 1
      && (forall j :: 0 <= j < i ==> d.out.heads[j] == HeadFor(rs[j], Asked(rs, j)))
      && JustRejected(d, d.out.heads[..i], NotFound)
  {
    var b := Arrive(c, chunk);
    var d := Drain(b, hasPage);
    assert b.buf == chunk && rs[0..] == rs;
    BeforeHead(b, rs, rest);
    assert Ends(b, d, hasPage);
    var e := UpToMissing(b, d, rs, i, rest, hasPage);
    assert d.out.heads[..i] == e.out.heads;
  }

  // One chunk

  predicate AllPlain(rs: seq<Req>) { forall r :: r in rs ==> Plain(r) }

  predicate AllPages(rs: seq<Req>, hasPage: string -> bool) { forall r :: r in rs ==> HasPage(r, hasPage) }

  lemma {:induction false} FindMissing(rs: seq<Req>, hasPage: string -> bool) returns (i: nat)
    requires AllPlain(rs) && !AllPages(rs, hasPage)
    ensures FirstMissing(rs, i, hasPage)
  {
    if HasPage(rs[0], hasPage) {
      i := FindMissing(rs[1..], hasPage);
      i := i + 1;
    } else {
      i := 0;
    }
  }

  function OneChunk(rs: seq<Req>): seq<Event> { [Bytes(Encode(rs))] }

  lemma RunMore(c: Conn, evs: seq<Event>, ev: Event, hasPage: string -> bool)
    requires Valid(c)
    ensures Run(c, evs + [ev], hasPage) == Handle(Run(c, evs, hasPage), ev, hasPage)
    ensures Received(evs + [ev]) == Received(evs) + TextOf(ev)
    ensures Possible(c, evs + [ev], hasPage) <==>
      Possible(c, evs, hasPage) && (ev.Written? <==> Run(c, evs, hasPage).out.writing)
  {
    assert (evs + [ev])[..|evs|] == evs;
  }

  lemma OneChunkRun(c: Conn, rs: seq<Req>, hasPage: string -> bool)
    requires Fresh(c)
    ensures Run(c, OneChunk(rs), hasPage) == Drain(Arrive(c, Encode(rs)), hasPage)
    ensures Received(OneChunk(rs)) == Encode(rs) && Possible(c, OneChunk(rs), hasPage)
  {
    assert OneChunk(rs) == [] + OneChunk(rs);
    RunMore(c, [], Bytes(Encode(rs)), hasPage);
  }

  /** In one chunk: the requests before the first missing page are parsed, that one is refused, and those behind it
      are dropped unread. */
  lemma MissingPageDropsTheRest(c: Conn, rs: seq<Req>, i: nat, hasPage: string -> bool)
    requires Fresh(c) && FirstMissing(rs, i, hasPage)
    ensures var d := Run(c, OneChunk(rs), hasPage);
      && |d.out.heads| == i + 1
      && (forall j :: 0 <= j < i ==> d.out.heads[j] == HeadFor(rs[j], Asked(rs, j)))
      && JustRejected(d, d.out.heads[..i], NotFound)
  {
    LineEndIn(rs, 0, i);
    assert rs[0..] == rs && Encode(rs) + "" == Encode(rs);
    ReadUpToMissing(c, Encode(rs), rs, i, "", hasPage);
    OneChunkRun(c, rs, hasPage);
  }

  ghost predicate ParsedWhole(d: Conn, rs: seq<Req>) {
    |d.out.heads| == |rs| && forall j :: 0 <= j < |rs| ==> d.out.heads[j] == HeadFor(rs[j], Asked(rs, j))
  }

  lemma NothingLeftOut(buf: string, rs: seq<Req>, k: nat)
    requires k <= |rs| && buf + "" == Encode(rs[k..]) && (k < |rs| ==> |buf| < |Head(rs[k])|)
    ensures k == |rs|
  {
  }

  /** One chunk of requests is parsed whole if and only if every page asked for is there. */
  lemma ParsedIffPagesExist(c: Conn, rs: seq<Req>, hasPage: string -> bool)
    requires Fresh(c) && AllPlain(rs)
    ensures ParsedWhole(Run(c, OneChunk(rs), hasPage), rs) <==> AllPages(rs, hasPage)
  {
    if AllPages(rs, hasPage) {
      OneChunkRun(c, rs, hasPage);
      assert Received(OneChunk(rs)) + "" == Encode(rs);
      RunHeads(c, OneChunk(rs), rs, "", hasPage);
      NothingLeftOut(Run(c, OneChunk(rs), hasPage).buf, rs, |Run(c, OneChunk(rs), hasPage).out.heads|);
    } else {
      var i := FindMissing(rs, hasPage);
      MissingPageDropsTheRest(c, rs, i, hasPage);
    }
  }

  // Other cuts

  /** All possible runs in which the characters of `rs` arrive parse the same heads. */
  ghost predicate CutsAgree(c: Conn, rs: seq<Req>, hasPage: string -> bool)
    requires Valid(c)
  {
    forall evs, others ::
      Received(evs) == Encode(rs) && Received(others) == Encode(rs) && Possible(c, evs, hasPage)
      && Possible(c, others, hasPage)
      ==> Run(c, evs, hasPage).out.heads == Run(c, others, hasPage).out.heads
  }

  /** The requests up to the fields of the first missing one, the blank line behind them, and the others. */
  function ThreeChunks(a: string, b: string): seq<Event> {
    [Bytes(a)] + [Written] + [Bytes(CRLF)] + [Written] + [Bytes(b)]
  }

  /** A rejection has been written, and the blank line of the rejected head comes on its own: it is rejected again. */
  lemma BlankLineRejected(c: Conn, d: Conn, hasPage: string -> bool)
    requires c.buf == "" && c.pos == 0 && c.state == Request && Ends(Arrive(c, CRLF), d, hasPage)
    ensures JustRejected(d, c.out.heads, BadRequest)
  {
    var b := Arrive(c, CRLF);
    assert b.buf == CRLF && Unread(b) == CRLF;
    IndexNone(CRLF, " /");
    IndexIs(CRLF, CRLF, 0);
    EndsLater(b, d, hasPage);
    RejectionEnds(ParseRequest(b, hasPage), d, hasPage);
  }

  /** A possible run and what has come in it (kept folded: unfold with `Open(DrainFold)`). */
  ghost predicate Goes(c: Conn, evs: seq<Event>, text: string, d: Conn, hasPage: string -> bool) {
    Valid(c) && forall u {:trigger Open(u)} :: u == DrainFold ==>
      Possible(c, evs, hasPage) && Received(evs) == text && Run(c, evs, hasPage) == d
  }

  lemma GoesOn(c: Conn, evs: seq<Event>, text: string, d: Conn, ev: Event, more: string, e: Conn,
               hasPage: string -> bool)
    requires Goes(c, evs, text, d, hasPage) && Handles(d, ev, e, hasPage) && (ev.Written? <==> d.out.writing)
    requires more == text + TextOf(ev)
    ensures Goes(c, evs + [ev], more, e, hasPage)
  {
    assert Open(DrainFold);
    RunMore(c, evs, ev, hasPage);
  }

  lemma ReadGoesOn(c: Conn, evs: seq<Event>, text: string, d: Conn, bytes: string, more: string, e: Conn,
                   hasPage: string -> bool)
    requires Goes(c, evs, text, d, hasPage) && Valid(d) && Ends(Arrive(d, bytes), e, hasPage) && !d.out.writing
    requires more == text + bytes
    ensures Goes(c, evs + [Bytes(bytes)], more, e, hasPage)
  {
    assert Handles(d, Bytes(bytes), e, hasPage) by { assert Open(DrainFold); }
    GoesOn(c, evs, text, d, Bytes(bytes), more, e, hasPage);
  }

  /** The answer of a rejection is written. */
  lemma RejectionGoesOn(c: Conn, evs: seq<Event>, text: string, d: Conn, heads: seq<Verdict>, fault: Fault,
                        hasPage: string -> bool)
    requires Goes(c, evs, text, d, hasPage) && JustRejected(d, heads, fault)
    ensures Goes(c, evs + [Written], text, RunHandler(d), hasPage)
  {
    assert text + "" == text;
    assert Handles(d, Written, RunHandler(d), hasPage) by { assert Open(DrainFold); }
    GoesOn(c, evs, text, d, Written, text, RunHandler(d), hasPage);
  }

  lemma ThreeChunksRun(c: Conn, a: string, b: string, d1: Conn, heads: seq<Verdict>, hasPage: string -> bool)
      returns (d5: Conn)
    requires Fresh(c) && Ends(Arrive(c, a), d1, hasPage) && JustRejected(d1, heads, NotFound)
    ensures Goes(c, ThreeChunks(a, b), a + CRLF + b, d5, hasPage) && |d5.out.heads| > |heads| + 1
  {
    assert [] + [Bytes(a)] == [Bytes(a)] && "" + a == a;
    assert Goes(c, [], "", c, hasPage) by { assert Open(DrainFold); }
    ReadGoesOn(c, [], "", c, a, a, d1, hasPage);
    RejectionGoesOn(c, [Bytes(a)], a, d1, heads, NotFound, hasPage);
    var d2 := RunHandler(d1);
    var two := [Bytes(a)] + [Written];
    var d3 := Drain(Arrive(d2, CRLF), hasPage);
    BlankLineRejected(d2, d3, hasPage);
    ReadGoesOn(c, two, a, d2, CRLF, a + CRLF, d3, hasPage);
    var three := two + [Bytes(CRLF)];
    RejectionGoesOn(c, three, a + CRLF, d3, d2.out.heads, BadRequest, hasPage);
    var d4 := RunHandler(d3);
    d5 := Drain(Arrive(d4, b), hasPage);
    DrainShown(Arrive(d4, b), d5, hasPage);
    ReadGoesOn(c, three + [Written], a + CRLF, d4, b, a + CRLF + b, d5, hasPage);
  }

  /** The blank line that ends the head of request `i`. */
  lemma {:induction false} BlankLine(rs: seq<Req>, i: nat) returns (a: string, b: string)
    requires i < |rs|
    ensures Encode(rs) == a + CRLF + b && |a| >= LineEnd(rs, 0, i)
  {
    var r := rs[0];
    if i == 0 {
      a, b := Line(r) + CRLF + Fields(r.fields), Encode(rs[1..]);
      assert Head(r) == a + CRLF;
    } else {
      var front;
      front, b := BlankLine(rs[1..], i - 1);
      a := Head(r) + front;
      LineEndShift(rs, 1, i);
      assert Head(r) + (front + CRLF + b) == a + CRLF + b;
    }
  }

  lemma {:induction false} LineEndShift(rs: seq<Req>, k: nat, i: nat)
    requires 1 <= k <= i < |rs|
    ensures LineEnd(rs, k, i) == LineEnd(rs[1..], k - 1, i - 1)
    decreases i - k
  {
    assert rs[1..][k - 1] == rs[k];
    if k < i {
      LineEndShift(rs, k + 1, i);
    }
  }

  /** All ways to cut the text of plain requests agree if and only if every page asked for is there. */
  lemma CutsAgreeIffPagesExist(c: Conn, rs: seq<Req>, hasPage: string -> bool)
    requires Fresh(c) && AllPlain(rs)
    ensures CutsAgree(c, rs, hasPage) <==> AllPages(rs, hasPage)
  {
    if AllPages(rs, hasPage) {
      forall evs, others | Received(evs) == Encode(rs) && Received(others) == Encode(rs)
        ensures Run(c, evs, hasPage).out.heads == Run(c, others, hasPage).out.heads
      {
        assert Received(evs) + "" == Encode(rs);
        SameCharactersSameHeads(c, evs, others, rs, "", hasPage);
      }
    } else {
      CutsDisagree(c, rs, hasPage);
    }
  }

  lemma Disagree(c: Conn, rs: seq<Req>, evs: seq<Event>, d: Conn, others: seq<Event>, e: Conn, hasPage: string -> bool)
    requires Goes(c, evs, Encode(rs), d, hasPage) && Goes(c, others, Encode(rs), e, hasPage)
    requires |d.out.heads| != |e.out.heads|
    ensures !CutsAgree(c, rs, hasPage)
  {
    assert Open(DrainFold);
  }

  lemma InThreeChunks(c: Conn, rs: seq<Req>, i: nat, hasPage: string -> bool) returns (evs: seq<Event>, e: Conn)
    requires Fresh(c) && FirstMissing(rs, i, hasPage)
    ensures Goes(c, evs, Encode(rs), e, hasPage) && |e.out.heads| > i + 1
  {
    var a, b := BlankLine(rs, i);
    assert a + (CRLF + b) == a + CRLF + b;
    var d := Drain(Arrive(c, a), hasPage);
    ReadUpToMissing(c, a, rs, i, CRLF + b, hasPage);
    var heads := d.out.heads[..i];
    assert Ends(Arrive(c, a), d, hasPage);
    evs := ThreeChunks(a, b);
    e := ThreeChunksRun(c, a, b, d, heads, hasPage);
  }

  lemma InOneChunk(c: Conn, rs: seq<Req>, i: nat, hasPage: string -> bool) returns (e: Conn)
    requires Fresh(c) && FirstMissing(rs, i, hasPage)
    ensures Goes(c, OneChunk(rs), Encode(rs), e, hasPage) && |e.out.heads| == i + 1
  {
    MissingPageDropsTheRest(c, rs, i, hasPage);
    OneChunkRun(c, rs, hasPage);
    e := Run(c, OneChunk(rs), hasPage);
  }

  lemma CutsDisagree(c: Conn, rs: seq<Req>, hasPage: string -> bool)
    requires Fresh(c) && AllPlain(rs) && !AllPages(rs, hasPage)
    ensures !CutsAgree(c, rs, hasPage)
  {
    var i := FindMissing(rs, hasPage);
    var d := InOneChunk(c, rs, i, hasPage);
    var evs, e := InThreeChunks(c, rs, i, hasPage);
    Disagree(c, rs, OneChunk(rs), d, evs, e, hasPage);
  }
}
