/** Request heads as text, and what a connection makes of them however their bytes arrive. */
module HttpRequests {
  import opened Folding
  import opened HttpParser

  datatype Fold = HeadFold | DrainFold  // the predicates this module keeps folded

  datatype Field = Field(key: string, value: string)
  datatype Req = Req(verb: Verb, path: string, version: Version, fields: seq<Field>)

  function VerbText(v: Verb): (s: string)
    ensures ' ' !in s && '\r' !in s
  {
    match v case Get => "GET" case Post => "POST"
  }

  function VersionText(v: Version): (s: string)
    ensures '\r' !in s
  {
    match v case Http10 => "HTTP/1.0" case Http11 => "HTTP/1.1"
  }

  function Line(r: Req): string {
    VerbText(r.verb) + " /" + r.path + " " + VersionText(r.version)
  }

  function FieldText(f: Field): string {
    f.key + ": " + f.value
  }

  function Fields(fs: seq<Field>): string {
    if fs == [] then "" else FieldText(fs[0]) + CRLF + Fields(fs[1..])
  }

  function Head(r: Req): string {
    Line(r) + CRLF + (Fields(r.fields) + CRLF)
  }

  function Encode(rs: seq<Req>): string {
    if rs == [] then "" else Head(rs[0]) + Encode(rs[1..])
  }

  predicate FieldOk(f: Field) {
    ':' !in f.key && '\r' !in f.key && '\r' !in f.value
  }

  /** A head the parser is meant for. */
  predicate Plain(r: Req) {
    ' ' !in r.path && '\r' !in r.path && forall f :: f in r.fields ==> FieldOk(f)
  }

  predicate HasPage(r: Req, hasPage: string -> bool) { hasPage(Target(r.path)) }

  predicate WellFormed(r: Req, hasPage: string -> bool) { Plain(r) && HasPage(r, hasPage) }

  predicate AllWellFormed(rs: seq<Req>, hasPage: string -> bool) {
    forall r :: r in rs ==> WellFormed(r, hasPage)
  }

  /** `m` after the fields, a later value of a key replacing an earlier one. */
  function Collect(m: Headers, fs: seq<Field>): Headers
    decreases |fs|
  {
    if fs == [] then m else Collect(m[fs[0].key := fs[0].value], fs[1..])
  }

  function HeadersOf(r: Req): Headers { Collect(map[], r.fields) }

  /** The last value wins. */
  lemma {:induction false} LastWins(m: Headers, fs: seq<Field>, i: nat)
    requires i < |fs| && forall j :: i < j < |fs| ==> fs[j].key != fs[i].key
    ensures fs[i].key in Collect(m, fs) && Collect(m, fs)[fs[i].key] == fs[i].value
    decreases |fs|
  {
    if i == 0 {
      Untouched(m[fs[0].key := fs[0].value], fs[1..], fs[0].key);
    } else {
      LastWins(m[fs[0].key := fs[0].value], fs[1..], i - 1);
    }
  }

  lemma {:induction false} Untouched(m: Headers, fs: seq<Field>, k: string)
    requires forall j :: 0 <= j < |fs| ==> fs[j].key != k
    ensures k in Collect(m, fs) <==> k in m
    ensures k in m ==> Collect(m, fs)[k] == m[k]
    decreases |fs|
  {
    if fs != [] {
      Untouched(m[fs[0].key := fs[0].value], fs[1..], k);
    }
  }

  // Searching

  lemma {:induction false} IndexIs(s: string, t: string, n: nat)
    requires t != "" && n + |t| <= |s| && s[n..n + |t|] == t
    requires forall i :: 0 <= i < n ==> s[i] != t[0]
    ensures Index(s, t) == n
  {
    if n > 0 {
      IndexIs(s[1..], t, n - 1);
    } else {
      assert s[..|t|] == t;
    }
  }

  lemma {:induction false} IndexNone(s: string, t: string)
    requires t != "" && t[0] !in s
    ensures Index(s, t) == |s|
  {
    if s != "" {
      IndexNone(s[1..], t);
      assert s[0] in s;
    }
  }

  /** A text without the first character of `t` is skipped. */
  lemma {:induction false} IndexSkip(a: string, s: string, t: string)
    requires t != "" && t[0] !in a
    ensures Index(a + s, t) == |a| + Index(s, t)
  {
    if a == "" {
      assert a + s == s;
    } else {
      var whole := a + s;
      IndexSkip(a[1..], s, t);
      assert whole[1..] == a[1..] + s;
      assert whole[0] == a[0] && a[0] in a;
    }
  }

  /** `t` is found right behind a `msg` that does not have its first character. */
  lemma IndexBehind(msg: string, t: string, more: string)
    requires t != "" && t[0] !in msg
    ensures Index(msg + t + more, t) == |msg|
    ensures (msg + t + more)[..|msg|] == msg && (msg + t + more)[|msg| + |t|..] == more
  {
    var s := msg + t + more;
    assert s[|msg|..|msg| + |t|] == t;
    IndexIs(s, t, |msg|);
  }

  lemma SplitOff(s: string, rest: string, a: string, b: string)
    requires s + rest == a + b && |a| <= |s|
    ensures s == a + s[|a|..] && s[|a|..] + rest == b
  {
    assert s[..|a|] == (s + rest)[..|a|] == a;
    assert s[|a|..] + rest == (s + rest)[|a|..] == b;
  }

  lemma EndBehindLine(unread: string, rest: string, line: string, more: string, n: nat)
    requires '\r' !in line && unread + rest == line + CRLF + more && n < |unread| && unread[n] == '\r'
    ensures |line| <= n
  {
    assert (unread + rest)[n] == '\r';
    if n < |line| {
      InsideLine(line, more, n);
    }
  }

  lemma InsideLine(line: string, more: string, n: nat)
    requires n < |line|
    ensures (line + CRLF + more)[n] in line
  {
    assert (line + CRLF + more)[n] == line[n];
  }

  lemma StartsWith(s: string, t: string, n: nat)
    requires t != "" && n + |t| <= |s| && s[n..n + |t|] == t
    ensures s[n] == t[0]
  {
    assert s[n] == s[n..n + |t|][0];
  }

  /** A line end in the unread text completes the line it is in. */
  lemma LineArrived(unread: string, rest: string, line: string, more: string)
    requires '\r' !in line && unread + rest == line + CRLF + more && Index(unread, CRLF) < |unread|
    ensures |line| + 2 <= |unread|
    ensures unread == line + CRLF + unread[|line| + 2..] && unread[|line| + 2..] + rest == more
  {
    var n := Index(unread, CRLF);
    StartsWith(unread, CRLF, n);
    EndBehindLine(unread, rest, line, more, n);
    var whole := line + CRLF;
    assert |whole| == |line| + 2;
    SplitOff(unread, rest, whole, more);
  }

  lemma {:induction false} LineEndHere(unread: string, n: nat)
    requires n + 2 <= |unread| && unread[n..n + 2] == CRLF
    ensures Index(unread, CRLF) < |unread|
  {
    if n == 0 {
      assert unread[..2] == CRLF;
    } else {
      LineEndHere(unread[1..], n - 1);
    }
  }

  // Steps on complete lines

  /** What a successful search leaves unread. */
  lemma FoundBehind(c: Conn, msg: string, t: string, more: string)
    requires Valid(c) && c.state != Success && t != "" && t[0] !in msg && Unread(c) == msg + t + more
    ensures Found(c, t) && Message(c, t) == msg && Unread(Past(c, t)) == more
  {
    IndexBehind(msg, t, more);
    assert Unread(Past(c, t)) == Unread(c)[|msg| + |t|..];
  }

  lemma Regroup(a: string, b: string, c: string, d: string, e: string, f: string, g: string)
    ensures a + b + c + d + e + f + g == a + b + (c + d + (e + f + g))
  {
  }

  lemma RequestStep(c: Conn, r: Req, more: string, hasPage: string -> bool)
    requires Valid(c) && c.state == Request && WellFormed(r, hasPage) && Unread(c) == Line(r) + CRLF + more
    ensures var d := ParseRequest(c, hasPage);
      && Unread(d) == more
      && d == c.(pos := d.pos, state := Header, verb := r.verb, file := Target(r.path), version := r.version)
  {
    var version := VersionText(r.version) + CRLF + more;
    var target := r.path + " " + version;
    Regroup(VerbText(r.verb), " /", r.path, " ", VersionText(r.version), CRLF, more);
    VerbStep(c, r.verb, target);
    var d := ParseVerb(c);
    FoundBehind(d, r.path, " ", version);
    VersionStep(ParseTarget(d, hasPage), r.version, more);
  }

  lemma VerbStep(c: Conn, v: Verb, more: string)
    requires Valid(c) && c.state == Request && Unread(c) == VerbText(v) + " /" + more
    ensures var d := ParseVerb(c);
      Unread(d) == more && d == c.(pos := d.pos, verb := v)
  {
    FoundBehind(c, VerbText(v), " /", more);
  }

  lemma VersionStep(c: Conn, v: Version, more: string)
    requires Valid(c) && c.state == Request && Unread(c) == VersionText(v) + CRLF + more
    ensures var d := ParseVersion(c);
      Unread(d) == more && d == c.(pos := d.pos, state := Header, version := v)
  {
    FoundBehind(c, VersionText(v), CRLF, more);
  }

  lemma FieldStep(c: Conn, f: Field, more: string)
    requires Valid(c) && c.state == Header && FieldOk(f) && Unread(c) == FieldText(f) + CRLF + more
    ensures var d := ParseHeader(c);
      && Unread(d) == more
      && d == c.(pos := d.pos, headers := c.headers[f.key := f.value])
  {
    var tail := f.value + CRLF + more;
    assert Unread(c) == f.key + ": " + tail;
    assert Unread(c)[0] != '\r';
    FoundBehind(c, f.key, ": ", tail);
    FoundBehind(Past(c, ": "), f.value, CRLF, more);
  }

  // Runs

  function HeadFor(r: Req, keep: bool): Verdict {
    Parsed(r.verb, Target(r.path), r.version, HeadersOf(r), StaysAfter(r, keep))
  }

  /** How far a conversation is: the requests still open, how many characters of them have come,
      the heads of the others, and whether the connection stays. */
  datatype Talk = Talk(open: seq<Req>, waiting: nat, heads: seq<Verdict>, keep: bool)

  function StaysAfter(r: Req, keep: bool): bool {
    keep || AsksToStay(r.version, HeadersOf(r))
  }

  function HeadSize(r: Req): nat { |Head(r)| }

  /** The first request parsed, once all of its head has come. */
  function ParseFirst(t: Talk): Talk
    requires t.open != [] && t.waiting >= HeadSize(t.open[0])
  {
    var r := t.open[0];
    Talk(t.open[1..], t.waiting - HeadSize(r), t.heads + [HeadFor(r, t.keep)], StaysAfter(r, t.keep))
  }

  /** Every request parsed whose head has come. */
  function ParseAll(t: Talk): Talk
    decreases |t.open|
  {
    if t.open == [] || t.waiting < HeadSize(t.open[0]) then t else ParseAll(ParseFirst(t))
  }

  function More(t: Talk, n: nat): Talk { t.(waiting := t.waiting + n) }

  /** Parsing early does not change what is parsed in the end. */
  lemma {:induction false} ParseEarly(t: Talk, n: nat)
    ensures ParseAll(More(t, n)) == ParseAll(More(ParseAll(t), n))
    decreases |t.open|
  {
    if t.open != [] && t.waiting >= HeadSize(t.open[0]) {
      ParseEarly(ParseFirst(t), n);
      assert ParseFirst(More(t, n)) == More(ParseFirst(t), n);
    }
  }

  lemma {:induction false} OpenWellFormed(t: Talk, hasPage: string -> bool)
    requires AllWellFormed(t.open, hasPage)
    ensures AllWellFormed(ParseAll(t).open, hasPage)
    decreases |t.open|
  {
    if t.open != [] && t.waiting >= HeadSize(t.open[0]) {
      OpenWellFormed(ParseFirst(t), hasPage);
    }
  }

  ghost predicate Reading(c: Conn, r: Req) {
    c.verb == r.verb && c.file == Target(r.path) && c.version == r.version
  }

  /** The connection is at a line of the first request of `rs`, whose fields `left` it has yet to read. */
  ghost predicate InHead(c: Conn, rs: seq<Req>, left: seq<Field>, rest: string) {
    Valid(c) && forall u {:trigger Open(u)} :: u == HeadFold ==>
      && c.buf + rest == Encode(rs)
      && match c.state
         case Error => false
         case Request => c.pos == 0 && c.headers == map[]
         case Header =>
           && rs != [] && Reading(c, rs[0]) && Collect(c.headers, left) == HeadersOf(rs[0])
           && (forall f :: f in left ==> FieldOk(f)) && |Fields(left)| <= |Fields(rs[0].fields)|
           && Unread(c) + rest == Fields(left) + CRLF + Encode(rs[1..])
         case Success =>
           && rs != [] && Reading(c, rs[0]) && c.headers == HeadersOf(rs[0])
           && Unread(c) + rest == CRLF + Encode(rs[1..])
  }

  lemma HeadLine(rs: seq<Req>)
    requires rs != []
    ensures Encode(rs) == Line(rs[0]) + CRLF + (Fields(rs[0].fields) + CRLF + Encode(rs[1..]))
  {
    var a, b, e := Line(rs[0]) + CRLF, Fields(rs[0].fields) + CRLF, Encode(rs[1..]);
    assert (a + b) + e == a + (b + e);
  }

  lemma FieldLine(fs: seq<Field>, e: string)
    requires fs != []
    ensures Fields(fs) + CRLF + e == FieldText(fs[0]) + CRLF + (Fields(fs[1..]) + CRLF + e)
  {
    var a, b := FieldText(fs[0]) + CRLF, Fields(fs[1..]);
    assert (a + b) + CRLF + e == a + (b + CRLF + e);
  }

  lemma LineHasNoEnd(r: Req)
    requires '\r' !in r.path
    ensures '\r' !in Line(r)
  {
  }

  lemma RequestLineHere(c: Conn, rs: seq<Req>, left: seq<Field>, rest: string) returns (more: string)
    requires InHead(c, rs, left, rest) && rs != [] && Plain(rs[0]) && Ready(c) && c.state == Request
    ensures Unread(c) == Line(rs[0]) + CRLF + more
    ensures more + rest == Fields(rs[0].fields) + CRLF + Encode(rs[1..])
    ensures c.buf + rest == Encode(rs) && c.headers == map[]
  {
    assert Open(HeadFold);
    HeadLine(rs);
    LineHasNoEnd(rs[0]);
    assert Unread(c) == c.buf;
    LineArrived(c.buf, rest, Line(rs[0]), Fields(rs[0].fields) + CRLF + Encode(rs[1..]));
    more := c.buf[|Line(rs[0])| + 2..];
  }

  /** Right behind its request line a head has all its fields to come. */
  lemma AtFields(c: Conn, rs: seq<Req>, rest: string)
    requires Valid(c) && c.state == Header && rs != [] && Plain(rs[0]) && Reading(c, rs[0]) && c.headers == map[]
    requires c.buf + rest == Encode(rs) && Unread(c) + rest == Fields(rs[0].fields) + CRLF + Encode(rs[1..])
    ensures InHead(c, rs, rs[0].fields, rest)
  {
    assert Collect(c.headers, rs[0].fields) == HeadersOf(rs[0]);
  }

  lemma StepRequest(c: Conn, rs: seq<Req>, left: seq<Field>, rest: string, hasPage: string -> bool)
    requires InHead(c, rs, left, rest) && rs != [] && WellFormed(rs[0], hasPage) && Ready(c) && c.state == Request
    ensures InHead(ParseRequest(c, hasPage), rs, rs[0].fields, rest)
    ensures ParseRequest(c, hasPage).keepAlive == c.keepAlive
  {
    var more := RequestLineHere(c, rs, left, rest);
    RequestStep(c, rs[0], more, hasPage);
    AtFields(ParseRequest(c, hasPage), rs, rest);
  }

  lemma StepField(c: Conn, rs: seq<Req>, left: seq<Field>, rest: string)
    requires InHead(c, rs, left, rest) && Ready(c) && c.state == Header && left != []
    ensures InHead(ParseHeader(c), rs, left[1..], rest) && ParseHeader(c).keepAlive == c.keepAlive
    ensures ParseHeader(c).state == Header
  {
    assert Open(HeadFold);
    var f, tail, e := left[0], Fields(left[1..]), Encode(rs[1..]);
    assert f in left;
    FieldLine(left, e);
    LineArrived(Unread(c), rest, FieldText(f), tail + CRLF + e);
    FieldStep(c, f, Unread(c)[|FieldText(f)| + 2..]);
  }

  lemma StepBlank(c: Conn, rs: seq<Req>, rest: string)
    requires InHead(c, rs, [], rest) && Ready(c) && c.state == Header
    ensures InHead(ParseHeader(c), rs, [], rest) && ParseHeader(c).keepAlive == c.keepAlive
    ensures ParseHeader(c).state == Success
  {
    assert Open(HeadFold);
    assert Fields([]) + CRLF + Encode(rs[1..]) == "" + CRLF + Encode(rs[1..]);
    LineArrived(Unread(c), rest, "", Encode(rs[1..]));
    assert CRLF <= Unread(c);
  }

  lemma DropLineEnd(buf: string, pos: nat, rest: string, more: string)
    requires pos + 2 <= |buf| && buf[pos..] + rest == CRLF + more
    ensures buf[pos + 2..] + rest == more
  {
    SplitOff(buf[pos..], rest, CRLF, more);
    assert buf[pos + 2..] == buf[pos..][2..];
  }

  lemma BeforeHead(c: Conn, rs: seq<Req>, rest: string)
    requires c.state == Request && c.pos == 0 && c.headers == map[] && c.buf + rest == Encode(rs)
    ensures InHead(c, rs, [], rest)
  {
  }

  lemma TakenSize(buf: string, taken: nat, rest: string, head: string, more: string)
    requires taken <= |buf| && buf + rest == head + more && buf[taken..] + rest == more
    ensures taken == |head|
  {
    assert |buf| + |rest| == |head| + |more| && |buf| - taken + |rest| == |more|;
  }

  lemma AtLastLineEnd(c: Conn, rs: seq<Req>, left: seq<Field>, rest: string)
    requires InHead(c, rs, left, rest) && c.state == Success
    ensures rs != [] && Reading(c, rs[0]) && c.headers == HeadersOf(rs[0])
    ensures c.buf[c.pos + 2..] + rest == Encode(rs[1..]) && c.pos + 2 == |Head(rs[0])|
  {
    assert Open(HeadFold);
    DropLineEnd(c.buf, c.pos, rest, Encode(rs[1..]));
    TakenSize(c.buf, c.pos + 2, rest, Head(rs[0]), Encode(rs[1..]));
  }

  lemma HeadTaken(c: Conn, r: Req)
    requires Valid(c) && c.state == Success && Reading(c, r) && c.headers == HeadersOf(r)
    ensures var d := ParseSuccess(c);
      && d.out.heads == c.out.heads + [HeadFor(r, c.keepAlive)] && d.keepAlive == StaysAfter(r, c.keepAlive)
      && d.buf == c.buf[c.pos + 2..] && d.state == Request && d.pos == 0 && d.headers == map[]
  {
  }

  lemma StepSuccess(c: Conn, rs: seq<Req>, left: seq<Field>, rest: string)
    requires InHead(c, rs, left, rest) && c.state == Success
    ensures var d := ParseSuccess(c);
      && rs != [] && InHead(d, rs[1..], [], rest)
      && d.out.heads == c.out.heads + [HeadFor(rs[0], c.keepAlive)]
      && d.keepAlive == StaysAfter(rs[0], c.keepAlive)
      && |c.buf| == |Head(rs[0])| + |d.buf|
  {
    AtLastLineEnd(c, rs, left, rest);
    HeadTaken(c, rs[0]);
    BeforeHead(ParseSuccess(c), rs[1..], rest);
  }

  lemma NotPastHead(c: Conn, rs: seq<Req>, left: seq<Field>, rest: string)
    requires InHead(c, rs, left, rest) && rs != []
    ensures c.state != Error && c.pos + 2 <= |Head(rs[0])|
    ensures c.buf + rest == Head(rs[0]) + Encode(rs[1..])
  {
    assert Open(HeadFold);
    var n, e := |Head(rs[0])|, |Encode(rs[1..])|;
    assert |c.buf| + |rest| == n + e;
    assert c.state == Header ==> |c.buf| - c.pos + |rest| == |Fields(left)| + 2 + e;
    assert c.state == Success ==> |c.buf| - c.pos + |rest| == 2 + e;
  }

  lemma HeadEnds(r: Req)
    ensures var n := |Head(r)|; n >= 2 && Head(r)[n - 2..n] == CRLF
  {
    assert Head(r) == Line(r) + CRLF + Fields(r.fields) + CRLF;
  }

  lemma EndOfHead(buf: string, head: string, pos: nat)
    requires pos + 2 <= |head| && head <= buf
    ensures buf[pos..][|head| - 2 - pos..|head| - pos] == head[|head| - 2..|head|]
  {
  }

  lemma EndArrived(buf: string, rest: string, pos: nat, head: string, more: string)
    requires buf + rest == head + more && pos + 2 <= |head| <= |buf|
    requires head[|head| - 2..|head|] == CRLF
    ensures Index(buf[pos..], CRLF) < |buf[pos..]|
  {
    SplitOff(buf, rest, head, more);
    EndOfHead(buf, head, pos);
    LineEndHere(buf[pos..], |head| - 2 - pos);
  }

  /** A head that is all there has an unread line end. */
  lemma WaitsForBytes(c: Conn, rs: seq<Req>, left: seq<Field>, rest: string)
    requires InHead(c, rs, left, rest) && !Ready(c) && rs != []
    ensures |c.buf| < |Head(rs[0])|
  {
    NotPastHead(c, rs, left, rest);
    HeadEnds(rs[0]);
    if |c.buf| >= |Head(rs[0])| {
      EndArrived(c.buf, rest, c.pos, Head(rs[0]), Encode(rs[1..]));
    }
  }

  lemma NoRequests(c: Conn, rs: seq<Req>, left: seq<Field>, rest: string)
    requires InHead(c, rs, left, rest) && rs == []
    ensures !Ready(c)
  {
    assert Open(HeadFold);
  }

  /** `d` is where the steps from `c` end (kept folded: unfold with `Open(DrainFold)`). */
  ghost predicate Ends(c: Conn, d: Conn, hasPage: string -> bool) {
    Valid(c) && forall u {:trigger Open(u)} :: u == DrainFold ==> Drain(c, hasPage) == d
  }

  lemma EndsHere(c: Conn, d: Conn, hasPage: string -> bool)
    requires Ends(c, d, hasPage) && !Ready(c)
    ensures d == c
  {
    assert Open(DrainFold);
  }

  lemma EndsLater(c: Conn, d: Conn, hasPage: string -> bool)
    requires Ends(c, d, hasPage) && Ready(c)
    ensures Ends(Step(c, hasPage), d, hasPage)
    ensures var e := Step(c, hasPage);
      |Unread(e)| < |Unread(c)| || (|Unread(e)| == |Unread(c)| && Rank(e.state) < Rank(c.state))
  {
    assert Open(DrainFold);
    Progress(c, hasPage);
    DrainStep(c, hasPage);
  }

  function TalkOf(c: Conn, rs: seq<Req>): Talk { Talk(rs, |c.buf|, c.out.heads, c.keepAlive) }

  /** `d` has parsed exactly the requests of `rs` complete in the buffer of `c`. */
  ghost predicate ParsedTo(c: Conn, d: Conn, rs: seq<Req>, still: seq<Field>, rest: string) {
    var t := ParseAll(TalkOf(c, rs));
    InHead(d, t.open, still, rest) && TalkOf(d, t.open) == t
  }

  lemma ParsedNothing(c: Conn, rs: seq<Req>, left: seq<Field>, rest: string)
    requires InHead(c, rs, left, rest) && !Ready(c)
    ensures ParsedTo(c, c, rs, left, rest)
  {
    if rs != [] {
      WaitsForBytes(c, rs, left, rest);
    }
  }

  /** One step before the end of a head. */
  lemma StepInHead(c: Conn, rs: seq<Req>, left: seq<Field>, rest: string, hasPage: string -> bool)
      returns (still: seq<Field>)
    requires InHead(c, rs, left, rest) && rs != [] && WellFormed(rs[0], hasPage) && Ready(c)
    requires c.state == Request || c.state == Header
    ensures var e := Step(c, hasPage);
      InHead(e, rs, still, rest) && e.buf == c.buf && e.out.heads == c.out.heads && e.keepAlive == c.keepAlive
  {
    if c.state == Request {
      StepRequest(c, rs, left, rest, hasPage);
      still := rs[0].fields;
    } else if left == [] {
      StepBlank(c, rs, rest);
      still := [];
    } else {
      StepField(c, rs, left, rest);
      still := left[1..];
    }
  }

  /** All steps a buffer allows parse exactly the requests complete in it. */
  lemma {:induction false} Drained(c: Conn, d: Conn, rs: seq<Req>, left: seq<Field>, rest: string,
                                   hasPage: string -> bool)
      returns (still: seq<Field>)
    requires InHead(c, rs, left, rest) && AllWellFormed(rs, hasPage) && Ends(c, d, hasPage)
    ensures ParsedTo(c, d, rs, still, rest)
    decreases |Unread(c)|, Rank(c.state)
  {
    if !Ready(c) {
      EndsHere(c, d, hasPage);
      ParsedNothing(c, rs, left, rest);
      return left;
    }
    if rs == [] {
      NoRequests(c, rs, left, rest);
    }
    NotPastHead(c, rs, left, rest);
    EndsLater(c, d, hasPage);
    var e := Step(c, hasPage);
    if c.state == Success {
      StepSuccess(c, rs, left, rest);
      still := Drained(e, d, rs[1..], [], rest, hasPage);
      assert TalkOf(e, rs[1..]) == ParseFirst(TalkOf(c, rs));
    } else {
      var now := StepInHead(c, rs, left, rest, hasPage);
      still := Drained(e, d, rs, now, rest, hasPage);
    }
  }

  // Any order of arrivals and resets

  /** Bytes arrive, or the channel can write and runs its handler. */
  datatype Event = Bytes(bytes: string) | Written

  function TextOf(ev: Event): string {
    match ev case Bytes(b) => b case Written => ""
  }

  function Received(evs: seq<Event>): string
    decreases |evs|
  {
    if evs == [] then "" else Received(evs[..|evs| - 1]) + TextOf(evs[|evs| - 1])
  }

  function Handle(c: Conn, ev: Event, hasPage: string -> bool): (d: Conn)
    requires Valid(c)
    ensures Valid(d)
  {
    match ev case Bytes(b) => Drain(Arrive(c, b), hasPage) case Written => RunHandler(c)
  }

  function Run(c: Conn, evs: seq<Event>, hasPage: string -> bool): (d: Conn)
    requires Valid(c)
    ensures Valid(d)
    decreases |evs|
  {
    if evs == [] then c else Handle(Run(c, evs[..|evs| - 1], hasPage), evs[|evs| - 1], hasPage)
  }

  predicate Fresh(c: Conn) {
    && c.buf == "" && c.pos == 0 && c.state == Request && c.headers == map[] && !c.keepAlive
    && c.out.heads == [] && c.out.slot == NoHandler && !c.out.writing && c.out.written == []
  }

  ghost predicate Settled(c: Conn, t: Talk, still: seq<Field>, rest: string) {
    InHead(c, t.open, still, rest) && TalkOf(c, t.open) == t
  }

  /** The connection is settled where `t` ends up (kept folded: unfold with `Open(DrainFold)`). */
  ghost predicate SettledIn(c: Conn, t: Talk, still: seq<Field>, rest: string) {
    forall u {:trigger Open(u)} :: u == DrainFold ==> Settled(c, ParseAll(t), still, rest)
  }

  lemma HandleBytes(c: Conn, t: Talk, left: seq<Field>, bytes: string, rest: string, hasPage: string -> bool)
      returns (still: seq<Field>)
    requires Settled(c, t, left, bytes + rest) && AllWellFormed(t.open, hasPage)
    ensures Settled(Drain(Arrive(c, bytes), hasPage), ParseAll(More(t, |bytes|)), still, rest)
  {
    var e := Arrive(c, bytes);
    ArriveInHead(c, t.open, left, bytes, rest);
    still := Drained(e, Drain(e, hasPage), t.open, left, rest, hasPage);
    assert TalkOf(e, t.open) == More(t, |bytes|);
  }

  lemma ArriveInHead(c: Conn, rs: seq<Req>, left: seq<Field>, bytes: string, rest: string)
    requires InHead(c, rs, left, bytes + rest)
    ensures InHead(Arrive(c, bytes), rs, left, rest)
  {
    AppendTail(c.buf, bytes, c.pos, rest);
    assert Open(HeadFold);
  }

  lemma AppendTail(a: string, b: string, pos: nat, rest: string)
    requires pos <= |a|
    ensures (a + b) + rest == a + (b + rest) && (a + b)[pos..] + rest == a[pos..] + (b + rest)
    ensures CRLF <= a[pos..] ==> CRLF <= (a + b)[pos..]
  {
    assert (a + b)[pos..] == a[pos..] + b;
  }

  lemma ResetInHead(c: Conn, rs: seq<Req>, left: seq<Field>, rest: string)
    requires InHead(c, rs, left, rest)
    ensures InHead(Reset(c), rs, [], rest)
  {
    assert Open(HeadFold);
  }

  /** A handler that runs in the middle of a head loses nothing: the buffer still begins with that head. */
  lemma WrittenInHead(c: Conn, rs: seq<Req>, left: seq<Field>, rest: string) returns (still: seq<Field>)
    requires InHead(c, rs, left, rest)
    ensures InHead(RunHandler(c), rs, still, rest)
  {
    still := left;
    if c.out.slot == SuccessHandler {
      ResetInHead(c, rs, left, rest);
      still := [];
    }
    assert Open(HeadFold);
  }

  /** `Run` and `Handle` as folded relations: unfold with `Open(DrainFold)`. */
  ghost predicate Reaches(c: Conn, evs: seq<Event>, d: Conn, hasPage: string -> bool) {
    Valid(c) && forall u {:trigger Open(u)} :: u == DrainFold ==> Run(c, evs, hasPage) == d
  }

  ghost predicate Handles(c: Conn, ev: Event, d: Conn, hasPage: string -> bool) {
    Valid(c) && forall u {:trigger Open(u)} :: u == DrainFold ==> Handle(c, ev, hasPage) == d
  }

  lemma ReachesBack(c: Conn, evs: seq<Event>, d: Conn, hasPage: string -> bool) returns (m: Conn)
    requires Reaches(c, evs, d, hasPage)
    ensures evs == [] ==> m == d == c
    ensures evs != [] ==> Reaches(c, evs[..|evs| - 1], m, hasPage) && Handles(m, evs[|evs| - 1], d, hasPage)
  {
    assert Open(DrainFold);
    m := if evs == [] then c else Run(c, evs[..|evs| - 1], hasPage);
  }

  lemma ReceivedBack(evs: seq<Event>, rest: string)
    requires evs != []
    ensures var before, last := Received(evs[..|evs| - 1]), TextOf(evs[|evs| - 1]);
      before + (last + rest) == Received(evs) + rest && |Received(evs)| == |before| + |last|
  {
    var before, last := Received(evs[..|evs| - 1]), TextOf(evs[|evs| - 1]);
    assert before + (last + rest) == before + last + rest;
  }

  /** After any arrivals and resets, a connection is where the received characters alone say. */
  lemma {:induction false} Runs(c: Conn, evs: seq<Event>, d: Conn, rs: seq<Req>, rest: string, hasPage: string -> bool)
      returns (still: seq<Field>)
    requires Fresh(c) && AllWellFormed(rs, hasPage) && Received(evs) + rest == Encode(rs)
    requires Reaches(c, evs, d, hasPage)
    ensures SettledIn(d, Talk(rs, |Received(evs)|, [], false), still, rest)
    decreases |evs|
  {
    var m := ReachesBack(c, evs, d, hasPage);
    if evs == [] {
      FreshSettled(c, rs, rest);
      return [];
    }
    var before, ev := evs[..|evs| - 1], evs[|evs| - 1];
    ReceivedBack(evs, rest);
    still := Runs(c, before, m, rs, TextOf(ev) + rest, hasPage);
    still := HandleEvent(m, d, Talk(rs, |Received(before)|, [], false), still, ev, rest, hasPage);
  }

  lemma HandleEvent(c: Conn, d: Conn, t: Talk, left: seq<Field>, ev: Event, rest: string, hasPage: string -> bool)
      returns (still: seq<Field>)
    requires SettledIn(c, t, left, TextOf(ev) + rest) && AllWellFormed(t.open, hasPage)
    requires Handles(c, ev, d, hasPage)
    ensures SettledIn(d, More(t, |TextOf(ev)|), still, rest)
  {
    assert Open(DrainFold);
    match ev
    case Bytes(b) =>
      OpenWellFormed(t, hasPage);
      still := HandleBytes(c, ParseAll(t), left, b, rest, hasPage);
      ParseEarly(t, |b|);
    case Written =>
      assert "" + rest == rest;
      still := WrittenInHead(c, ParseAll(t).open, left, rest);
  }

  lemma FreshSettled(c: Conn, rs: seq<Req>, rest: string)
    requires Fresh(c) && "" + rest == Encode(rs)
    ensures SettledIn(c, Talk(rs, 0, [], false), [], rest)
  {
    assert Open(DrainFold);
    assert "" + rest == rest;
    assert rs != [] ==> HeadSize(rs[0]) > 0;
  }

  /** One of the first `i` requests asked the connection to stay. */
  ghost predicate Asked(rs: seq<Req>, i: nat)
    requires i <= |rs|
  {
    exists j :: 0 <= j < i && AsksToStay(rs[j].version, HeadersOf(rs[j]))
  }

  /** A talk that began with `rs`: the first requests are parsed, each with what it and the earlier ones asked for. */
  ghost predicate Told(t: Talk, rs: seq<Req>) {
    var k := |t.heads|;
    && k <= |rs| && t.open == rs[k..] && t.keep == Asked(rs, k)
    && forall i :: 0 <= i < k ==> t.heads[i] == HeadFor(rs[i], Asked(rs, i))
  }

  lemma AskedNext(rs: seq<Req>, k: nat)
    requires k < |rs|
    ensures Asked(rs, k + 1) <==> Asked(rs, k) || AsksToStay(rs[k].version, HeadersOf(rs[k]))
  {
  }

  lemma FirstTold(t: Talk, rs: seq<Req>)
    requires Told(t, rs) && t.open != [] && t.waiting >= HeadSize(t.open[0])
    ensures Told(ParseFirst(t), rs)
  {
    var k, u := |t.heads|, ParseFirst(t);
    AskedNext(rs, k);
    assert u.open == rs[k..][1..] == rs[k + 1..];
    assert u.heads == t.heads + [HeadFor(rs[k], Asked(rs, k))];
    forall i | 0 <= i < k + 1 ensures u.heads[i] == HeadFor(rs[i], Asked(rs, i)) {
      assert i < k ==> u.heads[i] == t.heads[i];
    }
  }

  lemma {:induction false} AllTold(t: Talk, rs: seq<Req>)
    requires Told(t, rs)
    ensures Told(ParseAll(t), rs)
    decreases |t.open|
  {
    if t.open != [] && t.waiting >= HeadSize(t.open[0]) {
      FirstTold(t, rs);
      AllTold(ParseFirst(t), rs);
    }
  }

  lemma {:induction false} AllParsed(t: Talk)
    ensures var o := ParseAll(t); o.open != [] ==> o.waiting < HeadSize(o.open[0])
    decreases |t.open|
  {
    if t.open != [] && t.waiting >= HeadSize(t.open[0]) {
      AllParsed(ParseFirst(t));
    }
  }

  /** After any run the heads are those of the complete requests. */
  lemma RunHeads(c: Conn, evs: seq<Event>, rs: seq<Req>, rest: string, hasPage: string -> bool)
    requires Fresh(c) && AllWellFormed(rs, hasPage) && Received(evs) + rest == Encode(rs)
    ensures var d := Run(c, evs, hasPage);
      var k := |d.out.heads|;
      && k <= |rs|
      && (forall i :: 0 <= i < k ==> d.out.heads[i] == HeadFor(rs[i], Asked(rs, i)))
      && d.keepAlive == Asked(rs, k)
      && d.buf + rest == Encode(rs[k..])
      && (k < |rs| ==> |d.buf| < |Head(rs[k])|)
  {
    var still := Runs(c, evs, Run(c, evs, hasPage), rs, rest, hasPage);
    AllTold(Talk(rs, |Received(evs)|, [], false), rs);
    AllParsed(Talk(rs, |Received(evs)|, [], false));
    assert Open(HeadFold) && Open(DrainFold);
  }

  // What a parsed head says

  /** The `j`th field is the last one with this key. */
  predicate IsLast(fs: seq<Field>, key: string, j: nat) {
    j < |fs| && fs[j].key == key && forall l :: j < l < |fs| ==> fs[l].key != key
  }

  lemma {:induction false} FindLast(fs: seq<Field>, key: string, i: nat) returns (j: nat)
    requires i < |fs| && fs[i].key == key
    ensures IsLast(fs, key, j)
    decreases |fs|
  {
    var n := |fs| - 1;
    if fs[n].key == key {
      j := n;
    } else {
      j := FindLast(fs[..n], key, i);
    }
  }

  /** The headers of a request are the last value of each key, and nothing else. */
  ghost predicate HeadersSay(headers: Headers, fs: seq<Field>) {
    && (forall key, j: nat :: IsLast(fs, key, j) ==> key in headers && headers[key] == fs[j].value)
    && (forall key :: key in headers ==> exists j: nat :: IsLast(fs, key, j))
  }

  lemma HeadersMean(r: Req)
    ensures HeadersSay(HeadersOf(r), r.fields)
  {
    var headers := HeadersOf(r);
    forall key, j: nat | IsLast(r.fields, key, j) ensures key in headers && headers[key] == r.fields[j].value {
      LastWins(map[], r.fields, j);
    }
    forall key | key in headers ensures exists j: nat :: IsLast(r.fields, key, j) {
      if forall i :: 0 <= i < |r.fields| ==> r.fields[i].key != key {
        Untouched(map[], r.fields, key);
      } else {
        var i :| 0 <= i < |r.fields| && r.fields[i].key == key;
        var j := FindLast(r.fields, key, i);
      }
    }
  }

  /** A request by HTTP/1.1 whose last Connection field asks to keep the connection alive. */
  ghost predicate WantsToStay(r: Req) {
    r.version == Http11 && exists j: nat ::
      IsLast(r.fields, "Connection", j) && (r.fields[j].value == "Keep-Alive" || r.fields[j].value == "Keep-alive")
  }

  lemma AsksInFields(r: Req)
    ensures AsksToStay(r.version, HeadersOf(r)) <==> WantsToStay(r)
  {
    HeadersMean(r);
  }

  /** One of the first `i` requests wants the connection to stay. */
  ghost predicate Wanted(rs: seq<Req>, i: nat)
    requires i <= |rs|
  {
    exists j :: 0 <= j < i && WantsToStay(rs[j])
  }

  lemma AskedIsWanted(rs: seq<Req>, i: nat)
    requires i <= |rs|
    ensures Asked(rs, i) <==> Wanted(rs, i)
  {
    forall j | 0 <= j < i ensures AsksToStay(rs[j].version, HeadersOf(rs[j])) <==> WantsToStay(rs[j]) {
      AsksInFields(rs[j]);
    }
  }

  /** What the head of the `i`th request has to say: its method, version and fields, the file it names (the index page
      if it names none), and whether it or one before it wants the connection to stay. */
  ghost predicate Says(v: Verdict, rs: seq<Req>, i: nat)
    requires i < |rs|
  {
    && v.Parsed? && v.verb == rs[i].verb && v.version == rs[i].version
    && v.file == (if rs[i].path == "" then "index.html" else rs[i].path)
    && HeadersSay(v.headers, rs[i].fields) && (v.keepAlive <==> Wanted(rs, i + 1))
  }

  lemma HeadSays(rs: seq<Req>, i: nat)
    requires i < |rs|
    ensures Says(HeadFor(rs[i], Asked(rs, i)), rs, i)
  {
    HeadersMean(rs[i]);
    AskedNext(rs, i);
    AskedIsWanted(rs, i + 1);
  }

  /** However the text of well-formed requests is cut into chunks, and whenever a written response resets the parse,
      exactly the requests whose heads are complete have been parsed, in order and saying what was sent, the connection
      stays if one of them wants it, and the buffer holds what has come of the next one. */
  lemma ChunksDoNotMatter(c: Conn, evs: seq<Event>, rs: seq<Req>, rest: string, hasPage: string -> bool)
    requires Fresh(c) && AllWellFormed(rs, hasPage) && Received(evs) + rest == Encode(rs)
    ensures var d := Run(c, evs, hasPage);
      var k := |d.out.heads|;
      && k <= |rs|
      && (forall i :: 0 <= i < k ==> Says(d.out.heads[i], rs, i))
      && (d.keepAlive <==> Wanted(rs, k))
      && d.buf + rest == Encode(rs[k..])
      && (k < |rs| ==> |d.buf| < |Head(rs[k])|)
  {
    RunHeads(c, evs, rs, rest, hasPage);
    var d := Run(c, evs, hasPage);
    forall i | 0 <= i < |d.out.heads| ensures Says(d.out.heads[i], rs, i) {
      HeadSays(rs, i);
    }
    AskedIsWanted(rs, |d.out.heads|);
  }

  lemma {:induction false} EncodeSplit(rs: seq<Req>, k: nat)
    requires k <= |rs|
    ensures |Encode(rs)| == |Encode(rs[..k])| + |Encode(rs[k..])|
    decreases k
  {
    if k == 0 {
      assert rs[0..] == rs;
    } else {
      EncodeSplit(rs[1..], k - 1);
      assert rs[..k][1..] == rs[1..][..k - 1] && rs[1..][k - 1..] == rs[k..];
    }
  }

  /** More requests take more characters. */
  lemma EncodeGrows(rs: seq<Req>, i: nat, k: nat)
    requires i <= k <= |rs|
    ensures |Encode(rs[..i])| <= |Encode(rs[..k])|
    ensures i < k ==> |Encode(rs[..i])| + |Head(rs[i])| <= |Encode(rs[..k])|
  {
    EncodeSplit(rs[..k], i);
    assert rs[..k][..i] == rs[..i];
    assert i < k ==> Encode(rs[..k][i..]) == Head(rs[i]) + Encode(rs[..k][i..][1..]);
  }

  /** The last read fails, or meets the end of the stream behind `last`. */
  function HangUp(c: Conn, last: string): (d: Conn)
    requires Valid(c)
    ensures Valid(d)
  {
    Reset(Arrive(c, last))
  }

  /** Whatever comes in the read that ends a connection is not parsed: of well-formed requests exactly those are whose
      heads came whole before it. A client that sends its requests and closes at once has none of them parsed. */
  lemma LastReadUnparsed(c: Conn, evs: seq<Event>, last: string, rs: seq<Req>, rest: string, i: nat,
                         hasPage: string -> bool)
    requires Fresh(c) && AllWellFormed(rs, hasPage) && Received(evs) + (last + rest) == Encode(rs) && i <= |rs|
    ensures var d := HangUp(Run(c, evs, hasPage), last);
      && d.out == Run(c, evs, hasPage).out
      && (i <= |d.out.heads| <==> |Encode(rs[..i])| <= |Received(evs)|)
      && (evs == [] ==> d.out.heads == [])
      && (rest == "" ==> (|d.out.heads| == |rs| <==> last == ""))
  {
    var m := Run(c, evs, hasPage);
    var k := |m.out.heads|;
    RunHeads(c, evs, rs, last + rest, hasPage);
    EncodeSplit(rs, k);
    assert |m.buf| + |last + rest| == |Encode(rs[k..])|;
    assert |Received(evs)| + |last + rest| == |Encode(rs)|;
    if i <= k {
      EncodeGrows(rs, i, k);
    } else {
      EncodeGrows(rs, k, i);
    }
    if k == |rs| {
      assert |m.buf| + |last + rest| == 0;
    } else {
      EncodeGrows(rs, k, |rs|);
      assert rs[..|rs|] == rs;
    }
  }

  /** Two ways to cut the same characters end alike. */
  lemma SameCharactersSameHeads(c: Conn, evs: seq<Event>, others: seq<Event>, rs: seq<Req>, rest: string,
                                  hasPage: string -> bool)
    requires Fresh(c) && AllWellFormed(rs, hasPage)
    requires Received(evs) + rest == Encode(rs) && Received(others) == Received(evs)
    ensures var d, e := Run(c, evs, hasPage), Run(c, others, hasPage);
      d.out.heads == e.out.heads && d.keepAlive == e.keepAlive && d.buf == e.buf
  {
    var d, e := Run(c, evs, hasPage), Run(c, others, hasPage);
    var s := Runs(c, evs, d, rs, rest, hasPage);
    var t := Runs(c, others, e, rs, rest, hasPage);
    assert Open(HeadFold) && Open(DrainFold);
    assert d.buf + rest == e.buf + rest;
    assert d.buf == (d.buf + rest)[..|d.buf|];
  }
}
