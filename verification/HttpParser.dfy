/** The request parser of an HTTP connection: a state machine over a growing input buffer. */
module HttpParser {
  datatype Verb = Get | Post
  datatype Version = Http10 | Http11
  datatype State = Error | Request | Header | Success
  datatype Fault = NotFound | BadRequest
  type Headers = map<string, string>

  /** What the parse has made of one head. */
  datatype Verdict = Parsed(verb: Verb, file: string, version: Version, headers: Headers, keepAlive: bool)
                   | Rejected(fault: Fault)

  /** The channel's one write handler; the success handler carries nothing and reads the connection when it runs. */
  datatype Slot = NoHandler | SuccessHandler | ErrorHandler(fault: Fault)

  /** What a write handler writes. A request by POST gets nothing. */
  datatype Response = Page(file: string, fileType: string, keepAlive: bool) | Nothing | ErrorPage(fault: Fault)

  /** The way out: the type of the last page parsed, the write handler, whether the channel waits to write,
      what the parse has finished and what the handlers have written. */
  datatype Outlet = Outlet(fileType: string, slot: Slot, writing: bool, heads: seq<Verdict>, written: seq<Response>)

  datatype Conn = Conn(buf: string, pos: nat, state: State, verb: Verb, version: Version, file: string,
                       headers: Headers, fault: Fault, keepAlive: bool, out: Outlet)

  const CRLF: string := "\r\n"

  /** Where `t` first occurs in `s`, or |s|. */
  function Index(s: string, t: string): (n: nat)
    requires t != ""
    ensures n <= |s| && (n < |s| ==> n + |t| <= |s| && s[n..n + |t|] == t)
  {
    if s == "" || t <= s then 0
    else
      var n := Index(s[1..], t);
      assert n < |s| - 1 ==> s[1..][n..n + |t|] == s[1 + n..1 + n + |t|];
      1 + n
  }

  /** The read position is inside the buffer, and at a line end once a head is complete. */
  predicate Valid(c: Conn) {
    c.pos <= |c.buf| && (c.state == Success ==> CRLF <= c.buf[c.pos..])
  }

  function Unread(c: Conn): string
    requires Valid(c)
  {
    c.buf[c.pos..]
  }

  predicate Found(c: Conn, t: string)
    requires Valid(c) && t != ""
  {
    Index(Unread(c), t) < |Unread(c)|
  }

  function Message(c: Conn, t: string): string
    requires Valid(c) && t != ""
  {
    Unread(c)[..Index(Unread(c), t)]
  }

  function Past(c: Conn, t: string): (d: Conn)
    requires Valid(c) && c.state != Success && t != "" && Found(c, t)
    ensures Valid(d) && |Unread(d)| < |Unread(c)| && d.state == c.state
  {
    c.(pos := c.pos + Index(Unread(c), t) + |t|)
  }

  function Bad(c: Conn, fault: Fault): Conn {
    c.(state := Error, fault := fault)
  }

  function ParseVerb(c: Conn): (d: Conn)
    requires Valid(c) && c.state == Request
    ensures Valid(d) && d.buf == c.buf && d.out == c.out && d.keepAlive == c.keepAlive && d.headers == c.headers
    ensures d.state == Error || (d.state == Request && |Unread(d)| < |Unread(c)|)
    ensures |Unread(d)| <= |Unread(c)|
  {
    if !Found(c, " /") then Bad(c, BadRequest)
    else if Message(c, " /") == "GET" then Past(c, " /").(verb := Get)
    else if Message(c, " /") == "POST" then Past(c, " /").(verb := Post)
    else Bad(Past(c, " /"), BadRequest)
  }

  function Target(path: string): string {
    if path == "" then "index.html" else path
  }

  function ParseTarget(c: Conn, hasPage: string -> bool): (d: Conn)
    requires Valid(c) && c.state == Request
    ensures Valid(d) && d.buf == c.buf && d.out == c.out && d.keepAlive == c.keepAlive && d.headers == c.headers
    ensures d.state == Error || (d.state == Request && |Unread(d)| < |Unread(c)|)
    ensures |Unread(d)| <= |Unread(c)|
  {
    if !Found(c, " ") then Bad(c, BadRequest)
    else
      var d := Past(c, " ").(file := Target(Message(c, " ")));
      if hasPage(d.file) then d else Bad(d, NotFound)
  }

  function ParseVersion(c: Conn): (d: Conn)
    requires Valid(c) && c.state == Request
    ensures Valid(d) && d.buf == c.buf && d.out == c.out && d.keepAlive == c.keepAlive && d.headers == c.headers
    ensures d.state == Error || (d.state == Header && |Unread(d)| < |Unread(c)|)
    ensures |Unread(d)| <= |Unread(c)|
  {
    if !Found(c, CRLF) then Bad(c, BadRequest)
    else if Message(c, CRLF) == "HTTP/1.0" then Past(c, CRLF).(version := Http10, state := Header)
    else if Message(c, CRLF) == "HTTP/1.1" then Past(c, CRLF).(version := Http11, state := Header)
    else Bad(Past(c, CRLF), BadRequest)
  }

  function ParseRequest(c: Conn, hasPage: string -> bool): (d: Conn)
    requires Valid(c) && c.state == Request
    ensures Valid(d) && d.buf == c.buf && d.out == c.out && d.keepAlive == c.keepAlive
    ensures d.state == Error || (d.state == Header && |Unread(d)| < |Unread(c)|)
    ensures |Unread(d)| <= |Unread(c)|
  {
    var c1 := ParseVerb(c);
    var c2 := if c1.state == Error then c1 else ParseTarget(c1, hasPage);
    if c2.state == Error then c2 else ParseVersion(c2)
  }

  function ParseHeader(c: Conn): (d: Conn)
    requires Valid(c) && c.state == Header
    ensures Valid(d) && d.buf == c.buf && d.out == c.out && d.keepAlive == c.keepAlive
    ensures d.state == Error || d.state == Success || (d.state == Header && |Unread(d)| < |Unread(c)|)
    ensures |Unread(d)| <= |Unread(c)|
  {
    if CRLF <= Unread(c) then c.(state := Success)
    else if !Found(c, ": ") then Bad(c, BadRequest)
    else
      var key, c1 := Message(c, ": "), Past(c, ": ");
      if !Found(c1, CRLF) then Bad(c1, BadRequest)
      else Past(c1, CRLF).(headers := c.headers[key := Message(c1, CRLF)])
  }

  /** A head is finished: a handler goes into the slot, and the channel waits to write. */
  function Finish(out: Outlet, v: Verdict, handler: Slot): Outlet {
    out.(slot := handler, writing := true, heads := out.heads + [v])
  }

  function ParseError(c: Conn): (d: Conn)
    ensures Valid(d) && Unread(d) == ""
  {
    c.(buf := "", pos := 0, state := Request, file := "", headers := map[],
       out := Finish(c.out, Rejected(c.fault), ErrorHandler(c.fault)))
  }

  predicate AsksToStay(version: Version, headers: Headers) {
    version == Http11 && "Connection" in headers && headers["Connection"] in {"Keep-Alive", "Keep-alive"}
  }

  /** What the type of a page is looked up by: its name from the first dot on. */
  function Suffix(file: string): string {
    if Index(file, ".") == |file| then "default" else file[Index(file, ".")..]
  }

  function ParseSuccess(c: Conn): (d: Conn)
    requires Valid(c) && c.state == Success
    ensures Valid(d) && |Unread(d)| < |Unread(c)|
  {
    var keep := c.keepAlive || AsksToStay(c.version, c.headers);
    var verdict := Parsed(c.verb, c.file, c.version, c.headers, keep);
    c.(buf := c.buf[c.pos + 2..], pos := 0, state := Request, headers := map[], keepAlive := keep,
       out := Finish(c.out, verdict, SuccessHandler).(fileType := Suffix(c.file)))
  }

  function Step(c: Conn, hasPage: string -> bool): (d: Conn)
    requires Valid(c)
    ensures Valid(d)
  {
    match c.state
    case Error => ParseError(c)
    case Request => ParseRequest(c, hasPage)
    case Header => ParseHeader(c)
    case Success => ParseSuccess(c)
  }

  predicate Ready(c: Conn)
    requires Valid(c)
  {
    |c.buf| > 0 && Found(c, CRLF)
  }

  function Rank(s: State): nat {
    match s case Request => 3 case Header => 2 case Success => 1 case Error => 0
  }

  /** Every step on a buffer with an unread line end reads on or moves to a lower state. */
  lemma Progress(c: Conn, hasPage: string -> bool)
    requires Valid(c) && Ready(c)
    ensures var d := Step(c, hasPage);
      |Unread(d)| < |Unread(c)| || (|Unread(d)| == |Unread(c)| && Rank(d.state) < Rank(c.state))
  {
  }

  /** All steps the buffer allows. */
  function Drain(c: Conn, hasPage: string -> bool): (d: Conn)
    requires Valid(c)
    ensures Valid(d) && !Ready(d)
    decreases |Unread(c)|, Rank(c.state)
  {
    if !Ready(c) then c else Progress(c, hasPage); Drain(Step(c, hasPage), hasPage)
  }

  lemma DrainStep(c: Conn, hasPage: string -> bool)
    requires Valid(c) && Ready(c)
    ensures Drain(c, hasPage) == Drain(Step(c, hasPage), hasPage)
  {
  }

  function Reset(c: Conn): (d: Conn)
    ensures Valid(d)
  {
    c.(file := "", pos := 0, state := Request, headers := map[])
  }

  /** What the handler in the slot writes when it runs. */
  function Respond(c: Conn): Response {
    match c.out.slot
    case ErrorHandler(fault) => ErrorPage(fault)
    case _ => if c.verb == Post then Nothing else Page(c.file, c.out.fileType, c.keepAlive)
  }

  /** The channel's write event: the handler runs, and a success starts the parse over. */
  function RunHandler(c: Conn): (d: Conn)
    requires Valid(c)
    ensures Valid(d)
  {
    var out := c.out.(writing := false, written := c.out.written + [Respond(c)]);
    match c.out.slot
    case NoHandler => c
    case SuccessHandler => Reset(c).(out := out)
    case ErrorHandler(_) => c.(out := out)
  }

  function Arrive(c: Conn, bytes: string): (d: Conn)
    requires Valid(c)
    ensures Valid(d)
  {
    c.(buf := c.buf + bytes)
  }

  /** A connection as the server keeps it; `hasPage` says which pages the server has. */
  class HttpConnection {
    const hasPage: string -> bool
    var inBuffer: string
    var nowReadPos: nat
    var parseState: State
    var verb: Verb
    var version: Version
    var fileName: string
    var headers: Headers
    var errorState: Fault
    var keepAlive: bool
    var out: Outlet
    var deleted: bool

    ghost function View(): Conn
      reads this
    {
      Conn(inBuffer, nowReadPos, parseState, verb, version, fileName, headers, errorState, keepAlive, out)
    }

    constructor (pages: string -> bool)
      ensures hasPage == pages && Valid(View()) && !deleted && out == Outlet("", NoHandler, false, [], [])
      ensures inBuffer == "" && nowReadPos == 0 && parseState == Request && headers == map[] && !keepAlive
    {
      hasPage := pages;
      inBuffer, nowReadPos, parseState, headers, fileName := "", 0, Request, map[], "";
      verb, version, keepAlive, deleted := Get, Http11, false, false;
      errorState, out := *, Outlet("", NoHandler, false, [], []);
    }

    method ResetParse()
      modifies this`fileName, this`nowReadPos, this`parseState, this`headers
      ensures fileName == "" && nowReadPos == 0 && parseState == Request && headers == map[]
    {
      fileName, nowReadPos, parseState, headers := "", 0, Request, map[];
    }

    method FindStrFromBuffer(msg: string, str: string) returns (found: bool, m: string)
      requires Valid(View()) && parseState != Success && str != ""
      modifies this`nowReadPos
      ensures found <==> old(Found(View(), str))
      ensures found ==> m == old(Message(View(), str)) && View() == Past(old(View()), str)
      ensures !found ==> m == msg && View() == old(View())
    {
      var pos := Index(inBuffer[nowReadPos..], str);
      if pos == |inBuffer| - nowReadPos {
        return false, msg;
      }
      m := inBuffer[nowReadPos..][..pos];
      nowReadPos := nowReadPos + pos + |str|;
      return true, m;
    }

    method ParseRequestLine() returns (next: State)
      requires Valid(View()) && parseState == Request
      modifies this`nowReadPos, this`errorState, this`verb, this`fileName, this`version
      ensures View().(state := next) == ParseRequest(old(View()), hasPage)
    {
      ghost var c := View();
      var found, msg := FindStrFromBuffer("", " /");
      if !found {
        errorState := BadRequest;
        return Error;
      } else if msg == "GET" {
        verb := Get;
      } else if msg == "POST" {
        verb := Post;
      } else {
        errorState := BadRequest;
        return Error;
      }
      assert View() == ParseVerb(c);
      next := ParseTargetAndVersion(msg);
    }

    /** The target of the request line, which must name a page. */
    method ParseTargetText() returns (ok: bool)
      requires Valid(View()) && parseState == Request
      modifies this`nowReadPos, this`errorState, this`fileName
      ensures View().(state := if ok then Request else Error) == ParseTarget(old(View()), hasPage)
    {
      var found;
      found, fileName := FindStrFromBuffer(fileName, " ");
      if !found {
        errorState := BadRequest;
        return false;
      }
      if fileName == "" {
        fileName := "index.html";
      }
      if !hasPage(fileName) {
        errorState := NotFound;
        return false;
      }
      return true;
    }

    /** The rest of the request line, behind the method. */
    method ParseTargetAndVersion(previous: string) returns (next: State)
      requires Valid(View()) && parseState == Request
      modifies this`nowReadPos, this`errorState, this`fileName, this`version
      ensures View().(state := next) ==
        var c := ParseTarget(old(View()), hasPage); if c.state == Error then c else ParseVersion(c)
    {
      var ok := ParseTargetText();
      if !ok {
        return Error;
      }
      next := ParseVersionText(previous);
    }

    /** The rest of the request line, behind the target. */
    method ParseVersionText(previous: string) returns (next: State)
      requires Valid(View()) && parseState == Request
      modifies this`nowReadPos, this`errorState, this`version
      ensures View().(state := next) == ParseVersion(old(View()))
    {
      var found, msg := FindStrFromBuffer(previous, CRLF);
      if !found {
        errorState := BadRequest;
        return Error;
      } else if msg == "HTTP/1.0" {
        version := Http10;
      } else if msg == "HTTP/1.1" {
        version := Http11;
      } else {
        errorState := BadRequest;
        return Error;
      }
      return Header;
    }

    method ParseHeaderLine() returns (next: State)
      requires Valid(View()) && parseState == Header && Ready(View())
      modifies this`nowReadPos, this`errorState, this`headers
      ensures View().(state := next) == ParseHeader(old(View()))
    {
      if inBuffer[nowReadPos] == '\r' && inBuffer[nowReadPos + 1] == '\n' {
        return Success;
      }
      var found, key := FindStrFromBuffer("", ": ");
      if !found {
        errorState := BadRequest;
        return Error;
      }
      var value;
      found, value := FindStrFromBuffer("", CRLF);
      if !found {
        errorState := BadRequest;
        return Error;
      }
      headers := headers[key := value];
      return Header;
    }

    method FinishError() returns (next: State)
      requires parseState == Error
      modifies this
      ensures View().(state := next) == ParseError(old(View())) && deleted == old(deleted)
      ensures inBuffer == "" && nowReadPos == 0 && next == Request && fileName == "" && headers == map[]
      ensures out.slot == ErrorHandler(old(errorState)) && out.writing && out.written == old(out.written)
    {
      inBuffer := "";
      nowReadPos := 0;
      ResetParse();
      headers := map[];
      out := Finish(out, Rejected(errorState), ErrorHandler(errorState));
      return Request;
    }

    method FinishSuccess() returns (next: State)
      requires Valid(View()) && parseState == Success
      modifies this
      ensures View().(state := next) == ParseSuccess(old(View())) && deleted == old(deleted)
      ensures inBuffer == old(inBuffer)[old(nowReadPos) + 2..] && nowReadPos == 0 && next == Request && headers == map[]
      ensures verb == old(verb) && fileName == old(fileName) && out.slot == SuccessHandler && out.writing
    {
      inBuffer := inBuffer[nowReadPos + 2..];
      nowReadPos := 0;
      if version == Http11 && "Connection" in headers
         && (headers["Connection"] == "Keep-Alive" || headers["Connection"] == "Keep-alive") {
        keepAlive := true;
      }
      out := Finish(out, Parsed(verb, fileName, version, headers, keepAlive), SuccessHandler)
        .(fileType := Suffix(fileName));
      headers := map[];
      return Request;
    }

    /** Writes what the fields now name, and starts the parse over. */
    method HandleSuccess()
      requires Valid(View()) && out.slot == SuccessHandler
      modifies this
      ensures View() == RunHandler(old(View())) && deleted == old(deleted)
      ensures inBuffer == old(inBuffer) && nowReadPos == 0 && parseState == Request
      ensures fileName == "" && headers == map[]
      ensures !out.writing && out.written ==
        old(out.written) + [if old(verb) == Get then Page(old(fileName), old(out.fileType), keepAlive) else Nothing]
    {
      var response := Nothing;
      if verb == Get {
        response := Page(fileName, out.fileType, keepAlive);
      }
      out := out.(writing := false, written := out.written + [response]);
      ResetParse();
    }

    method HandleError()
      requires Valid(View()) && out.slot.ErrorHandler?
      modifies this`out
      ensures View() == RunHandler(old(View()))
      ensures !out.writing && out.written == old(out.written) + [ErrorPage(old(out.slot.fault))]
    {
      out := out.(writing := false, written := out.written + [ErrorPage(out.slot.fault)]);
    }

    /** The channel's write event runs the handler it has. */
    method HandleWrite()
      requires Valid(View())
      modifies this
      ensures View() == RunHandler(old(View())) && deleted == old(deleted)
    {
      match out.slot
      case NoHandler =>
      case SuccessHandler => HandleSuccess();
      case ErrorHandler(_) => HandleError();
    }

    /** One turn of the read loop: run the parser of the current state. */
    method Dispatch()
      requires Valid(View()) && Ready(View())
      modifies this
      ensures View() == Step(old(View()), hasPage) && deleted == old(deleted)
    {
      ghost var c := View();
      var next;
      match parseState {
        case Error => next := FinishError();
        case Request => next := ParseRequestLine();
        case Header => next := ParseHeaderLine();
        case Success => next := FinishSuccess();
      }
      assert View().(state := next) == Step(c, hasPage);
      parseState := next;
    }

    /** One read event: `bytes` is what the socket gave, `failed` an error or the end of the stream. */
    method HandleRead(bytes: string, failed: bool)
      requires Valid(View())
      modifies this
      ensures failed ==> View() == Reset(Arrive(old(View()), bytes)) && deleted
      ensures failed ==> inBuffer == old(inBuffer) + bytes && nowReadPos == 0 && parseState == Request
      ensures !failed ==> View() == Drain(Arrive(old(View()), bytes), hasPage) && deleted == old(deleted)
    {
      inBuffer := inBuffer + bytes;
      if failed {
        ResetParse();
        deleted := true;
        return;
      }
      ghost var end := Drain(View(), hasPage);
      while |inBuffer| > 0 && Index(inBuffer[nowReadPos..], CRLF) < |inBuffer| - nowReadPos
        invariant Valid(View()) && Drain(View(), hasPage) == end && deleted == old(deleted)
        decreases |inBuffer| - nowReadPos, Rank(parseState)
      {
        Progress(View(), hasPage);
        DrainStep(View(), hasPage);
        Dispatch();
      }
    }
  }
}
