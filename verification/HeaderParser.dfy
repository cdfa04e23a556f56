/** The character machine that reads the header fields of a request. */
module HeaderParser {
  import opened Folding
  import H = HttpRequests
  import HttpParser

  datatype Fold = RunFold  // the predicates this module keeps folded

  type Headers = HttpParser.Headers
  const CRLF: string := HttpParser.CRLF

  datatype Place = Start | Key | Colon | SpacesAfterColon | Value | Cr | Lf | EndCr | EndLf

  /** Where the machine is, the indices it has noted, and the fields it has read. */
  datatype Cursor = Cursor(place: Place, keyStart: int, keyEnd: int, valueStart: int, valueEnd: int,
                           lineBegin: nat, headers: Headers, finished: bool)

  /** `Outside` is a key or value cut out with an index the call has not noted: undefined behaviour in the program. */
  datatype Scan = Rejected | Outside | At(cursor: Cursor, index: nat)

  /** A call starts from the place the last one has left, with no index noted. */
  function Resume(place: Place, headers: Headers): Cursor {
    Cursor(place, -1, -1, -1, -1, 0, headers, false)
  }

  function Begin(headers: Headers): Cursor { Resume(Start, headers) }

  /** The noted indices that a place relies on lie in order before index `i`. */
  predicate InOrder(c: Cursor, i: nat) {
    && c.lineBegin <= i
    && (c.place == Key ==> 0 <= c.keyStart < i)
    && ((c.place == Colon || c.place == SpacesAfterColon) ==> 0 <= c.keyStart < c.keyEnd < i)
    && (c.place == Value ==> 0 <= c.keyStart < c.keyEnd < c.valueStart < i)
    && (c.place == Cr ==> 0 <= c.keyStart < c.keyEnd < c.valueStart < c.valueEnd < i)
  }

  predicate CanCut(c: Cursor, data: string) {
    0 <= c.keyStart <= c.keyEnd <= |data| && 0 <= c.valueStart <= c.valueEnd <= |data|
  }

  /** One character. */
  function Step(c: Cursor, data: string, i: nat): (s: Scan)
    requires i < |data| && c.lineBegin <= i
    ensures s.At? ==> s.index == i + 1 && s.cursor.lineBegin <= i
    ensures InOrder(c, i) ==> s != Outside && (s.At? ==> InOrder(s.cursor, i + 1))
  {
    var ch := data[i];
    match c.place
    case Start =>
      if ch == '\n' || ch == '\r' then At(c, i + 1)
      else At(c.(place := Key, keyStart := i, lineBegin := i), i + 1)
    case Key =>
      if ch == ':' then if i - c.keyStart <= 0 then Rejected else At(c.(place := Colon, keyEnd := i), i + 1)
      else if ch == '\n' || ch == '\r' then Rejected
      else At(c, i + 1)
    case Colon => if ch == ' ' then At(c.(place := SpacesAfterColon), i + 1) else Rejected
    case SpacesAfterColon => At(c.(place := Value, valueStart := i), i + 1)
    case Value =>
      if ch == '\r' then if i - c.valueStart <= 0 then Rejected else At(c.(place := Cr, valueEnd := i), i + 1)
      else if i - c.valueStart > 255 then Rejected
      else At(c, i + 1)
    case Cr =>
      if ch != '\n' then Rejected
      else if !CanCut(c, data) then Outside
      else
        var key, value := data[c.keyStart..c.keyEnd], data[c.valueStart..c.valueEnd];
        At(c.(place := Lf, headers := c.headers[key := value], lineBegin := i), i + 1)
    case Lf =>
      if ch == '\r' then At(c.(place := EndCr), i + 1) else At(c.(place := Key, keyStart := i), i + 1)
    case EndCr => if ch == '\n' then At(c.(place := EndLf), i + 1) else Rejected
    case EndLf => At(c.(finished := true, keyStart := i, lineBegin := i), i + 1)
  }

  /** All characters from index `i` on, up to one past the end of the head. */
  function Run(c: Cursor, data: string, i: nat): (s: Scan)
    requires i <= |data| && c.lineBegin <= i
    ensures s.At? ==> s.index <= |data| && s.cursor.lineBegin <= s.index
    ensures InOrder(c, i) ==> s != Outside && (s.At? ==> InOrder(s.cursor, s.index))
    decreases |data| - i
  {
    if i == |data| || c.finished then At(c, i)
    else
      match Step(c, data, i)
      case Rejected => Rejected
      case Outside => Outside
      case At(d, j) => Run(d, data, j)
  }

  /** `end` is what `Run` gives from `c` at `i` (kept folded: unfold with `Open(RunFold)`). */
  ghost predicate Ends(c: Cursor, data: string, i: nat, end: Scan) {
    i <= |data| && c.lineBegin <= i && forall u {:trigger Open(u)} :: u == RunFold ==> Run(c, data, i) == end
  }

  lemma EndsLater(c: Cursor, data: string, i: nat, end: Scan)
    requires Ends(c, data, i, end)
    ensures i == |data| || c.finished ==> end == At(c, i)
    ensures i < |data| && !c.finished ==>
      match Step(c, data, i)
      case At(d, j) => Ends(d, data, j, end)
      case stopped => end == stopped
  {
    assert Open(RunFold);
  }

  /** What a call returns; `Undefined` where the program has no defined behaviour. */
  datatype HeaderState = Success | Again | Error | Undefined

  class Connection {
    var readBuffer: string
    var place: Place
    var requestHeaders: Headers

    constructor (text: string)
      ensures readBuffer == text && place == Start && requestHeaders == map[]
    {
      readBuffer, place, requestHeaders := text, Start, map[];
    }

    /** Cuts key and value out of the buffer, where that is defined. */
    method StoreField(keyStart: int, keyEnd: int, valueStart: int, valueEnd: int) returns (defined: bool)
      modifies this`requestHeaders
      ensures defined <==> 0 <= keyStart <= keyEnd <= |readBuffer| && 0 <= valueStart <= valueEnd <= |readBuffer|
      ensures defined ==>
        requestHeaders == old(requestHeaders)[readBuffer[keyStart..keyEnd] := readBuffer[valueStart..valueEnd]]
    {
      defined := 0 <= keyStart <= keyEnd <= |readBuffer| && 0 <= valueStart <= valueEnd <= |readBuffer|;
      if defined {
        var key, value := readBuffer[keyStart..keyEnd], readBuffer[valueStart..valueEnd];
        requestHeaders := requestHeaders[key := value];
      }
    }

    /** Reads the header fields at the front of the buffer, character by character, from the place where the last
        call has stopped. */
    method ParseRequestHeader() returns (r: HeaderState)
      modifies this
      ensures match Run(Resume(old(place), old(requestHeaders)), old(readBuffer), 0)
        case Rejected => r == Error && readBuffer == old(readBuffer)
        case Outside => r == Undefined
        case At(c, i) =>
          && place == c.place && requestHeaders == c.headers
          && (c.place == EndLf ==> r == Success && readBuffer == old(readBuffer)[i..])
          && (c.place != EndLf ==> r == Again && readBuffer == old(readBuffer)[c.lineBegin..])
    {
      var keyStart, keyEnd, valueStart, valueEnd := -1, -1, -1, -1;
      var lineBegin, finished, i := 0, false, 0;
      ghost var end := Run(Resume(place, requestHeaders), readBuffer, 0);
      while i < |readBuffer| && !finished
        invariant i <= |readBuffer| && readBuffer == old(readBuffer) && 0 <= lineBegin
        invariant var c := Cursor(place, keyStart, keyEnd, valueStart, valueEnd, lineBegin, requestHeaders, finished);
          Ends(c, readBuffer, i, end)
        decreases |readBuffer| - i
      {
        EndsLater(Cursor(place, keyStart, keyEnd, valueStart, valueEnd, lineBegin, requestHeaders, finished),
                  readBuffer, i, end);
        var ch := readBuffer[i];
        match place {
          case Start =>
            if ch != '\n' && ch != '\r' {
              place, keyStart, lineBegin := Key, i, i;
            }
          case Key =>
            if ch == ':' {
              keyEnd := i;
              if keyEnd - keyStart <= 0 {
                return Error;
              }
              place := Colon;
            } else if ch == '\n' || ch == '\r' {
              return Error;
            }
          case Colon =>
            if ch == ' ' {
              place := SpacesAfterColon;
            } else {
              return Error;
            }
          case SpacesAfterColon =>
            place, valueStart := Value, i;
          case Value =>
            if ch == '\r' {
              place, valueEnd := Cr, i;
              if valueEnd - valueStart <= 0 {
                return Error;
              }
            } else if i - valueStart > 255 {
              return Error;
            }
          case Cr =>
            if ch == '\n' {
              place := Lf;
              var defined := StoreField(keyStart, keyEnd, valueStart, valueEnd);
              if !defined {
                return Undefined;
              }
              lineBegin := i;
            } else {
              return Error;
            }
          case Lf =>
            if ch == '\r' {
              place := EndCr;
            } else {
              place, keyStart := Key, i;
            }
          case EndCr =>
            if ch == '\n' {
              place := EndLf;
            } else {
              return Error;
            }
          case EndLf =>
            finished, keyStart, lineBegin := true, i, i;
        }
        i := i + 1;
      }
      EndsLater(Cursor(place, keyStart, keyEnd, valueStart, valueEnd, lineBegin, requestHeaders, finished),
                readBuffer, i, end);
      if place == EndLf {
        readBuffer := readBuffer[i..];
        return Success;
      }
      readBuffer := readBuffer[lineBegin..];
      return Again;
    }
  }

  /** Going on from `c` at `i` is going on from `d` at `j` (kept folded). */
  ghost predicate Leads(data: string, c: Cursor, i: nat, d: Cursor, j: nat) {
    && i <= |data| && j <= |data| && InOrder(c, i) && InOrder(d, j)
    && forall u {:trigger Open(u)} :: u == RunFold ==> Run(c, data, i) == Run(d, data, j)
  }

  lemma LeadsOn(data: string, c: Cursor, i: nat, d: Cursor, j: nat, e: Cursor, k: nat)
    requires Leads(data, c, i, d, j) && Leads(data, d, j, e, k)
    ensures Leads(data, c, i, e, k)
  {
    assert Open(RunFold);
  }

  lemma LeadsToRejection(data: string, c: Cursor, i: nat, d: Cursor, j: nat)
    requires Leads(data, c, i, d, j) && Run(d, data, j) == Rejected
    ensures Run(c, data, i) == Rejected
  {
    assert Open(RunFold);
  }

  lemma StepLeads(data: string, c: Cursor, i: nat, d: Cursor)
    requires i < |data| && !c.finished && InOrder(c, i) && Step(c, data, i) == At(d, i + 1)
    ensures Leads(data, c, i, d, i + 1)
  {
    assert Run(c, data, i) == Run(d, data, i + 1);
  }

  // Complete heads

  predicate KeyOk(key: string) {
    key != "" && ':' !in key && '\r' !in key && '\n' !in key
  }

  /** A value is not empty and holds no carriage return behind its first character, which may be any. */
  predicate ValueOk(value: string) {
    value != "" && forall k :: 0 < k < |value| ==> value[k] != '\r'
  }

  /** A field that the machine reads, but for the length of its value. */
  predicate FieldOk(f: H.Field) { KeyOk(f.key) && ValueOk(f.value) }

  predicate Short(f: H.Field) { |f.value| <= 256 }

  lemma {:induction false} ScanKey(c: Cursor, data: string, i: nat, j: nat)
    requires c.place == Key && !c.finished && InOrder(c, i) && i <= j <= |data|
    requires forall k :: i <= k < j ==> data[k] != ':' && data[k] != '\r' && data[k] != '\n'
    ensures Leads(data, c, i, c, j)
    decreases j - i
  {
    if i < j {
      StepLeads(data, c, i, c);
      ScanKey(c, data, i + 1, j);
      LeadsOn(data, c, i, c, i + 1, c, j);
    }
  }

  lemma {:induction false} ScanValue(c: Cursor, data: string, i: nat, j: nat)
    requires c.place == Value && !c.finished && InOrder(c, i) && i <= j < |data| && data[j] == '\r'
    requires (forall k :: i <= k < j ==> data[k] != '\r') && j - c.valueStart <= 256
    ensures Leads(data, c, i, c.(place := Cr, valueEnd := j), j + 1)
    decreases j - i
  {
    if i < j {
      StepLeads(data, c, i, c);
      ScanValue(c, data, i + 1, j);
      LeadsOn(data, c, i, c, i + 1, c.(place := Cr, valueEnd := j), j + 1);
    } else {
      StepLeads(data, c, i, c.(place := Cr, valueEnd := j));
    }
  }

  lemma {:induction false} ScanLongValue(c: Cursor, data: string, i: nat)
    requires c.place == Value && !c.finished && InOrder(c, i) && i <= c.valueStart + 256 < |data|
    requires forall k :: i <= k <= c.valueStart + 256 ==> data[k] != '\r'
    ensures Run(c, data, i) == Rejected
    decreases c.valueStart + 256 - i
  {
    if i < c.valueStart + 256 {
      ScanLongValue(c, data, i + 1);
    }
  }

  lemma Associates(a: string, b: string, c: string)
    ensures a + b + c == a + (b + c)
  {
  }

  lemma PartAt(data: string, i: nat, s: string, rest: string)
    requires i <= |data| && data[i..] == s + rest
    ensures i + |s| <= |data| && data[i..i + |s|] == s && data[i + |s|..] == rest
    ensures forall k :: 0 <= k < |s| ==> data[i + k] == s[k]
  {
    assert data[i..i + |s|] == data[i..][..|s|];
    assert forall k :: 0 <= k < |s| ==> data[i + k] == data[i..][k];
  }

  /** From the beginning of a field to the end of its key, which has not been looked at. */
  lemma ScanToKeyEnd(c: Cursor, data: string, i: nat, key: string, rest: string) returns (d: Cursor)
    requires (c.place == Lf || c.place == Start) && !c.finished && InOrder(c, i) && KeyOk(key)
    requires i <= |data| && data[i..] == key + rest
    ensures var j := i + |key|;
      && j <= |data| && data[j..] == rest && Leads(data, c, i, d, j)
      && d.place == Key && !d.finished && d.headers == c.headers && d.keyStart == i && data[i..j] == key
  {
    PartAt(data, i, key, rest);
    var j := i + |key|;
    assert data[i] == data[i + 0] == key[0];
    d := Step(c, data, i).cursor;
    StepLeads(data, c, i, d);
    forall k | i + 1 <= k < j ensures data[k] != ':' && data[k] != '\r' && data[k] != '\n' {
      assert data[k] == data[i + (k - i)] == key[k - i];
    }
    ScanKey(d, data, i + 1, j);
    LeadsOn(data, c, i, d, i + 1, d, j);
  }

  /** From the beginning of a field to the beginning of its value. */
  lemma ScanFieldKey(c: Cursor, data: string, i: nat, key: string, rest: string) returns (d: Cursor)
    requires (c.place == Lf || c.place == Start) && !c.finished && InOrder(c, i) && KeyOk(key)
    requires i <= |data| && data[i..] == key + ": " + rest
    ensures var j := i + |key| + 2;
      && j <= |data| && data[j..] == rest && Leads(data, c, i, d, j)
      && d.place == SpacesAfterColon && !d.finished && d.headers == c.headers
      && 0 <= d.keyStart <= d.keyEnd <= |data| && data[d.keyStart..d.keyEnd] == key
  {
    Associates(key, ": ", rest);
    var c1 := ScanToKeyEnd(c, data, i, key, ": " + rest);
    var j := i + |key|;
    PartAt(data, j, ": ", rest);
    assert data[j] == data[j + 0] == ':' && data[j + 1] == ' ';
    var c2 := c1.(place := Colon, keyEnd := j);
    d := c2.(place := SpacesAfterColon);
    StepLeads(data, c1, j, c2);
    StepLeads(data, c2, j + 1, d);
    LeadsOn(data, c, i, c1, j, c2, j + 1);
    LeadsOn(data, c, i, c2, j + 1, d, j + 2);
  }

  /** From the beginning of a value to the carriage return behind it. */
  lemma ScanToReturn(c: Cursor, data: string, i: nat, value: string, rest: string) returns (d: Cursor)
    requires c.place == SpacesAfterColon && !c.finished && InOrder(c, i) && ValueOk(value) && |value| <= 256
    requires i <= |data| && data[i..] == value + ("\r" + rest)
    ensures var j := i + |value|;
      && j + 1 <= |data| && data[j + 1..] == rest && Leads(data, c, i, d, j + 1)
      && d == c.(place := Cr, valueStart := i, valueEnd := j) && data[i..j] == value
  {
    PartAt(data, i, value, "\r" + rest);
    var j := i + |value|;
    PartAt(data, j, "\r", rest);
    assert data[j] == data[j + 0] == '\r';
    var c1 := c.(place := Value, valueStart := i);
    StepLeads(data, c, i, c1);
    forall k | i + 1 <= k < j ensures data[k] != '\r' {
      assert data[k] == data[i + (k - i)] == value[k - i];
    }
    ScanValue(c1, data, i + 1, j);
    d := c1.(place := Cr, valueEnd := j);
    LeadsOn(data, c, i, c1, i + 1, d, j + 1);
  }

  /** The line end behind a value. */
  lemma ScanLineEnd(c: Cursor, data: string, j: nat, value: string) returns (d: Cursor)
    requires c.place == Cr && !c.finished && InOrder(c, j + 1) && j + 2 <= |data| && data[j + 1] == '\n'
    requires c.valueEnd == j && data[c.valueStart..j] == value
    ensures Leads(data, c, j + 1, d, j + 2)
    ensures d.place == Lf && !d.finished && d.headers == c.headers[data[c.keyStart..c.keyEnd] := value]
  {
    d := Step(c, data, j + 1).cursor;
    StepLeads(data, c, j + 1, d);
  }

  /** From the beginning of a value to the next line. */
  lemma ScanFieldValue(c: Cursor, data: string, i: nat, value: string, rest: string) returns (d: Cursor)
    requires c.place == SpacesAfterColon && !c.finished && InOrder(c, i)
    requires ValueOk(value) && |value| <= 256
    requires i <= |data| && data[i..] == value + CRLF + rest
    ensures var j := i + |value| + 2;
      && j <= |data| && data[j..] == rest && Leads(data, c, i, d, j)
      && d.place == Lf && !d.finished && d.headers == c.headers[data[c.keyStart..c.keyEnd] := value]
  {
    assert value + CRLF + rest == value + ("\r" + ("\n" + rest));
    var j := i + |value|;
    var m := ScanToReturn(c, data, i, value, "\n" + rest);
    PartAt(data, j + 1, "\n", rest);
    assert data[j + 1] == data[(j + 1) + 0] == '\n';
    d := ScanLineEnd(m, data, j, value);
    LeadsOn(data, c, i, m, j + 1, d, j + 2);
  }

  /** A value that is too long, whatever follows it. */
  lemma RejectValue(c: Cursor, data: string, i: nat, value: string, rest: string)
    requires c.place == SpacesAfterColon && !c.finished && InOrder(c, i)
    requires ValueOk(value) && |value| > 256
    requires i <= |data| && data[i..] == value + rest
    ensures Run(c, data, i) == Rejected
  {
    PartAt(data, i, value, rest);
    var c1 := c.(place := Value, valueStart := i);
    assert Step(c, data, i) == At(c1, i + 1);
    forall k | i + 1 <= k <= i + 256 ensures data[k] != '\r' {
      assert data[k] == value[k - i];
    }
    ScanLongValue(c1, data, i + 1);
  }

  lemma Regroup(key: string, value: string, rest: string)
    ensures key + ": " + value + CRLF + rest == key + ": " + (value + CRLF + rest)
  {
  }

  /** One whole field. */
  lemma ScanField(c: Cursor, data: string, i: nat, f: H.Field, rest: string) returns (d: Cursor)
    requires (c.place == Lf || c.place == Start) && !c.finished && InOrder(c, i) && FieldOk(f) && Short(f)
    requires i <= |data| && data[i..] == H.FieldText(f) + CRLF + rest
    ensures var j := i + |H.FieldText(f)| + 2;
      && j <= |data| && data[j..] == rest && Leads(data, c, i, d, j)
      && d.place == Lf && !d.finished && d.headers == c.headers[f.key := f.value]
  {
    Regroup(f.key, f.value, rest);
    var m := ScanFieldKey(c, data, i, f.key, f.value + CRLF + rest);
    d := ScanFieldValue(m, data, i + |f.key| + 2, f.value, rest);
    LeadsOn(data, c, i, m, i + |f.key| + 2, d, i + |H.FieldText(f)| + 2);
  }

  /** Any number of fields. */
  lemma {:induction false} ScanFields(c: Cursor, data: string, i: nat, fs: seq<H.Field>, rest: string)
      returns (d: Cursor, j: nat)
    requires (c.place == Lf || c.place == Start) && !c.finished && InOrder(c, i)
    requires forall f :: f in fs ==> FieldOk(f) && Short(f)
    requires i <= |data| && data[i..] == H.Fields(fs) + rest
    ensures j <= |data| && data[j..] == rest && Leads(data, c, i, d, j)
    ensures !d.finished && d.headers == H.Collect(c.headers, fs) && d.place == if fs == [] then c.place else Lf
    decreases |fs|
  {
    if fs == [] {
      assert H.Fields(fs) + rest == rest;
      d, j := c, i;
    } else {
      var line, more := H.FieldText(fs[0]) + CRLF, H.Fields(fs[1..]);
      assert (line + more) + rest == line + (more + rest);
      assert fs[0] in fs;
      var m := ScanField(c, data, i, fs[0], more + rest);
      var k := i + |H.FieldText(fs[0])| + 2;
      d, j := ScanFields(m, data, k, fs[1..], rest);
      LeadsOn(data, c, i, m, k, d, j);
    }
  }

  /** The head of a request behind its request line, which ends before the line feed. */
  function Head(fs: seq<H.Field>): string {
    "\n" + (H.Fields(fs) + CRLF)
  }

  lemma BlankLine(c: Cursor, data: string, i: nat)
    requires c.place == Lf && !c.finished && InOrder(c, i) && i <= |data| && data[i..] == CRLF
    ensures Run(c, data, i) == At(c.(place := EndLf), |data|)
  {
    assert |data| == i + 2 && data[i] == data[i..][0] && data[i + 1] == data[i..][1];
    var c1 := c.(place := EndCr);
    var c2 := c.(place := EndLf);
    assert Step(c, data, i) == At(c1, i + 1) && Step(c1, data, i + 1) == At(c2, i + 2);
    assert Run(c, data, i) == Run(c1, data, i + 1) == Run(c2, data, i + 2) == At(c2, i + 2);
  }

  lemma FirstLineFeed(headers: Headers, data: string, rest: string)
    requires data == "\n" + rest
    ensures data[1..] == rest && Run(Begin(headers), data, 0) == Run(Begin(headers), data, 1)
  {
    assert data[0] == '\n';
  }

  lemma BlankLineMore(c: Cursor, data: string, i: nat, next: char, more: string) returns (d: Cursor)
    requires c.place == Lf && !c.finished && InOrder(c, i) && i <= |data| && data[i..] == CRLF + [next] + more
    ensures i + 3 <= |data| && Run(c, data, i) == At(d, i + 3) && data[i + 3..] == more
    ensures d.place == EndLf && d.headers == c.headers && d.finished
  {
    PartAt(data, i, CRLF + [next], more);
    assert data[i] == (CRLF + [next])[0] && data[i + 1] == (CRLF + [next])[1];
    var c1 := c.(place := EndCr);
    var c2 := c1.(place := EndLf);
    d := c2.(finished := true, keyStart := i + 2, lineBegin := i + 2);
    assert Step(c, data, i) == At(c1, i + 1) && Step(c1, data, i + 1) == At(c2, i + 2);
    assert Step(c2, data, i + 2) == At(d, i + 3);
    assert Run(c, data, i) == Run(c1, data, i + 1) == Run(c2, data, i + 2) == Run(d, data, i + 3) == At(d, i + 3);
  }

  /** Any blank line, with or without something behind it. */
  lemma EndOfHead(c: Cursor, data: string, i: nat, rest: string) returns (d: Cursor, n: nat)
    requires c.place == Lf && !c.finished && InOrder(c, i) && i <= |data| && data[i..] == CRLF + rest
    ensures n <= |data| && Run(c, data, i) == At(d, n) && data[n..] == (if rest == "" then "" else rest[1..])
    ensures d.place == EndLf && d.headers == c.headers && (d.finished <==> rest != "")
  {
    if rest == "" {
      assert CRLF + rest == CRLF;
      BlankLine(c, data, i);
      d, n := c.(place := EndLf), |data|;
    } else {
      assert CRLF + rest == CRLF + [rest[0]] + rest[1..];
      d := BlankLineMore(c, data, i, rest[0], rest[1..]);
      n := i + 3;
    }
  }

  /** What follows a head loses its first character: the machine only stops one character behind the blank line.
      So a head leaves the buffer as it should if and only if nothing follows it. */
  lemma LeavesRest(headers: Headers, fs: seq<H.Field>, rest: string) returns (d: Cursor, n: nat)
    requires fs != [] && forall f :: f in fs ==> FieldOk(f) && Short(f)
    ensures var data := "\n" + (H.Fields(fs) + (CRLF + rest));
      && Run(Begin(headers), data, 0) == At(d, n) && n <= |data|
      && data[n..] == (if rest == "" then "" else rest[1..])
      && (data[n..] == rest <==> rest == "")
    ensures d.place == EndLf && d.headers == H.Collect(headers, fs) && (d.finished <==> rest != "")
  {
    var data := "\n" + (H.Fields(fs) + (CRLF + rest));
    FirstLineFeed(headers, data, H.Fields(fs) + (CRLF + rest));
    var m, j := ScanFields(Begin(headers), data, 1, fs, CRLF + rest);
    d, n := EndOfHead(m, data, j, rest);
    assert Open(RunFold);
  }

  /** A complete head is read to its end, and its fields are collected, the last value of a key winning. */
  lemma ReadsHead(headers: Headers, fs: seq<H.Field>) returns (d: Cursor)
    requires fs != [] && forall f :: f in fs ==> FieldOk(f) && Short(f)
    ensures Run(Begin(headers), Head(fs), 0) == At(d, |Head(fs)|)
    ensures d.place == EndLf && !d.finished && d.headers == H.Collect(headers, fs)
  {
    var n;
    d, n := LeavesRest(headers, fs, "");
    assert CRLF + "" == CRLF;
  }

  /** Behind the line feed of the request line and any fields. */
  lemma ScanToField(headers: Headers, fs: seq<H.Field>, tail: string) returns (data: string, c: Cursor, i: nat)
    requires forall g :: g in fs ==> FieldOk(g) && Short(g)
    ensures data == "\n" + (H.Fields(fs) + tail) && i <= |data| && data[i..] == tail
    ensures (c.place == Lf || (c.place == Start && fs == [])) && !c.finished && InOrder(c, i)
    ensures Run(c, data, i) == Rejected ==> Run(Begin(headers), data, 0) == Rejected
  {
    data := "\n" + (H.Fields(fs) + tail);
    FirstLineFeed(headers, data, H.Fields(fs) + tail);
    c, i := ScanFields(Begin(headers), data, 1, fs, tail);
    assert Open(RunFold);
  }

  /** A head without fields never ends: in front of the first field line ends are skipped, the blank line's too. */
  lemma EndsIfFields(headers: Headers, fs: seq<H.Field>)
    requires forall f :: f in fs ==> FieldOk(f) && Short(f)
    ensures var s := Run(Begin(headers), Head(fs), 0);
      s.At? && s.index == |Head(fs)| && (s.cursor.place == EndLf <==> fs != [])
  {
    if fs == [] {
      var data, c := Head([]), Begin(headers);
      assert data == "\n\r\n";
      assert Run(c, data, 0) == Run(c, data, 1) == Run(c, data, 2) == Run(c, data, 3);
    } else {
      var d := ReadsHead(headers, fs);
    }
  }

  /** A field whose value is longer than 256 characters is rejected, whatever stands before and behind it. */
  lemma RejectsLongValue(headers: Headers, fs: seq<H.Field>, f: H.Field, rest: string)
    requires (forall g :: g in fs ==> FieldOk(g) && Short(g)) && FieldOk(f) && !Short(f)
    ensures Run(Begin(headers), "\n" + (H.Fields(fs) + (H.FieldText(f) + rest)), 0) == Rejected
  {
    var data, c, i := ScanToField(headers, fs, H.FieldText(f) + rest);
    Associates(f.key + ": ", f.value, rest);
    RejectField(c, data, i, f.key, f.value, rest);
  }

  lemma RejectField(c: Cursor, data: string, i: nat, key: string, value: string, rest: string)
    requires (c.place == Lf || c.place == Start) && !c.finished && InOrder(c, i)
    requires KeyOk(key) && ValueOk(value) && |value| > 256
    requires i <= |data| && data[i..] == key + ": " + (value + rest)
    ensures Run(c, data, i) == Rejected
  {
    var d := ScanFieldKey(c, data, i, key, value + rest);
    var j := i + |key| + 2;
    RejectValue(d, data, j, value, rest);
    LeadsToRejection(data, c, i, d, j);
  }

  lemma BadKeyEnd(c: Cursor, data: string, i: nat, key: string, end: string, rest: string)
    requires (c.place == Lf || c.place == Start) && !c.finished && InOrder(c, i) && KeyOk(key)
    requires end == "\r" || end == "\n" || (|end| == 2 && end[0] == ':' && end[1] != ' ')
    requires i <= |data| && data[i..] == key + (end + rest)
    ensures Run(c, data, i) == Rejected
  {
    var d := ScanToKeyEnd(c, data, i, key, end + rest);
    var j := i + |key|;
    PartAt(data, j, end, rest);
    assert data[j] == data[j + 0] == end[0];
    if end[0] == ':' {
      StepLeads(data, d, j, d.(place := Colon, keyEnd := j));
      LeadsToRejection(data, d, j, d.(place := Colon, keyEnd := j), j + 1);
    }
    LeadsToRejection(data, c, i, d, j);
  }

  /** A key ends with ": " and nothing else: a line end inside it, and a colon with no space behind it, are rejected,
      whatever stands before and behind. */
  lemma RejectsKeyEnd(headers: Headers, fs: seq<H.Field>, key: string, end: string, rest: string)
    requires (forall g :: g in fs ==> FieldOk(g) && Short(g)) && KeyOk(key)
    requires end == "\r" || end == "\n" || (|end| == 2 && end[0] == ':' && end[1] != ' ')
    ensures Run(Begin(headers), "\n" + (H.Fields(fs) + (key + (end + rest))), 0) == Rejected
  {
    var data, c, i := ScanToField(headers, fs, key + (end + rest));
    BadKeyEnd(c, data, i, key, end, rest);
  }

  lemma BadValueEnd(c: Cursor, data: string, i: nat, f: H.Field, next: char, rest: string)
    requires (c.place == Lf || c.place == Start) && !c.finished && InOrder(c, i)
    requires FieldOk(f) && Short(f) && next != '\n'
    requires i <= |data| && data[i..] == H.FieldText(f) + ("\r" + ([next] + rest))
    ensures Run(c, data, i) == Rejected
  {
    Associates(f.key + ": ", f.value, "\r" + ([next] + rest));
    var m := ScanFieldKey(c, data, i, f.key, f.value + ("\r" + ([next] + rest)));
    var k := i + |f.key| + 2;
    var d := ScanToReturn(m, data, k, f.value, [next] + rest);
    var j := k + |f.value| + 1;
    assert data[j] == data[j..][0] == next;
    LeadsToRejection(data, m, k, d, j);
    LeadsToRejection(data, c, i, m, k);
  }

  /** A carriage return behind a value is followed by a line feed, or the head is rejected. */
  lemma RejectsLoneReturn(headers: Headers, fs: seq<H.Field>, f: H.Field, next: char, rest: string)
    requires (forall g :: g in fs ==> FieldOk(g) && Short(g)) && FieldOk(f) && Short(f) && next != '\n'
    ensures Run(Begin(headers), "\n" + (H.Fields(fs) + (H.FieldText(f) + ("\r" + ([next] + rest)))), 0) == Rejected
  {
    var data, c, i := ScanToField(headers, fs, H.FieldText(f) + ("\r" + ([next] + rest)));
    BadValueEnd(c, data, i, f, next, rest);
  }

  /** So is one that begins the blank line. */
  lemma RejectsLoneBlankReturn(headers: Headers, fs: seq<H.Field>, next: char, rest: string)
    requires fs != [] && (forall g :: g in fs ==> FieldOk(g) && Short(g)) && next != '\n'
    ensures Run(Begin(headers), "\n" + (H.Fields(fs) + (['\r', next] + rest)), 0) == Rejected
  {
    var data, c, i := ScanToField(headers, fs, ['\r', next] + rest);
    assert data[i] == data[i..][0] && data[i + 1] == data[i..][1];
    StepLeads(data, c, i, c.(place := EndCr));
    LeadsToRejection(data, c, i, c.(place := EndCr), i + 1);
  }

  /** The first long value, if there is one. */
  lemma {:induction false} FirstLong(fs: seq<H.Field>) returns (n: nat)
    ensures n <= |fs| && (forall i :: 0 <= i < n ==> Short(fs[i])) && (n < |fs| ==> !Short(fs[n]))
    decreases |fs|
  {
    if fs == [] || !Short(fs[0]) {
      n := 0;
    } else {
      n := FirstLong(fs[1..]);
      n := n + 1;
    }
  }

  lemma {:induction false} FieldsSplit(fs: seq<H.Field>, n: nat)
    requires n <= |fs|
    ensures H.Fields(fs) == H.Fields(fs[..n]) + H.Fields(fs[n..])
    decreases n
  {
    if n == 0 {
      assert fs[0..] == fs && fs[..0] == [];
    } else {
      FieldsSplit(fs[1..], n - 1);
      assert fs[..n][1..] == fs[1..][..n - 1] && fs[n..] == fs[1..][n - 1..];
      var line, a, b := H.FieldText(fs[0]) + CRLF, H.Fields(fs[..n][1..]), H.Fields(fs[n..]);
      assert line + (a + b) == line + a + b;
    }
  }

  /** A complete head is accepted exactly when none of its values is longer than 256 characters. */
  lemma AcceptsShortValues(headers: Headers, fs: seq<H.Field>)
    requires fs != [] && forall f :: f in fs ==> FieldOk(f)
    ensures Run(Begin(headers), Head(fs), 0) != Rejected <==> forall f :: f in fs ==> Short(f)
  {
    var n := FirstLong(fs);
    if n == |fs| {
      var d := ReadsHead(headers, fs);
    } else {
      FieldsSplit(fs, n);
      LongField(fs, n);
      var rest := CRLF + H.Fields(fs[n + 1..]) + CRLF;
      RejectsLongValue(headers, fs[..n], fs[n], rest);
      assert fs[n] in fs;
    }
  }

  lemma LongField(fs: seq<H.Field>, n: nat)
    requires n < |fs| && H.Fields(fs) == H.Fields(fs[..n]) + H.Fields(fs[n..])
    ensures Head(fs) ==
      "\n" + (H.Fields(fs[..n]) + (H.FieldText(fs[n]) + (CRLF + H.Fields(fs[n + 1..]) + CRLF)))
  {
    var a, t, b := H.Fields(fs[..n]), H.FieldText(fs[n]), H.Fields(fs[n + 1..]);
    assert fs[n..][1..] == fs[n + 1..] && H.Fields(fs[n..]) == t + CRLF + b;
    Associates(a, t + CRLF + b, CRLF);
    Associates(t + CRLF, b, CRLF);
    Associates(t, CRLF, b + CRLF);
    Associates(CRLF, b, CRLF);
  }

  /** A field without a value is not rejected, although the program tests for one: its line end and the line behind it
      become its value, unless they are too long together. That line may be another field, or the blank line. */
  lemma EmptyValue(headers: Headers, fs: seq<H.Field>, key: string, line: string, more: seq<H.Field>)
    requires (forall g :: g in fs + more ==> FieldOk(g) && Short(g)) && KeyOk(key) && '\r' !in line
    ensures var s := Run(Begin(headers),
                         "\n" + (H.Fields(fs) + (key + ": " + (CRLF + line) + (CRLF + H.Fields(more) + CRLF))), 0);
      && (s == Rejected <==> |line| > 254)
      && (|line| <= 254 ==>
            && s.At? && s.cursor.place == EndLf
            && s.cursor.headers == H.Collect(headers, fs + [H.Field(key, CRLF + line)] + more))
  {
    var f := H.Field(key, CRLF + line);
    assert forall k :: 2 <= k < |f.value| ==> f.value[k] in line;
    assert f.value[1] == '\n';
    if |line| > 254 {
      RejectsLongValue(headers, fs, f, CRLF + H.Fields(more) + CRLF);
    } else {
      var all := fs + [f] + more;
      assert all[..|fs|] == fs && all[|fs| + 1..] == more;
      FieldsSplit(all, |fs|);
      LongField(all, |fs|);
      var d := ReadsHead(headers, all);
    }
  }

  /** The whole call on a complete head with nothing behind it. */
  method ReadHead(fs: seq<H.Field>) returns (c: Connection, r: HeaderState)
    requires fs != [] && forall f :: f in fs ==> FieldOk(f)
    ensures r == (if forall f :: f in fs ==> Short(f) then Success else Error)
    ensures r == Success ==> c.readBuffer == "" && c.requestHeaders == H.Collect(map[], fs)
  {
    c := new Connection(Head(fs));
    r := c.ParseRequestHeader();
    AcceptsShortValues(map[], fs);
    if forall f :: f in fs ==> Short(f) {
      ghost var d := ReadsHead(map[], fs);
    }
  }
}
