/** Request lines and header lines as text: what the older parser accepts and rejects. */
module RequestText {
  import opened HttpParser
  import opened HttpRequests

  predicate BadlyAsked(d: Conn) { d.state == Error && d.fault == BadRequest }

  lemma Behind(c: Conn, msg: string, t: string, more: string)
    requires Valid(c) && c.state != Success && t != "" && t[0] !in msg && Unread(c) == msg + (t + more)
    ensures Found(c, t) && Message(c, t) == msg && Unread(Past(c, t)) == more
  {
    assert msg + (t + more) == msg + t + more;
    FoundBehind(c, msg, t, more);
  }

  lemma FirstWord(c: Conn, verb: string, more: string)
    requires Valid(c) && c.state == Request && ' ' !in verb && Unread(c) == verb + (" /" + more)
    ensures var d := ParseVerb(c);
      if verb == "GET" || verb == "POST" then
        d == c.(pos := d.pos, verb := if verb == "GET" then Get else Post) && Unread(d) == more
      else BadlyAsked(d)
  {
    Behind(c, verb, " /", more);
  }

  /** The page a request asks for. */
  function PageOf(path: string): string { if path == "" then "index.html" else path }

  lemma SecondWord(c: Conn, path: string, more: string, hasPage: string -> bool)
    requires Valid(c) && c.state == Request && ' ' !in path && Unread(c) == path + (" " + more)
    ensures var d := ParseTarget(c, hasPage);
      if hasPage(PageOf(path)) then d == c.(pos := d.pos, file := PageOf(path)) && Unread(d) == more
      else d.state == Error && d.fault == NotFound
  {
    Behind(c, path, " ", more);
  }

  lemma ThirdWord(c: Conn, version: string, more: string)
    requires Valid(c) && c.state == Request && '\r' !in version && Unread(c) == version + (CRLF + more)
    ensures var d := ParseVersion(c);
      if version == "HTTP/1.0" || version == "HTTP/1.1" then
        && d == c.(pos := d.pos, state := Header, version := if version == "HTTP/1.0" then Http10 else Http11)
        && Unread(d) == more
      else BadlyAsked(d)
  {
    Behind(c, version, CRLF, more);
  }

  /** Three words: the first must be GET or POST, the second names a page that must be there (the index page if it is
      empty), the third must be one of two versions. They are looked at in this order. */
  lemma RequestLine(c: Conn, verb: string, path: string, version: string, more: string, hasPage: string -> bool)
    requires Valid(c) && c.state == Request && ' ' !in verb && ' ' !in path && '\r' !in version
    requires Unread(c) == verb + (" /" + (path + (" " + (version + (CRLF + more)))))
    ensures var d := ParseRequest(c, hasPage);
      if verb != "GET" && verb != "POST" then BadlyAsked(d)
      else if !hasPage(if path == "" then "index.html" else path) then d.state == Error && d.fault == NotFound
      else if version != "HTTP/1.0" && version != "HTTP/1.1" then BadlyAsked(d)
      else
        && d.state == Header && Unread(d) == more && d.file == (if path == "" then "index.html" else path)
        && d.verb == (if verb == "GET" then Get else Post)
        && d.version == (if version == "HTTP/1.0" then Http10 else Http11)
  {
    var third := version + (CRLF + more);
    FirstWord(c, verb, path + (" " + third));
    var c1 := ParseVerb(c);
    if c1.state != Error {
      SecondWord(c1, path, third, hasPage);
      var c2 := ParseTarget(c1, hasPage);
      if c2.state != Error {
        ThirdWord(c2, version, more);
      }
    }
  }

  /** One word is no request line. */
  lemma OneWord(c: Conn, hasPage: string -> bool)
    requires Valid(c) && c.state == Request && ' ' !in Unread(c)
    ensures BadlyAsked(ParseRequest(c, hasPage))
  {
    IndexNone(Unread(c), " /");
  }

  /** Nor are two. */
  lemma TwoWords(c: Conn, verb: string, rest: string, hasPage: string -> bool)
    requires Valid(c) && c.state == Request && ' ' !in verb && ' ' !in rest && Unread(c) == verb + (" /" + rest)
    ensures BadlyAsked(ParseRequest(c, hasPage))
  {
    FirstWord(c, verb, rest);
    IndexNone(rest, " ");
  }

  predicate Occurs(s: string, t: string)
    requires t != ""
  {
    Index(s, t) < |s|
  }

  lemma {:induction false} SkipLine(line: string, more: string)
    requires !Occurs(line, ": ")
    ensures Index(line + CRLF + more, ": ") == |line| + 2 + Index(more, ": ")
  {
    if line == "" {
      IndexSkip(CRLF, more, ": ");
      assert line + CRLF + more == CRLF + more;
    } else {
      var text := line + CRLF + more;
      NoMatchHere(line, more);
      SkipLine(line[1..], more);
      assert text[1..] == line[1..] + CRLF + more;
    }
  }

  lemma NoMatchHere(line: string, more: string)
    requires line != "" && !Occurs(line, ": ")
    ensures !(": " <= line + CRLF + more) && !Occurs(line[1..], ": ")
  {
    var text := line + CRLF + more;
    assert text[0] == line[0] && text[1] == if |line| > 1 then line[1] else '\r';
    assert |line| > 1 && line[0] == ':' && line[1] == ' ' ==> ": " <= line;
  }

  lemma CutBehind(front: string, more: string, n: nat)
    requires n + 2 <= |more|
    ensures (front + more)[..|front| + n] == front + more[..n]
    ensures (front + more)[|front| + n + 2..] == more[n + 2..]
  {
  }

  lemma PastIs(c: Conn, t: string)
    requires Valid(c) && c.state != Success && t != "" && Found(c, t)
    ensures Unread(Past(c, t)) == Unread(c)[Index(Unread(c), t) + |t|..]
  {
  }

  lemma KeyBehind(c: Conn, front: string, more: string)
    requires Valid(c) && c.state == Header && Unread(c) == front + more
    requires Index(front + more, ": ") == |front| + Index(more, ": ")
    ensures Found(c, ": ") <==> Occurs(more, ": ")
    ensures Occurs(more, ": ") ==>
      var n := Index(more, ": ");
      Message(c, ": ") == front + more[..n] && Unread(Past(c, ": ")) == more[n + 2..]
  {
    var n := Index(more, ": ");
    assert Index(Unread(c), ": ") == |front| + n && |Unread(c)| == |front| + |more|;
    if n < |more| {
      CutBehind(front, more, n);
      PastIs(c, ": ");
    }
  }

  /** The search for a key goes on behind a line that has none. */
  lemma KeyBehindLine(c: Conn, line: string, more: string)
    requires Valid(c) && c.state == Header && Unread(c) == line + CRLF + more && !Occurs(line, ": ")
    ensures Found(c, ": ") <==> Occurs(more, ": ")
    ensures Occurs(more, ": ") ==>
      var n := Index(more, ": ");
      Message(c, ": ") == line + CRLF + more[..n] && Unread(Past(c, ": ")) == more[n + 2..]
  {
    SkipLine(line, more);
    KeyBehind(c, line + CRLF, more);
  }

  /** A header line without ": " is not what is rejected: the parser looks on behind it. It finds a bad request if and
      only if nothing behind the line has ": " and then a line end; else the line becomes part of the next key. */
  lemma LineWithoutColon(c: Conn, line: string, more: string)
    requires Valid(c) && c.state == Header && Unread(c) == line + CRLF + more
    requires line != "" && '\r' !in line && !Occurs(line, ": ")
    ensures var d, n := ParseHeader(c), Index(more, ": ");
      if Occurs(more, ": ") && Occurs(more[n + 2..], CRLF) then
        && d.state == Header
        && d.headers == c.headers[line + CRLF + more[..n] := more[n + 2..][..Index(more[n + 2..], CRLF)]]
      else BadlyAsked(d) && d.headers == c.headers
  {
    KeyBehindLine(c, line, more);
    assert Unread(c)[0] == line[0] && line[0] in line;
  }

  /** The type of a page is looked up by its name from the first dot on. */
  lemma SuffixIs(front: string, back: string)
    requires '.' !in front
    ensures Suffix(front) == "default" && Suffix(front + "." + back) == "." + back
  {
    IndexNone(front, ".");
    IndexBehind(front, ".", back);
    var n := |front|;
    assert (front + "." + back)[n..] == "." + back;
  }
}
