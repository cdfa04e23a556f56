/** A head that arrives in two pieces: the header machine keeps its place between two calls, but not its indices. */
module HeaderCuts {
  import opened HeaderParser
  import H = HttpRequests

  // The first call

  /** What a call that waits for more keeps: the buffer from the line that the machine is in, with the line feed in
      front of it, except for the first line. */
  predicate Kept(c: Cursor, data: string, i: nat) {
    && (c.place == Start ==> c.lineBegin == 0 && c.headers == map[])
    && (c.place in {Key, Colon, SpacesAfterColon, Value, Cr} && c.keyStart >= 0 ==>
          if c.headers == map[] then c.lineBegin == c.keyStart
          else c.lineBegin + 1 == c.keyStart <= |data| && data[c.lineBegin] == '\n')
    && (c.place == Lf ==> c.lineBegin + 1 == i <= |data| && data[c.lineBegin] == '\n' && c.headers != map[])
    && (c.place == EndCr ==> c.lineBegin + 2 == i <= |data| && data[c.lineBegin] == '\n')
  }

  lemma StepKept(c: Cursor, data: string, i: nat)
    requires i < |data| && c.lineBegin <= i && Kept(c, data, i) && !c.finished && Step(c, data, i).At?
    ensures Kept(Step(c, data, i).cursor, data, i + 1)
  {
    var d := Step(c, data, i).cursor;
    if c.place == Cr {
      assert data[c.keyStart..c.keyEnd] in d.headers;
    }
  }

  lemma {:induction false} AlwaysKept(c: Cursor, data: string, i: nat)
    requires i <= |data| && c.lineBegin <= i && Kept(c, data, i)
    ensures Run(c, data, i).At? ==> Kept(Run(c, data, i).cursor, data, Run(c, data, i).index)
    decreases |data| - i
  {
    if i < |data| && !c.finished && Step(c, data, i).At? {
      StepKept(c, data, i);
      AlwaysKept(Step(c, data, i).cursor, data, i + 1);
    }
  }

  lemma {:induction false} NeverBack(c: Cursor, data: string, i: nat)
    requires i <= |data| && c.lineBegin <= i && c.place != Start
    ensures Run(c, data, i).At? ==> Run(c, data, i).cursor.place != Start
    decreases |data| - i
  {
    if i < |data| && !c.finished && Step(c, data, i).At? {
      NeverBack(Step(c, data, i).cursor, data, i + 1);
    }
  }

  lemma SameStep(c: Cursor, front: string, data: string, i: nat)
    requires front <= data && i < |front| && InOrder(c, i)
    ensures Step(c, front, i) == Step(c, data, i)
  {
    if c.place == Cr {
      assert front[c.keyStart..c.keyEnd] == data[c.keyStart..c.keyEnd];
      assert front[c.valueStart..c.valueEnd] == data[c.valueStart..c.valueEnd];
    }
  }

  /** A run goes on where the run on the first characters has stopped. */
  lemma {:induction false} RunOn(c: Cursor, front: string, data: string, i: nat)
    requires front <= data && i <= |front| && InOrder(c, i)
    ensures match Run(c, front, i)
      case At(d, j) => (j == |front| || d.finished) && Run(d, data, j) == Run(c, data, i)
      case stopped => Run(c, data, i) == stopped
    decreases |front| - i
  {
    if i < |front| && !c.finished {
      SameStep(c, front, data, i);
      if Step(c, data, i).At? {
        RunOn(Step(c, data, i).cursor, front, data, i + 1);
      }
    }
  }

  // The second call

  /** In the middle of a field whose beginning has not been noted. */
  predicate Unnoted(c: Cursor) {
    c.place in {Key, Colon, SpacesAfterColon, Value, Cr} && !c.finished && c.keyStart < 0
  }

  lemma {:induction false} NeverEnds(c: Cursor, data: string, i: nat)
    requires i <= |data| && c.lineBegin <= i && Unnoted(c)
    ensures Run(c, data, i).At? ==> Run(c, data, i).cursor.place != EndLf
    decreases |data| - i
  {
    if i < |data| && Step(c, data, i).At? {
      NeverEnds(Step(c, data, i).cursor, data, i + 1);
    }
  }

  /** A key that begins with the line feed of the line before. */
  ghost predicate OddKey(headers: Headers) {
    exists k :: k in headers && k != "" && k[0] == '\n'
  }

  /** In the field that will have such a key, or behind it. */
  ghost predicate Odd(c: Cursor, data: string) {
    OddKey(c.headers)
    || (c.place in {Key, Colon, SpacesAfterColon, Value, Cr} && c.keyStart == 0
        && (c.place != Key ==> c.keyEnd > 0) && data != "" && data[0] == '\n')
  }

  lemma StepOdd(c: Cursor, data: string, i: nat)
    requires i < |data| && c.lineBegin <= i && Odd(c, data) && Step(c, data, i).At?
    ensures Odd(Step(c, data, i).cursor, data)
  {
    var d := Step(c, data, i).cursor;
    if c.place == Cr {
      var key := data[c.keyStart..c.keyEnd];
      if OddKey(c.headers) {
        var k :| k in c.headers && k != "" && k[0] == '\n';
        assert k in d.headers;
      } else {
        assert key in d.headers && key != "" && key[0] == '\n';
      }
    }
  }

  lemma {:induction false} StaysOdd(c: Cursor, data: string, i: nat)
    requires i <= |data| && c.lineBegin <= i && Odd(c, data)
    ensures Run(c, data, i).At? ==> Odd(Run(c, data, i).cursor, data)
    decreases |data| - i
  {
    if i < |data| && !c.finished && Step(c, data, i).At? {
      StepOdd(c, data, i);
      StaysOdd(Step(c, data, i).cursor, data, i + 1);
    }
  }

  lemma {:induction false} NoOddKey(m: Headers, fs: seq<H.Field>)
    requires !OddKey(m) && forall f :: f in fs ==> FieldOk(f)
    ensures !OddKey(H.Collect(m, fs))
    decreases |fs|
  {
    if fs != [] {
      assert fs[0] in fs;
      NoOddKey(m[fs[0].key := fs[0].value], fs[1..]);
    }
  }

  // Both calls

  /** A call that ends as the call on the whole head does: the fields are collected and nothing is left over. */
  predicate ReadsAll(s: Scan, data: string, fs: seq<H.Field>) {
    s.At? && s.cursor.place == EndLf && s.cursor.headers == H.Collect(map[], fs) && s.index == |data|
  }

  lemma NotEnded(d: Cursor, data: string, n: nat)
    requires n < |data| && d.lineBegin <= n && d.place == EndLf
    ensures Run(d, data, n).At? && (d.finished || Run(d, data, n).cursor.finished)
  {
    assert d.finished || Step(d, data, n).cursor.finished;
  }

  /** The first call on a cut head takes all it gets and waits for more; it is at the start only in front of the first
      key. */
  lemma FirstCall(fs: seq<H.Field>, n: nat) returns (c: Cursor)
    requires fs != [] && (forall f :: f in fs ==> FieldOk(f) && Short(f)) && n < |Head(fs)|
    ensures Run(Begin(map[]), Head(fs)[..n], 0) == At(c, n) && c.place != EndLf && !c.finished
    ensures Kept(c, Head(fs), n) && c.lineBegin <= n && (c.place == Start <==> n <= 1)
    ensures Run(c, Head(fs), n) == Run(Begin(map[]), Head(fs), 0)
  {
    var data, b := Head(fs), Begin(map[]);
    var end := ReadsHead(map[], fs);
    RunOn(b, data[..n], data, 0);
    c := Run(b, data[..n], 0).cursor;
    AlwaysKept(b, data[..n], 0);
    if c.finished || c.place == EndLf {
      NotEnded(c, data, Run(b, data[..n], 0).index);
    }
    AtStart(fs, n);
  }

  lemma AtStart(fs: seq<H.Field>, n: nat)
    requires fs != [] && FieldOk(fs[0]) && n <= |Head(fs)|
    ensures var s := Run(Begin(map[]), Head(fs)[..n], 0); s.At? ==> (s.cursor.place == Start <==> n <= 1)
  {
    var front, b := Head(fs)[..n], Begin(map[]);
    assert Head(fs)[0] == '\n' && Head(fs)[1] == fs[0].key[0];
    if n > 0 {
      assert front[0] == '\n' && Step(b, front, 0) == At(b, 1);
    }
    if n > 1 {
      var c := Step(b, front, 1).cursor;
      assert front[1] == fs[0].key[0] && Step(b, front, 1) == At(c, 2) && c.place == Key;
      NeverBack(c, front, 2);
    }
  }

  lemma JoinCut(data: string, n: nat, k: nat)
    requires k <= n <= |data|
    ensures data[..n][k..] + data[n..] == data[k..]
  {
  }

  /** A head cut in two is read as if it had come whole if and only if the first call is still at the start, that is,
      has got no more than the line feed of the request line. */
  lemma CutHead(fs: seq<H.Field>, n: nat)
    requires fs != [] && (forall f :: f in fs ==> FieldOk(f) && Short(f)) && n < |Head(fs)|
    ensures var first := Run(Begin(map[]), Head(fs)[..n], 0);
      && first.At? && first.index == n && first.cursor.place != EndLf && Kept(first.cursor, Head(fs), n)
      && var c := first.cursor;
         var buffer := Head(fs)[..n][c.lineBegin..] + Head(fs)[n..];
         (ReadsAll(Run(Resume(c.place, c.headers), buffer, 0), buffer, fs) <==> c.place == Start)
         && (c.place == Start <==> n <= 1)
  {
    var data := Head(fs);
    var c := FirstCall(fs, n);
    var buffer := data[c.lineBegin..];
    JoinCut(data, n, c.lineBegin);
    var r := Resume(c.place, c.headers);
    if c.place == Start {
      var end := ReadsHead(map[], fs);
      assert buffer == data;
    } else if c.place == Lf {
      BehindLineFeed(r, buffer, fs);
    } else if c.place == EndCr {
      BehindReturn(r, buffer);
    } else {
      NeverEnds(r, buffer, 0);
    }
  }

  /** Behind a field: the line feed becomes part of the next key. */
  lemma BehindLineFeed(r: Cursor, buffer: string, fs: seq<H.Field>)
    requires r == Resume(Lf, r.headers) && buffer != "" && buffer[0] == '\n' && forall f :: f in fs ==> FieldOk(f)
    ensures !ReadsAll(Run(r, buffer, 0), buffer, fs)
  {
    NoOddKey(map[], fs);
    var c := Step(r, buffer, 0).cursor;
    assert Run(r, buffer, 0) == Run(c, buffer, 1);
    StaysOdd(c, buffer, 1);
  }

  /** Behind the carriage return of the blank line: the head ends too early, and a line feed is left over. */
  lemma BehindReturn(r: Cursor, buffer: string)
    requires r == Resume(EndCr, r.headers) && |buffer| > 2 && buffer[0] == '\n'
    ensures Run(r, buffer, 0).At? && Run(r, buffer, 0).index == 2
  {
    var c := Step(r, buffer, 0).cursor;
    var d := Step(c, buffer, 1).cursor;
    assert Run(r, buffer, 0) == Run(c, buffer, 1) == Run(d, buffer, 2);
  }
}
