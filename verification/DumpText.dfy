/** The text form of a string map: one `key:value` line each, as the skip list dumps and loads it. */
module DumpText {
  type Pairs = seq<(string, string)>

  /** The index of the first `c`, or the length when there is none. */
  function IndexOf(s: string, c: char): (n: nat)
    ensures n <= |s| && c !in s[..n] && (n < |s| ==> s[n] == c)
  {
    if s == "" || s[0] == c then 0 else 1 + IndexOf(s[1..], c)
  }

  function Line(p: (string, string)): string {
    p.0 + ":" + p.1 + "\n"
  }

  function Dump(ps: Pairs): string {
    if ps == [] then "" else Line(ps[0]) + Dump(ps[1..])
  }

  function ToMap(ps: Pairs): map<string, string> {
    if ps == [] then map[] else ToMap(ps[..|ps| - 1])[ps[|ps| - 1].0 := ps[|ps| - 1].1]
  }

  /** What the loader reads next: a line without its newline, and what follows. */
  function FirstLine(text: string): string { text[..IndexOf(text, '\n')] }

  function Rest(text: string): string {
    var n := IndexOf(text, '\n');
    if n < |text| then text[n + 1..] else ""
  }

  /** The key and value of a line; a line without ':' leaves the previous ones in place. */
  function Key(line: string, previous: string): string {
    if IndexOf(line, ':') < |line| then line[..IndexOf(line, ':')] else previous
  }

  function Value(line: string, previous: string): string {
    if IndexOf(line, ':') < |line| then line[IndexOf(line, ':') + 1..] else previous
  }

  function Stored(m: map<string, string>, k: string, v: string): map<string, string> {
    if k == "" || v == "" then m else m[k := v]
  }

  function Load(m: map<string, string>, k: string, v: string, text: string): map<string, string>
    decreases |text|
  {
    if text == "" then m
    else
      var line := FirstLine(text);
      var k', v' := Key(line, k), Value(line, v);
      Load(Stored(m, k', v'), k', v', Rest(text))
  }

  predicate CleanPair(k: string, v: string) {
    k != "" && v != "" && ':' !in k && '\n' !in k && '\n' !in v
  }

  predicate Clean(m: map<string, string>) {
    forall k :: k in m ==> CleanPair(k, m[k])
  }

  lemma {:induction false} IndexIs(s: string, c: char, n: nat)
    requires n <= |s| && (forall i :: 0 <= i < n ==> s[i] != c) && (n < |s| ==> s[n] == c)
    ensures IndexOf(s, c) == n
  {
    if n > 0 {
      IndexIs(s[1..], c, n - 1);
    }
  }

  lemma FoundIfIn(s: string, c: char)
    ensures IndexOf(s, c) < |s| <==> c in s
  {
    assert s[..|s|] == s;
  }

  /** Whatever the text, everything loaded is clean. */
  lemma {:induction false} LoadIsClean(m: map<string, string>, k: string, v: string, text: string)
    requires Clean(m) && ':' !in k && '\n' !in k && '\n' !in v
    ensures Clean(Load(m, k, v, text))
    decreases |text|
  {
    if text != "" {
      var line := FirstLine(text);
      var n := IndexOf(line, ':');
      assert n < |line| ==> forall c :: c in line[n + 1..] ==> c in line;
      assert forall c :: c in line[..n] ==> c in line;
      LoadIsClean(Stored(m, Key(line, k), Value(line, v)), Key(line, k), Value(line, v), Rest(text));
    }
  }

  /** Reading back one clean line. */
  lemma ReadLine(p: (string, string), more: string)
    requires CleanPair(p.0, p.1)
    ensures FirstLine(Line(p) + more) == p.0 + ":" + p.1 && Rest(Line(p) + more) == more
  {
    var t, line := Line(p) + more, p.0 + ":" + p.1;
    assert t[..|line|] == line;
    assert t == line + "\n" + more;
    IndexIs(t, '\n', |line|);
  }

  lemma SplitLine(p: (string, string), k: string, v: string)
    requires CleanPair(p.0, p.1)
    ensures Key(p.0 + ":" + p.1, k) == p.0 && Value(p.0 + ":" + p.1, v) == p.1
  {
    var line := p.0 + ":" + p.1;
    assert line[..|p.0|] == p.0 && line[|p.0| + 1..] == p.1;
    IndexIs(line, ':', |p.0|);
  }

  lemma LoadLine(m: map<string, string>, k: string, v: string, p: (string, string), more: string)
    requires CleanPair(p.0, p.1)
    ensures Load(m, k, v, Line(p) + more) == Load(m[p.0 := p.1], p.0, p.1, more)
  {
    ReadLine(p, more);
    SplitLine(p, k, v);
  }

  /** The key and value carried from line to line are in the map, if they are stored at all. */
  predicate Carried(m: map<string, string>, k: string, v: string) {
    k == "" || v == "" || (k in m && m[k] == v)
  }

  lemma {:induction false} CarriedIsStored(m: map<string, string>, k: string, v: string, k': string, v': string,
                                           text: string)
    requires Carried(m, k, v) && Carried(m, k', v')
    ensures Load(m, k, v, text) == Load(m, k', v', text)
    decreases |text|
  {
    if text != "" {
      var line := FirstLine(text);
      if IndexOf(line, ':') == |line| {
        assert m[k' := v'] == m || !(k' in m && m[k'] == v');
        assert m[k := v] == m || !(k in m && m[k] == v);
        CarriedIsStored(m, k, v, k', v', Rest(text));
      }
    }
  }

  predicate WholeLines(text: string) { text == "" || text[|text| - 1] == '\n' }

  /** A line that stores nothing: it has no ':', or no key in front of its first one, or no value behind it. */
  predicate StoresNothing(line: string) {
    '\n' !in line && (':' !in line || line[0] == ':' || ':' !in line[..|line| - 1])
  }

  lemma FrontLine(front: string, more: string)
    requires front != "" && WholeLines(front)
    ensures FirstLine(front + more) == FirstLine(front) && Rest(front + more) == Rest(front) + more
    ensures WholeLines(Rest(front)) && |Rest(front)| < |front|
  {
    var n := IndexOf(front, '\n');
    assert front[|front| - 1] in front;
    FoundIfIn(front, '\n');
    IndexIs(front + more, '\n', n);
    assert (front + more)[..n] == front[..n] && (front + more)[n + 1..] == front[n + 1..] + more;
  }

  lemma OneLine(line: string, more: string)
    requires '\n' !in line
    ensures FirstLine(line + "\n" + more) == line && Rest(line + "\n" + more) == more
  {
    IndexIs(line + "\n" + more, '\n', |line|);
    assert (line + "\n" + more)[..|line|] == line && (line + "\n" + more)[|line| + 1..] == more;
  }

  lemma NothingStored(m: map<string, string>, k: string, v: string, line: string)
    requires StoresNothing(line) && Carried(m, k, v)
    ensures Stored(m, Key(line, k), Value(line, v)) == m && Carried(m, Key(line, k), Value(line, v))
  {
    var n := IndexOf(line, ':');
    FoundIfIn(line, ':');
    if n == |line| {
      assert k != "" && v != "" ==> m[k := v] == m;
    } else if line[0] == ':' {
      IndexIs(line, ':', 0);
    } else {
      assert line[..|line| - 1] + [line[|line| - 1]] == line;
      IndexIs(line, ':', |line| - 1);
    }
  }

  /** Wherever it stands, such a line leaves the map as the other lines make it. */
  lemma {:induction false} Skipped(m: map<string, string>, k: string, v: string, front: string, line: string,
                                   more: string)
    requires WholeLines(front) && StoresNothing(line) && Carried(m, k, v)
    ensures Load(m, k, v, front + (line + "\n" + more)) == Load(m, k, v, front + more)
    decreases |front|
  {
    if front == "" {
      assert front + (line + "\n" + more) == line + "\n" + more && front + more == more;
      OneLine(line, more);
      NothingStored(m, k, v, line);
      CarriedIsStored(m, Key(line, k), Value(line, v), k, v, more);
    } else {
      FrontLine(front, line + "\n" + more);
      FrontLine(front, more);
      var k', v' := Key(FirstLine(front), k), Value(FirstLine(front), v);
      Skipped(Stored(m, k', v'), k', v', Rest(front), line, more);
    }
  }

  /** The last line need not be ended. */
  lemma {:induction false} LastLine(m: map<string, string>, k: string, v: string, front: string, line: string)
    requires WholeLines(front) && line != "" && '\n' !in line
    ensures Load(m, k, v, front + line) == Load(m, k, v, front + (line + "\n"))
    decreases |front|
  {
    if front == "" {
      assert front + line == line && front + (line + "\n") == line + "\n" == line + "\n" + "";
      OneLine(line, "");
      IndexIs(line, '\n', |line|);
      assert line[..|line|] == line;
    } else {
      FrontLine(front, line);
      FrontLine(front, line + "\n");
      var k', v' := Key(FirstLine(front), k), Value(FirstLine(front), v);
      LastLine(Stored(m, k', v'), k', v', Rest(front), line);
    }
  }

  /** A line that stores something is the line of a clean pair, and stores that. */
  lemma StoresPair(line: string) returns (p: (string, string))
    requires '\n' !in line && !StoresNothing(line)
    ensures CleanPair(p.0, p.1) && line + "\n" == Line(p)
  {
    var n := IndexOf(line, ':');
    FoundIfIn(line, ':');
    p := (line[..n], line[n + 1..]);
    assert p.1 == "" ==> n == |line| - 1;
    assert forall c :: c in p.0 || c in p.1 ==> c in line;
    assert line == p.0 + ":" + p.1;
  }

  ghost predicate Distinct(ps: Pairs) {
    forall i, j :: 0 <= i < j < |ps| ==> ps[i].0 != ps[j].0
  }

  /** `m` after storing the pairs in order. */
  function Put(m: map<string, string>, ps: Pairs): map<string, string>
    decreases |ps|
  {
    if ps == [] then m else Put(m[ps[0].0 := ps[0].1], ps[1..])
  }

  /** Loading clean lines stores their pairs in order. */
  lemma {:induction false} LoadDump(m: map<string, string>, k: string, v: string, ps: Pairs)
    requires forall p :: p in ps ==> CleanPair(p.0, p.1)
    ensures Load(m, k, v, Dump(ps)) == Put(m, ps)
    decreases |ps|
  {
    if ps != [] {
      LoadLine(m, k, v, ps[0], Dump(ps[1..]));
      LoadDump(m[ps[0].0 := ps[0].1], ps[0].0, ps[0].1, ps[1..]);
    }
  }

  lemma {:induction false} PutSnoc(m: map<string, string>, ps: Pairs, p: (string, string))
    ensures Put(m, ps + [p]) == Put(m, ps)[p.0 := p.1]
    decreases |ps|
  {
    if ps == [] {
      assert Put(m[p.0 := p.1], []) == m[p.0 := p.1];
    } else {
      assert (ps + [p])[1..] == ps[1..] + [p];
      PutSnoc(m[ps[0].0 := ps[0].1], ps[1..], p);
    }
  }

  lemma {:induction false} PutIsToMap(ps: Pairs)
    ensures Put(map[], ps) == ToMap(ps)
    decreases |ps|
  {
    if ps != [] {
      var n := |ps| - 1;
      PutIsToMap(ps[..n]);
      PutSnoc(map[], ps[..n], ps[n]);
      assert ps[..n] + [ps[n]] == ps;
    }
  }

  lemma {:induction false} ToMapHas(ps: Pairs, i: nat)
    requires Distinct(ps) && i < |ps|
    ensures ps[i].0 in ToMap(ps) && ToMap(ps)[ps[i].0] == ps[i].1
    decreases |ps|
  {
    if i < |ps| - 1 {
      ToMapHas(ps[..|ps| - 1], i);
    }
  }

  lemma {:induction false} ToMapKeys(ps: Pairs, k: string) returns (i: nat)
    requires k in ToMap(ps)
    ensures i < |ps| && ps[i].0 == k
    decreases |ps|
  {
    if ps[|ps| - 1].0 == k {
      i := |ps| - 1;
    } else {
      i := ToMapKeys(ps[..|ps| - 1], k);
    }
  }

  /** A dump loads back to the same map exactly when all its keys and values are clean. */
  lemma RoundTrip(ps: Pairs)
    requires Distinct(ps)
    ensures Load(map[], "", "", Dump(ps)) == ToMap(ps) <==> Clean(ToMap(ps))
  {
    LoadIsClean(map[], "", "", Dump(ps));
    if Clean(ToMap(ps)) {
      forall p | p in ps ensures CleanPair(p.0, p.1) {
        var i :| 0 <= i < |ps| && ps[i] == p;
        ToMapHas(ps, i);
      }
      LoadDump(map[], "", "", ps);
      PutIsToMap(ps);
    }
  }
}
