/** Dumping a skip list of strings to its store file and loading it back. */
module SkipListFile {
  import opened DumpText
  import opened Folding
  import opened Levels
  import opened SkipLists

  /** The order of the string keys: the first differing character decides, and a prefix comes first. */
  predicate Less(a: string, b: string) {
    b != "" && (a == "" || a[0] < b[0] || (a[0] == b[0] && Less(a[1..], b[1..])))
  }

  /** `b` goes on behind all of `a`, or is larger where they first differ. */
  predicate LargerAt(a: string, b: string, n: nat) {
    n <= |a| && n < |b| && a[..n] == b[..n] && (n < |a| ==> a[n] < b[n])
  }

  lemma LessIsLexicographic(a: string, b: string)
    ensures Less(a, b) <==> exists n: nat :: LargerAt(a, b, n)
  {
    if Less(a, b) {
      var n := LargerPlace(a, b);
    }
    if n: nat :| LargerAt(a, b, n) {
      LargerIsLess(a, b, n);
    }
  }

  lemma {:induction false} LargerPlace(a: string, b: string) returns (n: nat)
    requires Less(a, b)
    ensures LargerAt(a, b, n)
  {
    if a == "" || a[0] < b[0] {
      n := 0;
    } else {
      n := LargerPlace(a[1..], b[1..]);
      n := n + 1;
      assert a[..n] == [a[0]] + a[1..][..n - 1] && b[..n] == [b[0]] + b[1..][..n - 1];
    }
  }

  lemma {:induction false} LargerIsLess(a: string, b: string, n: nat)
    requires LargerAt(a, b, n)
    ensures Less(a, b)
    decreases n
  {
    if n > 0 {
      assert a[0] == a[..n][0] && b[0] == b[..n][0];
      assert a[1..][..n - 1] == a[..n][1..] && b[1..][..n - 1] == b[..n][1..];
      LargerIsLess(a[1..], b[1..], n - 1);
    }
  }

  lemma {:induction false} LessTransitive(a: string, b: string, c: string)
    requires Less(a, b) && Less(b, c)
    ensures Less(a, c)
  {
    if a != "" && a[0] == b[0] == c[0] {
      LessTransitive(a[1..], b[1..], c[1..]);
    }
  }

  lemma {:induction false} LessIrreflexive(a: string)
    ensures !Less(a, a)
  {
    if a != "" {
      LessIrreflexive(a[1..]);
    }
  }

  lemma {:induction false} LessTotal(a: string, b: string)
    ensures a == b || Less(a, b) || Less(b, a)
  {
    if a != "" && b != "" && a[0] == b[0] {
      LessTotal(a[1..], b[1..]);
      assert a == [a[0]] + a[1..] && b == [b[0]] + b[1..];
    }
  }

  lemma LessIsStrictOrder()
    ensures StrictOrder(Less)
  {
    forall a ensures !Less(a, a) { LessIrreflexive(a); }
    forall a, b, c | Less(a, b) && Less(b, c) ensures Less(a, c) { LessTransitive(a, b, c); }
    forall a, b ensures a == b || Less(a, b) || Less(b, a) { LessTotal(a, b); }
  }

  /** The elements' keys and values in list order. */
  ghost function PairsOf(s: Nodes<string, string>): (ps: Pairs)
    requires |s| >= 1
    reads s
    ensures |ps| == |s| - 1 && forall i :: 0 <= i < |ps| ==> ps[i] == (s[i + 1].key, s[i + 1].value)
  {
    seq(|s| - 1, i requires 0 <= i < |s| - 1 reads s => (s[i + 1].key, s[i + 1].value))
  }

  lemma PairsIn(s: Nodes<string, string>, m: map<string, string>, k: string)
    requires |s| >= 1 && Distinct(PairsOf(s)) && Holds(s, m) && k in m
    ensures k in ToMap(PairsOf(s)) && ToMap(PairsOf(s))[k] == m[k]
  {
    assert Open(HoldsFold);
    assert KeyOk(s, k);
    var p :| 1 <= p < |s| && s[p].key == k;
    assert ValOk(s, m, p) && PairsOf(s)[p - 1] == (s[p].key, s[p].value);
    ToMapHas(PairsOf(s), p - 1);
  }

  lemma PairsHold(s: Nodes<string, string>, m: map<string, string>)
    requires |s| >= 1 && StrictOrder(Less) && Sorted(s, Less) && Holds(s, m)
    ensures Distinct(PairsOf(s)) && ToMap(PairsOf(s)) == m
  {
    assert Open(HoldsFold);
    var ps := PairsOf(s);
    var w := ToMap(ps);
    assert Distinct(ps);
    forall k | k in m ensures k in w && w[k] == m[k] {
      PairsIn(s, m, k);
    }
    forall k | k in w ensures k in m {
      var i := ToMapKeys(ps, k);
      assert ValOk(s, m, i + 1);
    }
  }

  lemma BottomLink(list: SkipList<string, string>, u: nat)
    requires list.Valid() && u < |list.nodes|
    ensures list.nodes[u].forward.Length > 0 && list.nodes[u].forward[0] == At(list.nodes, u + 1)
    ensures |list.nodes| >= 1 && list.nodes[0] == list.header
  {
    assert Open(BuiltFold);
    assert LinkOk(list.nodes, LevelsOf(list.nodes), u, 0);
  }

  /** The text of a walk that still has the pairs from `i` on to write, and its next step. */
  lemma DumpStep(text: string, ps: Pairs, i: nat)
    requires i < |ps| && text + Dump(ps[i..]) == Dump(ps)
    ensures text + Line(ps[i]) + Dump(ps[i + 1..]) == Dump(ps)
  {
    assert ps[i..][1..] == ps[i + 1..];
    assert text + Line(ps[i]) + Dump(ps[i + 1..]) == text + (Line(ps[i]) + Dump(ps[i + 1..]));
  }

  /** Writes the bottom level from the first element to the last, one line each. */
  method DumpFile(list: SkipList<string, string>) returns (text: string)
    requires list.Valid()
    ensures |list.nodes| >= 1 && text == Dump(PairsOf(list.nodes))
  {
    BottomLink(list, 0);
    ghost var u: nat, ps := 0, PairsOf(list.nodes);
    var cur := list.header.forward[0];
    text := "";
    assert ps[0..] == ps;
    while cur != null
      invariant list.Valid() && u < |list.nodes| && cur == At(list.nodes, u + 1) && text + Dump(ps[u..]) == Dump(ps)
      decreases |list.nodes| - u
    {
      DumpStep(text, ps, u);
      assert cur == list.nodes[u + 1] && ps[u] == (cur.key, cur.value);
      text := text + (cur.key + ":" + cur.value + "\n");
      u := u + 1;
      BottomLink(list, u);
      cur := cur.forward[0];
    }
  }

  lemma LoadStep(m: map<string, string>, k: string, v: string, text: string)
    requires text != ""
    ensures var line := FirstLine(text);
      Load(m, k, v, text) == Load(Stored(m, Key(line, k), Value(line, v)), Key(line, k), Value(line, v), Rest(text))
    ensures |Rest(text)| < |text|
  {
  }

  /** The objects an insertion may change. */
  ghost function Parts(list: SkipList<string, string>): set<object>
    reads list
  {
    (set n: Node<string, string> | n in list.nodes :: n as object) + (set a | a in Arrays(list.nodes) :: a as object)
  }

  method StorePair(list: SkipList<string, string>, key: string, value: string)
    requires list.Valid() && list.less == Less
    modifies list`curLevel, list`elementCount, list`nodes, list`model, Parts(list)
    ensures list.Valid() && list.model == Stored(old(list.model), key, value)
    ensures forall o :: o in Parts(list) ==> o in old(Parts(list)) || fresh(o)
  {
    LessIsStrictOrder();
    if key == "" || value == "" {
      return;
    }
    forall p | 0 <= p < |list.nodes| ensures list.nodes[p] in Parts(list) {
      assert list.nodes[p] in list.nodes;
    }
    var existed := list.InsertElement(key, value);
  }

  /** Stores every line that has a non-empty key and value; a line without ':' repeats the previous pair. */
  method LoadFile(list: SkipList<string, string>, text: string)
    requires list.Valid() && list.less == Less
    modifies list`curLevel, list`elementCount, list`nodes, list`model, Parts(list)
    ensures list.Valid() && list.model == Load(old(list.model), "", "", text)
  {
    var unread, key, value := text, "", "";
    while unread != ""
      invariant list.Valid() && Load(list.model, key, value, unread) == Load(old(list.model), "", "", text)
      invariant forall o :: o in Parts(list) ==> o in old(Parts(list)) || fresh(o)
      decreases |unread|
    {
      LoadStep(list.model, key, value, unread);
      var line := FirstLine(unread);
      unread := Rest(unread);
      var pos := IndexOf(line, ':');
      if pos < |line| {
        key, value := line[..pos], line[pos + 1..];
      }
      StorePair(list, key, value);
    }
  }

  lemma DumpedPairs(list: SkipList<string, string>)
    requires list.Valid() && list.less == Less
    ensures |list.nodes| >= 1
    ensures Load(map[], "", "", Dump(PairsOf(list.nodes))) == list.model <==> Clean(list.model)
  {
    assert Open(BuiltFold);
    LessIsStrictOrder();
    PairsHold(list.nodes, list.model);
    RoundTrip(PairsOf(list.nodes));
  }

  /** A list that is dumped and loaded into an empty one comes back exactly when all its pairs are clean. */
  method Reload(list: SkipList<string, string>, maxLevel: nat) returns (copy: SkipList<string, string>)
    requires list.Valid() && list.less == Less
    ensures fresh(copy) && copy.Valid() && copy.less == Less
    ensures copy.model == list.model <==> Clean(list.model)
  {
    DumpedPairs(list);
    var text := DumpFile(list);
    copy := new SkipList(maxLevel, Less);
    LoadFile(copy, text);
  }
}
