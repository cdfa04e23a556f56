/** A skip list: multi-level linked lists that represent a sorted map. */
module SkipLists {
  import opened Folding
  import opened Levels

  datatype Fold = BuiltFold | HoldsFold | CellsFold | SkipsFold  // the predicates this module keeps folded

  class Node<K, V> {
    const key: K
    var value: V
    const level: nat
    const forward: array<Node?<K, V>>

    constructor (key: K, value: V, level: nat)
      ensures this.key == key && this.value == value && this.level == level
      ensures fresh(forward) && forward.Length == level + 1 && forall i :: 0 <= i <= level ==> forward[i] == null
    {
      this.key, this.value, this.level := key, value, level;
      forward := new Node?<K, V>[level + 1](_ => null);
    }
  }

  type Nodes<K, V> = seq<Node<K, V>>

  ghost function LevelsOf<K, V>(s: Nodes<K, V>): (ls: seq<nat>)
    ensures |ls| == |s| && forall p :: 0 <= p < |s| ==> ls[p] == s[p].level
  {
    seq(|s|, p requires 0 <= p < |s| => s[p].level)
  }

  ghost function At<K, V>(s: Nodes<K, V>, n: nat): Node?<K, V> {
    if n < |s| then s[n] else null
  }

  ghost function Arrays<K, V>(s: Nodes<K, V>): set<array<Node?<K, V>>> {
    set n | n in s :: n.forward
  }

  /** Distinct nodes with distinct arrays, one cell for each of their levels. */
  ghost predicate Shape<K, V>(s: Nodes<K, V>) {
    && |s| >= 1
    && (forall p :: 0 <= p < |s| ==> s[p].forward.Length == s[p].level + 1)
    && (forall p, q :: 0 <= p < q < |s| ==> s[p].forward != s[q].forward)
  }

  ghost predicate LinkOk<K, V>(s: Nodes<K, V>, ls: seq<nat>, p: nat, i: nat)
    requires p < |s| == |ls|
    reads s[p].forward
  {
    i < s[p].forward.Length && s[p].forward[i] == At(s, Next(ls, p, i))
  }

  /** On level `i` every node that reaches it points to the next one that does. */
  ghost predicate Linked<K, V>(s: Nodes<K, V>, ls: seq<nat>)
    requires |s| == |ls|
    reads Arrays(s)
  {
    && (forall p :: 0 <= p < |s| ==> s[p].forward in Arrays(s))
    && forall p, i {:trigger LinkOk(s, ls, p, i)} :: 0 <= p < |s| && 0 <= i <= ls[p] ==> LinkOk(s, ls, p, i)
  }

  ghost function InsertAt<K, V>(s: Nodes<K, V>, pos: nat, n: Node<K, V>): Nodes<K, V>
    requires pos <= |s|
  {
    s[..pos] + [n] + s[pos..]
  }

  ghost predicate CellOk<K, V>(s: Nodes<K, V>, ls: seq<nat>, up: seq<nat>, n: Node<K, V>, done: nat, p: nat, i: nat)
    requires p < |s| == |ls| && done <= |up|
    reads s[p].forward
  {
    && i < s[p].forward.Length
    && s[p].forward[i] == if i < done && up[i] == p then n else At(s, Next(ls, p, i))
  }

  /** The cells of `s` once levels below `done` of `n` have been spliced in behind the nodes `up`. */
  ghost predicate Cells<K, V>(s: Nodes<K, V>, ls: seq<nat>, up: seq<nat>, n: Node<K, V>, done: nat)
    requires |s| == |ls| && done <= |up|
    reads Arrays(s)
  {
    forall u {:trigger Open(u)} :: u == CellsFold ==>
      && (forall p :: 0 <= p < |s| ==> s[p].forward in Arrays(s))
      && forall p, i {:trigger CellOk(s, ls, up, n, done, p, i)} :: 0 <= p < |s| && 0 <= i <= ls[p] ==>
           CellOk(s, ls, up, n, done, p, i)
  }

  /** Where every cell points after `n` has been spliced in behind the nodes `up[0..n.level]`. */
  ghost predicate Spliced<K, V>(s: Nodes<K, V>, ls: seq<nat>, pos: nat, up: seq<nat>, n: Node<K, V>)
    requires |s| == |ls| && |up| == n.forward.Length
    reads Arrays(s), n.forward
  {
    && Cells(s, ls, up, n, |up|)
    && (forall i :: 0 <= i < |up| ==> Pred(ls, up[i], pos, i) && n.forward[i] == At(s, Next(ls, up[i], i)))
  }

  lemma InsertAtIndex<K, V>(s: Nodes<K, V>, pos: nat, n: Node<K, V>, q: nat)
    requires pos <= |s| && q <= |s|
    ensures At(InsertAt(s, pos, n), q) == if q < pos then s[q] else if q == pos then n else s[q - 1]
    ensures q >= pos ==> At(InsertAt(s, pos, n), q + 1) == At(s, q)
    ensures InsertAt(s, pos, n)[q].forward in Arrays(InsertAt(s, pos, n))
  {
    assert InsertAt(s, pos, n)[q] in InsertAt(s, pos, n);
  }

  lemma SplicedBefore<K, V>(s: Nodes<K, V>, ls: seq<nat>, pos: nat, up: seq<nat>, n: Node<K, V>, p: nat, i: nat)
    requires p < pos <= |s| == |ls| && |up| == n.forward.Length == n.level + 1 && i <= ls[p]
    requires Spliced(s, ls, pos, up, n)
    ensures LinkOk(InsertAt(s, pos, n), Insert(ls, pos, n.level), p, i)
  {
    var m := Next(ls, p, i);
    assert Open(CellsFold);
    assert CellOk(s, ls, up, n, |up|, p, i);
    InsertNextBefore(ls, pos, n.level, p, i);
    InsertAtIndex(s, pos, n, p);
    InsertAtIndex(s, pos, n, if m < pos then m else pos);
    if m >= pos {
      InsertAtIndex(s, pos, n, m);
    }
    if i < |up| {
      PredUnique(ls, up[i], p, pos, i);
    }
  }

  lemma SplicedAt<K, V>(s: Nodes<K, V>, ls: seq<nat>, pos: nat, up: seq<nat>, n: Node<K, V>, i: nat)
    requires pos <= |s| == |ls| && |up| == n.forward.Length == n.level + 1 && i <= n.level
    requires Spliced(s, ls, pos, up, n)
    ensures LinkOk(InsertAt(s, pos, n), Insert(ls, pos, n.level), pos, i)
  {
    InsertNextAt(ls, pos, n.level, up[i], i);
    InsertAtIndex(s, pos, n, Next(ls, up[i], i));
    InsertAtIndex(s, pos, n, pos);
  }

  lemma SplicedAfter<K, V>(s: Nodes<K, V>, ls: seq<nat>, pos: nat, up: seq<nat>, n: Node<K, V>, p: nat, i: nat)
    requires pos <= p < |s| == |ls| && |up| == n.forward.Length == n.level + 1 && i <= ls[p]
    requires Spliced(s, ls, pos, up, n)
    ensures LinkOk(InsertAt(s, pos, n), Insert(ls, pos, n.level), p + 1, i)
  {
    assert Open(CellsFold);
    assert CellOk(s, ls, up, n, |up|, p, i);
    InsertNextAfter(ls, pos, n.level, p, i);
    InsertAtIndex(s, pos, n, Next(ls, p, i));
    InsertAtIndex(s, pos, n, p + 1);
    assert i < |up| ==> Pred(ls, up[i], pos, i);
  }

  lemma SplicedLinked<K, V>(s: Nodes<K, V>, ls: seq<nat>, pos: nat, up: seq<nat>, n: Node<K, V>)
    requires 1 <= pos <= |s| == |ls| && |up| == n.forward.Length == n.level + 1
    requires Spliced(s, ls, pos, up, n)
    ensures Linked(InsertAt(s, pos, n), Insert(ls, pos, n.level))
  {
    var t, ms := InsertAt(s, pos, n), Insert(ls, pos, n.level);
    InsertIndex(ls, pos, n.level);
    forall p | 0 <= p < |t| ensures t[p].forward in Arrays(t) {
      InsertAtIndex(s, pos, n, p);
    }
    forall p, i | 0 <= p < |t| && 0 <= i <= ms[p] ensures LinkOk(t, ms, p, i) {
      if p < pos {
        SplicedBefore(s, ls, pos, up, n, p, i);
      } else if p == pos {
        SplicedAt(s, ls, pos, up, n, i);
      } else {
        SplicedAfter(s, ls, pos, up, n, p - 1, i);
      }
    }
  }

  lemma LinkedCells<K, V>(s: Nodes<K, V>, ls: seq<nat>, up: seq<nat>, n: Node<K, V>)
    requires |s| == |ls| && Linked(s, ls)
    ensures Cells(s, ls, up, n, 0)
  {
    assert Open(CellsFold);
    forall p, i | 0 <= p < |s| && 0 <= i <= ls[p] ensures CellOk(s, ls, up, n, 0, p, i) {
      assert LinkOk(s, ls, p, i);
    }
  }

  /** Splices `n` in behind `prev == s[up[i]]` on level `i`. */
  method SpliceLevel<K, V>(prev: Node<K, V>, n: Node<K, V>, i: nat,
                           ghost s: Nodes<K, V>, ghost ls: seq<nat>, ghost up: seq<nat>)
    requires Shape(s) && |s| == |ls| && i < |up| && Cells(s, ls, up, n, i)
    requires up[i] < |s| && prev == s[up[i]] && i <= ls[up[i]] && i < n.forward.Length
    requires n.forward !in Arrays(s)
    modifies n.forward, prev.forward
    ensures Cells(s, ls, up, n, i + 1)
    ensures n.forward[i] == At(s, Next(ls, up[i], i))
    ensures forall j :: 0 <= j < n.forward.Length && j != i ==> n.forward[j] == old(n.forward[j])
  {
    assert Open(CellsFold);
    assert CellOk(s, ls, up, n, i, up[i], i);
    label before:
    n.forward[i] := prev.forward[i];
    prev.forward[i] := n;
    ghost var done := i + 1;
    forall p, j | 0 <= p < |s| && 0 <= j <= ls[p] ensures CellOk(s, ls, up, n, done, p, j) {
      assert old@before(CellOk(s, ls, up, n, i, p, j));
      assert p != up[i] ==> s[p].forward != prev.forward;
    }
  }

  /** Splices `n` in behind the nodes `update` on each of its levels. */
  method Splice<K, V>(update: array<Node?<K, V>>, n: Node<K, V>,
                      ghost s: Nodes<K, V>, ghost ls: seq<nat>, ghost pos: nat, ghost up: seq<nat>)
    requires Shape(s) && |s| == |ls| && Linked(s, ls)
    requires |up| == n.forward.Length == n.level + 1 <= update.Length
    requires n.forward !in Arrays(s) && update !in Arrays(s) && update != n.forward
    requires forall i :: 0 <= i <= n.level ==> Pred(ls, up[i], pos, i) && update[i] == s[up[i]]
    modifies n.forward, Arrays(s)
    ensures Spliced(s, ls, pos, up, n)
  {
    LinkedCells(s, ls, up, n);
    for i := 0 to n.level + 1
      invariant Cells(s, ls, up, n, i)
      invariant forall j :: 0 <= j < i ==> n.forward[j] == At(s, Next(ls, up[j], j))
    {
      assert Pred(ls, up[i], pos, i) && update[i] == s[up[i]];
      assert s[up[i]].forward in Arrays(s);
      SpliceLevel(update[i], n, i, s, ls, up);
    }
  }

  // Deletion

  ghost function RemoveAt<K, V>(s: Nodes<K, V>, pos: nat): Nodes<K, V>
    requires pos < |s|
  {
    s[..pos] + s[pos + 1..]
  }

  /** Where the cell `i` of the node at `p` points once `s[pos]` is out of the levels below `done`. */
  ghost function Skip(ls: seq<nat>, pos: nat, done: nat, p: nat, i: nat): nat
    requires p < |ls| && pos < |ls|
  {
    if i < done && Next(ls, p, i) == pos then Next(ls, pos, i) else Next(ls, p, i)
  }

  ghost predicate SkipOk<K, V>(s: Nodes<K, V>, ls: seq<nat>, pos: nat, done: nat, p: nat, i: nat)
    requires p < |s| == |ls| && pos < |s|
    reads s[p].forward
  {
    i < s[p].forward.Length && s[p].forward[i] == At(s, Skip(ls, pos, done, p, i))
  }

  /** The cells of `s` once `s[pos]` is out of the levels below `done`. */
  ghost predicate Skips<K, V>(s: Nodes<K, V>, ls: seq<nat>, pos: nat, done: nat)
    requires pos < |s| == |ls|
    reads Arrays(s)
  {
    forall u {:trigger Open(u)} :: u == SkipsFold ==>
      && (forall p :: 0 <= p < |s| ==> s[p].forward in Arrays(s))
      && forall p, i {:trigger SkipOk(s, ls, pos, done, p, i)} :: 0 <= p < |s| && 0 <= i <= ls[p] ==>
           SkipOk(s, ls, pos, done, p, i)
  }

  lemma LinkedSkips<K, V>(s: Nodes<K, V>, ls: seq<nat>, pos: nat)
    requires pos < |s| == |ls| && Linked(s, ls)
    ensures Skips(s, ls, pos, 0)
  {
    assert Open(SkipsFold);
    forall p, i | 0 <= p < |s| && 0 <= i <= ls[p] ensures SkipOk(s, ls, pos, 0, p, i) {
      assert LinkOk(s, ls, p, i);
    }
  }

  lemma SkipCell<K, V>(s: Nodes<K, V>, ls: seq<nat>, pos: nat, done: nat, p: nat, i: nat)
    requires pos < |s| == |ls| && Skips(s, ls, pos, done) && p < |s| && i <= ls[p]
    ensures SkipOk(s, ls, pos, done, p, i) && s[p].forward in Arrays(s)
  {
    assert Open(SkipsFold);
  }

  lemma SkipsLinked<K, V>(s: Nodes<K, V>, ls: seq<nat>, pos: nat, done: nat)
    requires pos < |s| == |ls| && Skips(s, ls, pos, done) && ls[pos] < done
    ensures Linked(RemoveAt(s, pos), Remove(ls, pos))
  {
    var t, ms := RemoveAt(s, pos), Remove(ls, pos);
    RemoveIndex(ls, pos);
    forall p | 0 <= p < |t| ensures t[p].forward in Arrays(t) {
      assert t[p] in t;
    }
    forall p, i | 0 <= p < |t| && 0 <= i <= ms[p] ensures LinkOk(t, ms, p, i) {
      SkipLink(s, ls, pos, done, if p < pos then p else p + 1, i);
    }
  }

  lemma SkipLink<K, V>(s: Nodes<K, V>, ls: seq<nat>, pos: nat, done: nat, p: nat, i: nat)
    requires pos < |s| == |ls| && Skips(s, ls, pos, done) && ls[pos] < done && p < |s| && p != pos && i <= ls[p]
    ensures LinkOk(RemoveAt(s, pos), Remove(ls, pos), if p < pos then p else p - 1, i)
  {
    assert Open(SkipsFold);
    assert SkipOk(s, ls, pos, done, p, i);
    if p < pos {
      RemoveNextBefore(ls, pos, p, i);
    } else {
      RemoveNextAfter(ls, pos, p, i);
    }
    RemoveAtIndex(s, pos, p);
    if Skip(ls, pos, done, p, i) != pos {
      RemoveAtIndex(s, pos, Skip(ls, pos, done, p, i));
    }
  }

  lemma RemoveAtIndex<K, V>(s: Nodes<K, V>, pos: nat, q: nat)
    requires pos < |s| && q <= |s| && q != pos
    ensures At(RemoveAt(s, pos), if q < pos then q else q - 1) == At(s, q)
  {
  }

  /** Takes `cur == s[pos]` out of level `i`. */
  method SkipLevel<K, V>(prev: Node<K, V>, cur: Node<K, V>, i: nat,
                         ghost s: Nodes<K, V>, ghost ls: seq<nat>, ghost pos: nat, ghost u: nat)
    requires Shape(s) && pos < |s| == |ls| && Skips(s, ls, pos, i) && cur == s[pos]
    requires Pred(ls, u, pos, i) && prev == s[u] && Next(ls, u, i) == pos
    requires i <= ls[pos] < cur.forward.Length
    modifies prev.forward
    ensures Skips(s, ls, pos, i + 1)
  {
    assert Open(SkipsFold);
    assert SkipOk(s, ls, pos, i, u, i) && SkipOk(s, ls, pos, i, pos, i);
    label before:
    prev.forward[i] := cur.forward[i];
    ghost var done := i + 1;
    forall p, j | 0 <= p < |s| && 0 <= j <= ls[p] ensures SkipOk(s, ls, pos, done, p, j) {
      assert old@before(SkipOk(s, ls, pos, i, p, j));
      assert p != u ==> s[p].forward != prev.forward;
      if j == i && Next(ls, p, i) == pos {
        PredUnique(ls, u, p, pos, i);
      }
    }
  }

  /** Takes `cur == s[pos]` out of each of its levels, stopping at the first it does not reach. */
  method Unsplice<K, V>(update: array<Node?<K, V>>, cur: Node<K, V>, curLevel: nat,
                        ghost s: Nodes<K, V>, ghost ls: seq<nat>, ghost pos: nat, ghost up: seq<nat>)
    requires Shape(s) && 1 <= pos < |s| && ls == LevelsOf(s) && Linked(s, ls) && cur == s[pos]
    requires cur.level <= curLevel < |up| <= update.Length && update !in Arrays(s)
    requires forall i :: 0 <= i <= curLevel ==> Pred(ls, up[i], pos, i) && update[i] == s[up[i]]
    modifies Arrays(s)
    ensures Linked(RemoveAt(s, pos), Remove(ls, pos))
  {
    LinkedSkips(s, ls, pos);
    var i := 0;
    while i <= curLevel
      invariant i <= curLevel + 1 && i <= cur.level + 1 && Skips(s, ls, pos, i)
      invariant forall j :: i <= j <= curLevel ==> update[j] == s[up[j]]
    {
      assert Pred(ls, up[i], pos, i) && update[i] == s[up[i]];
      SkipCell(s, ls, pos, i, up[i], i);
      if update[i].forward[i] != cur {
        break;
      }
      SkipLevel(update[i], cur, i, s, ls, pos, up[i]);
      i := i + 1;
    }
    SkipsLinked(s, ls, pos, i);
  }

  // Keys and values

  ghost predicate StrictOrder<K(!new)>(less: (K, K) -> bool) {
    && (forall a :: !less(a, a))
    && (forall a, b, c :: less(a, b) && less(b, c) ==> less(a, c))
    && (forall a, b :: a == b || less(a, b) || less(b, a))
  }

  ghost predicate Sorted<K, V>(s: Nodes<K, V>, less: (K, K) -> bool) {
    forall p, q :: 1 <= p < q < |s| ==> less(s[p].key, s[q].key)
  }

  /** `pos` splits the keys into those below `key` and the others. */
  ghost predicate Splits<K, V>(s: Nodes<K, V>, less: (K, K) -> bool, key: K, pos: nat) {
    && 1 <= pos <= |s|
    && (forall p :: 1 <= p < pos ==> less(s[p].key, key))
    && (forall p :: pos <= p < |s| ==> !less(s[p].key, key))
  }

  lemma SplitAt<K(!new), V>(s: Nodes<K, V>, less: (K, K) -> bool, key: K, pos: nat)
    requires StrictOrder(less) && Sorted(s, less) && 1 <= pos <= |s|
    requires pos > 1 ==> less(s[pos - 1].key, key)
    requires pos < |s| ==> !less(s[pos].key, key)
    ensures Splits(s, less, key, pos)
  {
  }

  /** What the search leaves behind on level `i`: the last node there whose key is below `key`. */
  ghost predicate Reached<K, V>(s: Nodes<K, V>, ls: seq<nat>, less: (K, K) -> bool, key: K, u: nat, i: nat)
    requires |s| == |ls|
  {
    && u < |s| && ls[u] >= i && (u == 0 || less(s[u].key, key))
    && (Next(ls, u, i) < |s| ==> !less(s[Next(ls, u, i)].key, key))
  }

  lemma ReachedPred<K, V>(s: Nodes<K, V>, ls: seq<nat>, less: (K, K) -> bool, key: K, u: nat, i: nat, pos: nat)
    requires |s| == |ls| && Reached(s, ls, less, key, u, i) && Splits(s, less, key, pos)
    ensures Pred(ls, u, pos, i)
  {
  }

  ghost predicate ValOk<K, V>(s: Nodes<K, V>, m: map<K, V>, p: nat)
    requires p < |s|
    reads s[p]
  {
    s[p].key in m && m[s[p].key] == s[p].value
  }

  ghost predicate KeyOk<K, V>(s: Nodes<K, V>, k: K) {
    exists p :: 1 <= p < |s| && s[p].key == k
  }

  /** The nodes behind the header hold exactly the map `m` (kept folded). */
  ghost predicate Holds<K, V>(s: Nodes<K, V>, m: map<K, V>)
    reads s
  {
    forall u {:trigger Open(u)} :: u == HoldsFold ==>
      && |s| == |m| + 1
      && (forall p {:trigger ValOk(s, m, p)} :: 1 <= p < |s| ==> ValOk(s, m, p))
      && (forall k {:trigger KeyOk(s, k)} :: k in m ==> KeyOk(s, k))
  }

  lemma SplitLookup<K(!new), V>(s: Nodes<K, V>, less: (K, K) -> bool, m: map<K, V>, key: K, pos: nat)
    requires StrictOrder(less) && Sorted(s, less) && Splits(s, less, key, pos) && Holds(s, m)
    ensures key in m <==> pos < |s| && s[pos].key == key
    ensures key in m ==> m[key] == s[pos].value
  {
    assert Open(HoldsFold);
    if key in m {
      assert KeyOk(s, key);
      var p :| 1 <= p < |s| && s[p].key == key;
    }
    if pos < |s| && s[pos].key == key {
      assert ValOk(s, m, pos);
    }
  }

  lemma InsertSorted<K(!new), V>(s: Nodes<K, V>, less: (K, K) -> bool, pos: nat, n: Node<K, V>)
    requires StrictOrder(less) && Sorted(s, less) && Splits(s, less, n.key, pos)
    requires pos < |s| ==> s[pos].key != n.key
    ensures Sorted(InsertAt(s, pos, n), less)
  {
    var t := InsertAt(s, pos, n);
    assert forall p :: pos < p < |s| ==> less(s[pos].key, s[p].key);
    assert forall p :: pos <= p < |s| ==> less(n.key, s[p].key);
    forall p, q | 1 <= p < q < |t| ensures less(t[p].key, t[q].key) {
      assert t[p] == if p < pos then s[p] else if p == pos then n else s[p - 1];
      assert t[q] == if q < pos then s[q] else if q == pos then n else s[q - 1];
    }
  }

  lemma InsertHolds<K, V>(s: Nodes<K, V>, m: map<K, V>, pos: nat, n: Node<K, V>)
    requires Holds(s, m) && 1 <= pos <= |s| && n.key !in m
    ensures Holds(InsertAt(s, pos, n), m[n.key := n.value])
  {
    assert Open(HoldsFold);
    var t, w := InsertAt(s, pos, n), m[n.key := n.value];
    forall p | 1 <= p < |t| ensures ValOk(t, w, p) {
      if p != pos {
        assert t[p] == s[if p < pos then p else p - 1] && ValOk(s, m, if p < pos then p else p - 1);
      }
    }
    forall k | k in w ensures KeyOk(t, k) {
      if k == n.key {
        assert t[pos].key == k;
      } else {
        assert KeyOk(s, k);
        var p :| 1 <= p < |s| && s[p].key == k;
        assert t[if p < pos then p else p + 1].key == k;
      }
    }
  }

  lemma RemoveSorted<K, V>(s: Nodes<K, V>, less: (K, K) -> bool, pos: nat)
    requires Sorted(s, less) && 1 <= pos < |s|
    ensures Sorted(RemoveAt(s, pos), less)
  {
  }

  lemma RemoveHolds<K(!new), V>(s: Nodes<K, V>, less: (K, K) -> bool, m: map<K, V>, pos: nat)
    requires StrictOrder(less) && Sorted(s, less) && Holds(s, m) && 1 <= pos < |s|
    ensures Holds(RemoveAt(s, pos), m - {s[pos].key}) && |m - {s[pos].key}| == |m| - 1
  {
    assert Open(HoldsFold);
    var t, key := RemoveAt(s, pos), s[pos].key;
    var w := m - {key};
    assert ValOk(s, m, pos);
    assert w.Keys == m.Keys - {key} && |w| == |w.Keys|;
    forall p | 1 <= p < |t| ensures ValOk(t, w, p) {
      var q := if p < pos then p else p + 1;
      assert t[p] == s[q] && ValOk(s, m, q);
      assert less(s[q].key, key) || less(key, s[q].key);
    }
    forall k | k in w ensures KeyOk(t, k) {
      assert KeyOk(s, k);
      var p :| 1 <= p < |s| && s[p].key == k;
      assert t[if p < pos then p else p - 1].key == k;
    }
  }

  /** No element reaches above level `top`. */
  ghost predicate Below<K, V>(s: Nodes<K, V>, top: nat) {
    forall p :: 1 <= p < |s| ==> s[p].level <= top
  }

  lemma InsertShape<K, V>(s: Nodes<K, V>, pos: nat, n: Node<K, V>, top: nat)
    requires Shape(s) && Below(s, top) && 1 <= pos <= |s| && n.level <= top
    requires n.forward !in Arrays(s) && n.forward.Length == n.level + 1
    ensures Shape(InsertAt(s, pos, n)) && Below(InsertAt(s, pos, n), top)
    ensures LevelsOf(InsertAt(s, pos, n)) == Insert(LevelsOf(s), pos, n.level)
  {
    var t := InsertAt(s, pos, n);
    forall p | 0 <= p < |s| ensures s[p].forward != n.forward {
      assert s[p] in s;
    }
    assert forall q :: 0 <= q < |t| ==> t[q] == if q < pos then s[q] else if q == pos then n else s[q - 1];
  }

  lemma RemoveShape<K, V>(s: Nodes<K, V>, pos: nat, top: nat)
    requires Shape(s) && Below(s, top) && 1 <= pos < |s|
    ensures Shape(RemoveAt(s, pos)) && Below(RemoveAt(s, pos), top)
    ensures LevelsOf(RemoveAt(s, pos)) == Remove(LevelsOf(s), pos)
  {
    var t := RemoveAt(s, pos);
    assert forall q :: 0 <= q < |t| ==> t[q] == s[if q < pos then q else q + 1];
  }

  method SetValue<K(!new), V>(cur: Node<K, V>, value: V, ghost s: Nodes<K, V>, ghost less: (K, K) -> bool,
                              ghost m: map<K, V>, ghost pos: nat)
    requires StrictOrder(less) && Sorted(s, less) && Holds(s, m) && 1 <= pos < |s| && s[pos] == cur
    modifies cur`value
    ensures Holds(s, m[cur.key := value]) && |m[cur.key := value]| == |m|
  {
    assert Open(HoldsFold);
    assert ValOk(s, m, pos);
    ghost var w := m[cur.key := value];
    label before:
    cur.value := value;
    forall p | 1 <= p < |s| ensures ValOk(s, w, p) {
      assert old@before(ValOk(s, m, p));
      assert p != pos ==> less(s[p].key, cur.key) || less(cur.key, s[p].key);
    }
    assert w.Keys == m.Keys && |w| == |w.Keys|;
  }

  /** `top` is the level of some element, or 0. */
  ghost predicate Tops<K, V>(s: Nodes<K, V>, top: nat) {
    top == 0 || exists p :: 1 <= p < |s| && s[p].level == top
  }

  lemma TopInsert<K, V>(s: Nodes<K, V>, pos: nat, n: Node<K, V>, top: nat)
    requires Tops(s, top) && 1 <= pos <= |s|
    ensures Tops(InsertAt(s, pos, n), if n.level > top then n.level else top)
  {
    var t := InsertAt(s, pos, n);
    assert t[pos] == n;
    if n.level <= top && top != 0 {
      var p :| 1 <= p < |s| && s[p].level == top;
      assert t[if p < pos then p else p + 1] == s[p];
    }
  }

  /** Nodes on their levels, in order, none above `top`. Kept folded: a proof opens it with `Open(BuiltFold)`. */
  ghost predicate Built<K, V>(s: Nodes<K, V>, less: (K, K) -> bool, top: nat)
    reads Arrays(s)
  {
    forall u {:trigger Open(u)} :: u == BuiltFold ==>
      Shape(s) && Linked(s, LevelsOf(s)) && Sorted(s, less) && Below(s, top)
  }

  /** The nodes at the given indices. */
  ghost predicate Picks<K, V>(s: Nodes<K, V>, at: seq<nat>, found: Nodes<K, V>) {
    |found| == |at| && forall k :: 0 <= k < |at| ==> at[k] < |s| && found[k] == s[at[k]]
  }

  lemma PickNext<K, V>(s: Nodes<K, V>, ls: seq<nat>, at: seq<nat>, found: Nodes<K, V>, u: nat, i: nat)
      returns (more: seq<nat>, v: nat)
    requires |ls| == |s| && u < |s| && Next(ls, u, i) < |s| && Picks(s, at, found)
    ensures u < v == Next(ls, u, i) && more == at + [v] && Picks(s, more, found + [s[v]])
    ensures more + Reaching(ls, v + 1, i) == at + Reaching(ls, u + 1, i)
  {
    v := Next(ls, u, i);
    more := at + [v];
    ReachingNext(ls, u, i);
    Append(at, v, Reaching(ls, v + 1, i));
  }

  class SkipList<K(==, 0, !new), V(0)> {
    const maxLevel: nat
    const less: (K, K) -> bool
    const header: Node<K, V>
    var curLevel: nat
    var elementCount: int
    ghost var nodes: Nodes<K, V>  // the header, then the elements in ascending order
    ghost var model: map<K, V>    // the map this list represents

    /** The nodes behind the header are linked up. */
    ghost predicate Links()
      reads this, Arrays(nodes)
    {
      |nodes| >= 1 && nodes[0] == header && curLevel <= header.level == maxLevel && Built(nodes, less, curLevel)
    }

    ghost predicate Valid()
      reads this, nodes, Arrays(nodes)
    {
      && Links() && Holds(nodes, model) && elementCount == |model|
      && Tops(nodes, curLevel)
    }

    constructor (maxLevel: nat, less: (K, K) -> bool)
      ensures Valid() && model == map[] && this.maxLevel == maxLevel && this.less == less
      ensures fresh(nodes) && fresh(Arrays(nodes))
    {
      this.maxLevel, this.less := maxLevel, less;
      var k: K, v: V := *, *;
      var first := new Node<K, V>(k, v, maxLevel);
      header := first;
      curLevel, elementCount := 0, 0;
      nodes, model := [first], map[];
      new;
      assert Open(BuiltFold) && Open(HoldsFold);
      forall p, i | 0 <= p < |nodes| && 0 <= i <= LevelsOf(nodes)[p] ensures LinkOk(nodes, LevelsOf(nodes), p, i) {
      }
    }

    /** Walks level `i` from `nodes[p]` to its last node whose key is below `key`. */
    method Advance(from: Node<K, V>, key: K, i: nat, ghost p: nat) returns (cur: Node<K, V>, ghost u: nat)
      requires Links() && p < |nodes| && from == nodes[p] && i <= from.level
      requires p == 0 || less(from.key, key)
      ensures Links() && Reached(nodes, LevelsOf(nodes), less, key, u, i) && cur == nodes[u]
    {
      assert Open(BuiltFold);
      ghost var ls := LevelsOf(nodes);
      cur, u := from, p;
      assert LinkOk(nodes, ls, u, i);
      while cur.forward[i] != null && less(cur.forward[i].key, key)
        invariant u < |nodes| && cur == nodes[u] && ls[u] >= i && (u == 0 || less(cur.key, key))
        invariant LinkOk(nodes, ls, u, i)
        decreases |nodes| - u
      {
        u := Next(ls, u, i);
        cur := cur.forward[i];
        assert LinkOk(nodes, ls, u, i);
      }
    }

    method NewUpdate() returns (update: array<Node?<K, V>>)
      requires Links()
      ensures Links() && fresh(update) && update.Length == maxLevel + 1
      ensures forall n :: n in nodes ==> n.forward != update
    {
      update := new Node?<K, V>[maxLevel + 1](_ => null);
      assert Open(BuiltFold);
    }

    method Note(update: array<Node?<K, V>>, i: nat, cur: Node<K, V>)
      requires Links() && i < update.Length && forall n :: n in nodes ==> n.forward != update
      modifies update
      ensures Links() && update[..] == old(update[..])[i := cur]
    {
      assert Open(BuiltFold);
      update[i] := cur;
      assert forall p :: 0 <= p < |nodes| ==> nodes[p] in nodes;
    }

    /** On each level up to `curLevel`, the last node whose key is below `key`. */
    method FindPredecessors(key: K) returns (update: array<Node?<K, V>>, cur: Node<K, V>, ghost up: seq<nat>)
      requires Links()
      ensures Links() && fresh(update) && update.Length == maxLevel + 1 == |up|
      ensures forall n :: n in nodes ==> n.forward != update
      ensures up[0] < |nodes| && cur == nodes[up[0]]
      ensures forall i :: 0 <= i <= curLevel ==>
        Reached(nodes, LevelsOf(nodes), less, key, up[i], i) && update[..][i] == nodes[up[i]]
    {
      cur := header;
      update := NewUpdate();
      up := seq(maxLevel + 1, _ => 0);
      ghost var p: nat := 0;
      var i: int := curLevel;
      while i >= 0
        invariant Links() && -1 <= i <= curLevel && |up| == maxLevel + 1
        invariant p < |nodes| && cur == nodes[p] && cur.level >= i && (p == 0 || less(cur.key, key))
        invariant forall j :: i < j <= curLevel ==>
          Reached(nodes, LevelsOf(nodes), less, key, up[j], j) && update[..][j] == nodes[up[j]]
        invariant i < 0 ==> p == up[0]
      {
        cur, p := Advance(cur, key, i, p);
        Note(update, i, cur);
        up := up[i := p];
        i := i - 1;
      }
    }

    /** The last node in front of `key`, found from the highest level in use down. */
    method Descend(key: K) returns (cur: Node<K, V>, ghost p: nat)
      requires Valid() && StrictOrder(less)
      ensures p < |nodes| && cur == nodes[p] && Reached(nodes, LevelsOf(nodes), less, key, p, 0)
    {
      assert Open(BuiltFold);
      cur, p := header, 0;
      var i: int := curLevel;
      while i >= 0
        invariant -1 <= i <= curLevel
        invariant p < |nodes| && cur == nodes[p] && cur.level >= i && (p == 0 || less(cur.key, key))
        invariant i < 0 ==> Reached(nodes, LevelsOf(nodes), less, key, p, 0)
      {
        cur, p := Advance(cur, key, i, p);
        i := i - 1;
      }
    }

    /** Looks `key` up; `value` is what the caller passed when there is none. */
    method SearchElement(key: K, previous: V) returns (found: bool, value: V)
      requires Valid() && StrictOrder(less)
      ensures found <==> key in model
      ensures value == if found then model[key] else previous
    {
      var cur, p := Descend(key);
      assert Open(BuiltFold);
      assert LinkOk(nodes, LevelsOf(nodes), p, 0);
      SplitAt(nodes, less, key, p + 1);
      SplitLookup(nodes, less, model, key, p + 1);
      var next := cur.forward[0];
      found, value := false, previous;
      if next != null && next.key == key {
        found, value := true, next.value;
      }
    }

    /** What following level `i` from the header meets: exactly the elements that reach it, in list order. */
    method DisplayLevel(i: nat) returns (found: seq<Node<K, V>>)
      requires Links() && i <= maxLevel
      ensures Picks(nodes, Reaching(LevelsOf(nodes), 1, i), found)
    {
      ghost var u: nat, at: seq<nat> := 0, [];
      LinkAt(0, i);
      var cur := header.forward[i];
      found := [];
      while cur != null
        invariant Links() && u < |nodes| && nodes[u].level >= i && cur == At(nodes, Next(LevelsOf(nodes), u, i))
        invariant at + Reaching(LevelsOf(nodes), u + 1, i) == Reaching(LevelsOf(nodes), 1, i) && Picks(nodes, at, found)
        decreases |nodes| - u
      {
        at, u := PickNext(nodes, LevelsOf(nodes), at, found, u, i);
        found := found + [cur];
        LinkAt(u, i);
        cur := cur.forward[i];
      }
      ReachingNext(LevelsOf(nodes), u, i);
    }

    lemma LinkAt(p: nat, i: nat)
      requires Links() && p < |nodes| && nodes[p].level >= i
      ensures |nodes| >= 1 && nodes[0] == header
      ensures nodes[p].forward.Length > i && nodes[p].forward[i] == At(nodes, Next(LevelsOf(nodes), p, i))
    {
      assert Open(BuiltFold);
      assert LinkOk(nodes, LevelsOf(nodes), p, i);
    }

    /** Every level is in strictly ascending key order, and nothing reaches a level above `curLevel`. */
    lemma LevelInOrder(i: nat)
      requires Valid()
      ensures var at := Reaching(LevelsOf(nodes), 1, i);
        && (forall k :: 0 <= k < |at| ==> 1 <= at[k] < |nodes|)
        && (forall j, k :: 0 <= j < k < |at| ==> less(nodes[at[j]].key, nodes[at[k]].key))
        && (forall q :: 1 <= q < |nodes| ==> (q in at <==> nodes[q].level >= i))
        && (i > curLevel ==> at == [])
        && (i == curLevel > 0 ==> at != [])
    {
      assert Open(BuiltFold);
      var at := Reaching(LevelsOf(nodes), 1, i);
      ReachingAll(LevelsOf(nodes), 1, i);
      assert forall k :: 0 <= k < |at| ==> at[k] in at;
      assert at != [] ==> at[0] in at;
    }

    method GetRandomLevel() returns (level: nat)
      ensures level <= maxLevel
    {
      level :| 0 <= level <= maxLevel;
    }

    /** Puts the header in front of the levels a new node of level `level` opens. */
    method Raise(update: array<Node?<K, V>>, level: nat, ghost up: seq<nat>, ghost pos: nat)
        returns (ghost ups: seq<nat>)
      requires Links() && level <= maxLevel && 1 <= pos <= |nodes|
      requires update.Length == maxLevel + 1 == |up| && update !in Arrays(nodes)
      requires forall i :: 0 <= i <= curLevel ==> Pred(LevelsOf(nodes), up[i], pos, i) && update[i] == nodes[up[i]]
      requires Holds(nodes, model)
      modifies this`curLevel, update
      ensures Links() && Holds(nodes, model) && curLevel == if level > old(curLevel) then level else old(curLevel)
      ensures |ups| == maxLevel + 1
      ensures forall i :: 0 <= i <= curLevel ==> Pred(LevelsOf(nodes), ups[i], pos, i) && update[i] == nodes[ups[i]]
    {
      assert Open(BuiltFold);
      ups := up;
      if level > curLevel {
        for i := curLevel + 1 to level + 1
          invariant |ups| == maxLevel + 1
          invariant forall j :: 0 <= j < i ==> Pred(LevelsOf(nodes), ups[j], pos, j) && update[j] == nodes[ups[j]]
          invariant Links()
        {
          update[i] := header;
          ups := ups[i := 0];
        }
        curLevel := level;
      }
    }

    /** Links a new node in at `pos`. */
    method LinkNew(update: array<Node?<K, V>>, key: K, value: V, level: nat, ghost up: seq<nat>, ghost pos: nat)
        returns (n: Node<K, V>)
      requires Links() && level <= curLevel && StrictOrder(less)
      requires Splits(nodes, less, key, pos) && (pos < |nodes| ==> nodes[pos].key != key)
      requires update.Length == maxLevel + 1 == |up| && update !in Arrays(nodes)
      requires forall i :: 0 <= i <= curLevel ==> Pred(LevelsOf(nodes), up[i], pos, i) && update[i] == nodes[up[i]]
      modifies this`nodes, Arrays(nodes)
      ensures Links() && nodes == InsertAt(old(nodes), pos, n)
      ensures fresh(n) && fresh(n.forward) && n.key == key && n.value == value && n.level == level
    {
      assert Open(BuiltFold);
      ghost var s, ls := nodes, LevelsOf(nodes);
      n := new Node<K, V>(key, value, level);
      Splice(update, n, s, ls, pos, up[..level + 1]);
      SplicedLinked(s, ls, pos, up[..level + 1], n);
      InsertSorted(s, less, pos, n);
      InsertShape(s, pos, n, curLevel);
      nodes := InsertAt(s, pos, n);
    }

    /** What the search tells about the position of `key`. */
    lemma LocateOk(key: K, up: seq<nat>)
      requires Valid() && StrictOrder(less) && |up| == maxLevel + 1
      requires forall i :: 0 <= i <= curLevel ==> Reached(nodes, LevelsOf(nodes), less, key, up[i], i)
      ensures var pos := up[0] + 1;
        && Splits(nodes, less, key, pos)
        && nodes[up[0]].forward.Length > 0 && nodes[up[0]].forward[0] == At(nodes, pos)
        && (key in model <==> pos < |nodes| && nodes[pos].key == key)
        && forall i :: 0 <= i <= curLevel ==> Pred(LevelsOf(nodes), up[i], pos, i)
    {
      assert Open(BuiltFold);
      var ls, pos := LevelsOf(nodes), up[0] + 1;
      assert Reached(nodes, ls, less, key, up[0], 0);
      assert LinkOk(nodes, ls, up[0], 0);
      SplitAt(nodes, less, key, pos);
      SplitLookup(nodes, less, model, key, pos);
      forall i | 0 <= i <= curLevel ensures Pred(ls, up[i], pos, i) {
        ReachedPred(nodes, ls, less, key, up[i], i, pos);
      }
    }

    /** Records that the list now represents `m`. */
    method Become(ghost m: map<K, V>, count: int)
      requires Links() && Holds(nodes, m)
      modifies this`elementCount, this`model
      ensures Links() && Holds(nodes, model) && model == m && elementCount == count
    {
      assert Open(BuiltFold) && Open(HoldsFold);
      elementCount := count;
      model := m;
    }

    /** Gives the node at `pos` a new value. */
    method Overwrite(cur: Node<K, V>, value: V, ghost pos: nat)
      requires Valid() && StrictOrder(less) && 1 <= pos < |nodes| && nodes[pos] == cur
      modifies this`elementCount, this`model, cur`value
      ensures Valid() && model == old(model)[cur.key := value]
    {
      assert Open(BuiltFold);
      SetValue(cur, value, nodes, less, model, pos);
      Become(model[cur.key := value], elementCount);
    }

    /** Stores a key the list does not hold. */
    method InsertNew(update: array<Node?<K, V>>, key: K, value: V, ghost up: seq<nat>, ghost pos: nat)
      requires Valid() && StrictOrder(less) && key !in model
      requires Splits(nodes, less, key, pos) && (pos < |nodes| ==> nodes[pos].key != key)
      requires update.Length == maxLevel + 1 == |up| && forall n :: n in nodes ==> n.forward != update
      requires forall i :: 0 <= i <= curLevel ==> Pred(LevelsOf(nodes), up[i], pos, i) && update[..][i] == nodes[up[i]]
      modifies this`curLevel, this`elementCount, this`nodes, this`model, Arrays(nodes), update
      ensures Valid() && model == old(model)[key := value]
      ensures exists n: Node<K, V> :: fresh(n) && fresh(n.forward) && nodes == InsertAt(old(nodes), pos, n)
    {
      var level := GetRandomLevel();
      var ups := Raise(update, level, up, pos);
      var n := LinkNew(update, key, value, level, ups, pos);
      InsertHolds(old(nodes), model, pos, n);
      TopInsert(old(nodes), pos, n, old(curLevel));
      Become(model[key := value], elementCount + 1);
    }

    /** Stores `value` under `key`; 1 means the key was there already. */
    method InsertElement(key: K, value: V) returns (existed: int)
      requires Valid() && StrictOrder(less)
      modifies this`curLevel, this`elementCount, this`nodes, this`model, nodes, Arrays(nodes)
      ensures Valid() && model == old(model)[key := value]
      ensures existed == if key in old(model) then 1 else 0
      ensures forall n :: n in nodes ==> n in old(nodes) || fresh(n)
      ensures forall a :: a in Arrays(nodes) ==> a in old(Arrays(nodes)) || fresh(a)
    {
      var update, cur, up := FindPredecessors(key);
      LocateOk(key, up);
      ghost var pos := up[0] + 1;
      var next := cur.forward[0];
      if next != null && next.key == key {
        Overwrite(next, value, pos);
        return 1;
      }
      InsertNew(update, key, value, up, pos);
      return 0;
    }

    /** Takes the node at `pos` out of every level. */
    method LinkOut(update: array<Node?<K, V>>, cur: Node<K, V>, ghost up: seq<nat>, ghost pos: nat)
      requires Links() && StrictOrder(less) && Holds(nodes, model) && 1 <= pos < |nodes| && cur == nodes[pos]
      requires update.Length == maxLevel + 1 == |up| && forall n :: n in nodes ==> n.forward != update
      requires forall i :: 0 <= i <= curLevel ==> Pred(LevelsOf(nodes), up[i], pos, i) && update[..][i] == nodes[up[i]]
      modifies this`nodes, Arrays(nodes)
      ensures Links() && nodes == RemoveAt(old(nodes), pos) && Holds(nodes, model - {cur.key})
      ensures |model - {cur.key}| == |model| - 1
    {
      assert Open(BuiltFold);
      ghost var s, ls := nodes, LevelsOf(nodes);
      Unsplice(update, cur, curLevel, s, ls, pos, up);
      RemoveSorted(s, less, pos);
      RemoveShape(s, pos, curLevel);
      RemoveHolds(s, less, model, pos);
      nodes := RemoveAt(s, pos);
    }

    /** Lowers `curLevel` to the topmost level in use. */
    method Shrink(ghost m: map<K, V>)
      requires Links() && Holds(nodes, m)
      modifies this`curLevel
      ensures Links() && Holds(nodes, m) && Tops(nodes, curLevel)
    {
      assert Open(BuiltFold);
      ghost var ls := LevelsOf(nodes);
      assert LinkOk(nodes, ls, 0, curLevel);
      while curLevel > 0 && header.forward[curLevel] == null
        invariant Links() && Holds(nodes, m) && LinkOk(nodes, ls, 0, curLevel)
      {
        assert Next(ls, 0, curLevel) == |nodes|;
        curLevel := curLevel - 1;
        assert LinkOk(nodes, ls, 0, curLevel);
      }
    }

    /** Removes `key` and says whether it was there. */
    method DeleteElement(key: K) returns (found: bool)
      requires Valid() && StrictOrder(less)
      modifies this`curLevel, this`elementCount, this`nodes, this`model, Arrays(nodes)
      ensures Valid() && model == old(model) - {key}
      ensures found <==> key in old(model)
      ensures forall n :: n in nodes ==> n in old(nodes)
    {
      var update, cur, up := FindPredecessors(key);
      LocateOk(key, up);
      ghost var pos := up[0] + 1;
      var next := cur.forward[0];
      if next == null || next.key != key {
        assert model - {key} == model;
        return false;
      }
      LinkOut(update, next, up, pos);
      Shrink(model - {key});
      Become(model - {key}, elementCount - 1);
      return true;
    }
  }
}
