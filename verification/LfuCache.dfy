/** The least-frequently-used page cache: frequency nodes in a doubly linked list, each with a doubly linked list of
    keys. */
module LfuCache {
  import opened Folding
  import opened LfuSpec

  datatype Fold = OkFold | HeapFold | WithinFold | GrownFold  // the predicates this module keeps folded

  class KeyNode {
    const key: string
    const value: string
    ghost const isDummy: bool
    var pre: KeyNode?
    var next: KeyNode?

    constructor (key: string, value: string, ghost isDummy: bool)
      ensures this.key == key && this.value == value && this.isDummy == isDummy && next == null
    {
      this.key, this.value, this.isDummy := key, value, isDummy;
      pre, next := null, null;
    }
  }

  /** The keys of one frequency, most recently touched first, behind a dummy head. */
  class KeyList {
    const freq: nat
    const head: KeyNode
    var tail: KeyNode
    ghost var nodes: seq<KeyNode>  // the dummy head, then the keys

    ghost predicate Valid()
      reads this, nodes
    {
      && |nodes| >= 1 && nodes[0] == head && nodes[|nodes| - 1] == tail
      && tail.next == null
      && (forall i {:trigger nodes[i].next} :: 0 <= i < |nodes| - 1 ==> nodes[i].next == nodes[i + 1])
      && (forall i {:trigger nodes[i].pre} :: 1 <= i < |nodes| ==> nodes[i].pre == nodes[i - 1])
      && (forall i, j :: 0 <= i < j < |nodes| ==> nodes[i] != nodes[j])
    }

    constructor (freq: nat)
      ensures Valid() && this.freq == freq && nodes == [head]
      ensures fresh(head) && head.isDummy
    {
      this.freq := freq;
      var dummy := new KeyNode("", "", true);
      head, tail, nodes := dummy, dummy, [dummy];
    }

    method Add(node: KeyNode)
      requires Valid() && node !in nodes
      modifies this`tail, this`nodes, node`pre, node`next, nodes`pre, nodes`next
      ensures Valid()
      ensures nodes == [head, node] + old(nodes)[1..]
    {
      assert |nodes| > 1 ==> nodes[0].next == nodes[1];
      assert |nodes| == 1 ==> nodes[0] == tail;
      if head.next == null {
        tail := node;
      } else {
        head.next.pre := node;
      }
      node.next := head.next;
      node.pre := head;
      head.next := node;
      nodes := [head, node] + nodes[1..];
    }

    method Del(node: KeyNode, ghost q: nat)
      requires Valid() && 1 <= q < |nodes| && nodes[q] == node
      modifies this`tail, this`nodes, nodes`pre, nodes`next
      ensures Valid()
      ensures nodes == old(nodes)[..q] + old(nodes)[q + 1..]
    {
      assert nodes[q].pre == nodes[q - 1];
      assert q < |nodes| - 1 ==> nodes[q].next == nodes[q + 1];
      node.pre.next := node.next;
      if node.next == null {
        tail := node.pre;
      } else {
        node.next.pre := node.pre;
      }
      nodes := nodes[..q] + nodes[q + 1..];
    }

    predicate IsEmpty()
      reads this, nodes
      requires Valid()
      ensures IsEmpty() <==> |nodes| == 1
    {
      head == tail
    }
  }

  class FreqNode {
    const list: KeyList
    var pre: FreqNode?
    var next: FreqNode?

    constructor (freq: nat)
      ensures fresh(list) && list.Valid() && list.freq == freq && list.nodes == [list.head]
      ensures fresh(list.head) && list.head.isDummy && next == null && pre == null
    {
      list := new KeyList(freq);
      pre, next := null, null;
    }
  }

  /** A doubly linked list of distinct frequency nodes. */
  ghost predicate Linked(s: seq<FreqNode>)
    reads s
  {
    && |s| >= 1 && s[|s| - 1].next == null
    && (forall i {:trigger s[i].next} :: 0 <= i < |s| - 1 ==> s[i].next == s[i + 1])
    && (forall i {:trigger s[i].pre} :: 1 <= i < |s| ==> s[i].pre == s[i - 1])
    && (forall i, j :: 0 <= i < j < |s| ==> s[i] != s[j])
  }

  twostate lemma LinkedFrame(s: seq<FreqNode>)
    requires old(Linked(s))
    requires forall i :: 0 <= i < |s| ==> s[i].next == old(s[i].next) && s[i].pre == old(s[i].pre)
    ensures Linked(s)
  {
  }

  /** Links `nxt` behind `nowf == s[p]`. */
  method LinkAfter(nowf: FreqNode, nxt: FreqNode, ghost s: seq<FreqNode>, ghost p: nat)
    requires Linked(s) && p < |s| && s[p] == nowf && nxt !in s
    modifies nxt`pre, nxt`next, s`pre, s`next
    ensures Linked(s[..p + 1] + [nxt] + s[p + 1..])
  {
    assert p + 1 < |s| ==> s[p].next == s[p + 1];
    if nowf.next != null {
      nowf.next.pre := nxt;
    }
    nxt.next := nowf.next;
    nowf.next := nxt;
    nxt.pre := nowf;
  }

  /** Unlinks `node == s[p]`. */
  method Unlink(node: FreqNode, ghost s: seq<FreqNode>, ghost p: nat)
    requires Linked(s) && 1 <= p < |s| && s[p] == node
    modifies s`pre, s`next
    ensures Linked(s[..p] + s[p + 1..])
  {
    assert s[p].pre == s[p - 1];
    assert p + 1 < |s| ==> s[p].next == s[p + 1];
    ghost var t := s[..p] + s[p + 1..];
    assert forall i :: 0 <= i < |t| ==> t[i] == s[if i < p then i else i + 1];
    node.pre.next := node.next;
    if node.next != null {
      node.next.pre := node.pre;
    }
  }

  /** The contents of the key lists as a value: each list with its nodes, dummy head first. */
  type Rows = map<KeyList, seq<KeyNode>>

  ghost function FreqsOf(s: seq<FreqNode>): set<FreqNode> {
    set f | f in s
  }

  ghost function NodesOf(rows: Rows): set<KeyNode> {
    set l, n | l in rows && n in rows[l] :: n
  }

  ghost predicate Lists(rows: Rows)
    reads rows.Keys, NodesOf(rows)
  {
    forall l {:trigger ListOk(rows, l)} :: l in rows ==>
      (forall n :: n in rows[l] ==> n in NodesOf(rows)) && ListOk(rows, l)
  }

  ghost predicate ListOk(rows: Rows, l: KeyList)
    requires l in rows
    reads l, rows[l]
  {
    l.nodes == rows[l] && l.Valid()
  }

  ghost predicate Disjoint(rows: Rows) {
    forall l, m, a, b :: l in rows && m in rows && l != m && 0 <= a < |rows[l]| && 0 <= b < |rows[m]| ==>
      rows[l][a] != rows[m][b]
  }

  twostate lemma ListsFrame(rows: Rows)
    requires old(Lists(rows))
    requires forall l :: l in rows ==> unchanged(l)
    requires forall n :: n in NodesOf(rows) ==> unchanged(n)
    ensures Lists(rows)
  {
    forall l | l in rows ensures ListOk(rows, l) {
      assert old(ListOk(rows, l));
      assert forall i :: 0 <= i < |rows[l]| ==> rows[l][i] in NodesOf(rows);
      assert forall n :: n in rows[l] ==> unchanged(n);
      assert unchanged(l);
    }
  }

  /** Creates the node for frequency `freq` and links it behind `nowf == s[p]`. */
  method NewAfter(nowf: FreqNode, freq: nat, ghost s: seq<FreqNode>, ghost p: nat, ghost rows: Rows)
      returns (nxt: FreqNode)
    requires Linked(s) && p < |s| && s[p] == nowf && Lists(rows)
    modifies s`pre, s`next
    ensures fresh(nxt) && fresh(nxt.list) && fresh(nxt.list.head)
    ensures nxt.list.freq == freq && nxt.list.head.isDummy
    ensures Linked(s[..p + 1] + [nxt] + s[p + 1..])
    ensures Lists(rows[nxt.list := [nxt.list.head]])
  {
    nxt := new FreqNode(freq);
    assert nxt !in s;
    LinkAfter(nowf, nxt, s, p);
    ListsFrame(rows);
    ghost var after := rows[nxt.list := [nxt.list.head]];
    forall l | l in after ensures ListOk(after, l) {
      assert l in rows ==> ListOk(rows, l);
    }
  }

  method AddTo(l: KeyList, node: KeyNode, ghost rows: Rows)
    requires Lists(rows) && Disjoint(rows) && l in rows && |rows[l]| >= 1 && node !in NodesOf(rows)
    modifies l`tail, l`nodes, node`pre, node`next, rows[l]`pre, rows[l]`next
    ensures Lists(rows[l := [l.head, node] + rows[l][1..]])
  {
    ghost var after := rows[l := [l.head, node] + rows[l][1..]];
    assert ListOk(rows, l);
    label before:
    l.Add(node);
    forall m | m in after ensures ListOk(after, m) {
      if m != l {
        assert old@before(ListOk(rows, m));
        assert node !in rows[m];
      }
    }
  }

  method DelFrom(l: KeyList, node: KeyNode, ghost q: nat, ghost rows: Rows)
    requires Lists(rows) && Disjoint(rows) && l in rows && 1 <= q < |rows[l]| && rows[l][q] == node
    modifies l`tail, l`nodes, rows[l]`pre, rows[l]`next
    ensures Lists(rows[l := rows[l][..q] + rows[l][q + 1..]])
  {
    ghost var after := rows[l := rows[l][..q] + rows[l][q + 1..]];
    assert ListOk(rows, l);
    label before:
    l.Del(node, q);
    forall m | m in after ensures ListOk(after, m) {
      if m != l {
        assert old@before(ListOk(rows, m));
      }
    }
  }

  /** The two hash maps and the abstract table they stand for. */
  datatype Maps = Maps(kmap: map<string, KeyNode>, fmap: map<string, FreqNode>, table: Table, clock: nat) {
    /** After a touch of `n`, which now sits in the list of `f`. */
    ghost function Touch(n: KeyNode, f: FreqNode): Maps {
      Maps(kmap[n.key := n], fmap[n.key := f], table[n.key := Rec(n.value, f.list.freq, clock)], clock + 1)
    }

    ghost function Erase(k: string): Maps {
      Maps(kmap - {k}, fmap - {k}, table - {k}, clock)
    }
  }

  /** The maps and the keys each list holds. */
  datatype Index = Index(members: map<KeyList, set<KeyNode>>, maps: Maps) {
    ghost predicate Shape() {
      && (forall l :: l in members ==> l.head.isDummy)
      && (forall l, m :: l in members && m in members && l != m ==> l.head != m.head)
    }

    /** An indexed key sits in the list its hash entries name. */
    ghost predicate KeyOk(k: string) {
      && k in maps.kmap && k in maps.fmap && k in maps.table
      && var n, l, r := maps.kmap[k], maps.fmap[k].list, maps.table[k];
      && n.key == k && !n.isDummy
      && l in members && n in members[l]
      && l.freq >= 1
      && r.value == n.value && r.count == l.freq && r.touch < maps.clock
    }

    /** A listed key is indexed. */
    ghost predicate NodeOk(l: KeyList, n: KeyNode) {
      n.key in maps.kmap && maps.kmap[n.key] == n && n.key in maps.fmap && maps.fmap[n.key].list == l
    }

    ghost predicate Placed() {
      maps.kmap.Keys == maps.fmap.Keys == maps.table.Keys
      && forall k {:trigger KeyOk(k)} :: k in maps.kmap ==> KeyOk(k)
    }

    ghost predicate Listed() {
      forall l, n {:trigger NodeOk(l, n)} :: l in members && n in members[l] ==> NodeOk(l, n)
    }

    ghost predicate Valid() { Shape() && Placed() && Listed() }

    ghost function Remove(n: KeyNode, l: KeyList): Index
      requires l in members
    {
      Index(members[l := members[l] - {n}], maps.Erase(n.key))
    }

    ghost function Insert(n: KeyNode, f: FreqNode): Index
      requires f.list in members
    {
      Index(members[f.list := members[f.list] + {n}], maps.Touch(n, f))
    }
  }

  lemma RemoveValid(x: Index, n: KeyNode, l: KeyList)
    requires x.Valid() && l in x.members && n in x.members[l]
    ensures x.Remove(n, l).Valid()
  {
    var y := x.Remove(n, l);
    assert x.NodeOk(l, n);
    forall k | k in y.maps.kmap ensures y.KeyOk(k) {
      assert x.KeyOk(k);
    }
    forall m, o | m in y.members && o in y.members[m] ensures y.NodeOk(m, o) {
      assert x.NodeOk(m, o);
    }
  }

  lemma InsertValid(x: Index, n: KeyNode, f: FreqNode)
    requires x.Valid() && f.list in x.members && f.list.freq >= 1
    requires n.key !in x.maps.kmap && !n.isDummy
    ensures x.Insert(n, f).Valid()
  {
    var y := x.Insert(n, f);
    forall k | k in y.maps.kmap ensures y.KeyOk(k) {
      assert k != n.key ==> x.KeyOk(k);
    }
    forall m, o | m in y.members && o in y.members[m] ensures y.NodeOk(m, o) {
      assert m != f.list || o != n ==> x.NodeOk(m, o);
    }
  }

  lemma AddRowValid(x: Index, l: KeyList)
    requires x.Valid() && l !in x.members && l.head.isDummy
    requires forall m :: m in x.members ==> m.head != l.head
    ensures x.(members := x.members[l := {}]).Valid()
  {
    var y := x.(members := x.members[l := {}]);
    forall k | k in y.maps.kmap ensures y.KeyOk(k) {
      assert x.KeyOk(k);
    }
    forall m, o | m in y.members && o in y.members[m] ensures y.NodeOk(m, o) {
      assert x.NodeOk(m, o);
    }
  }

  lemma DropRowValid(x: Index, l: KeyList)
    requires x.Valid() && l in x.members && x.members[l] == {}
    ensures x.(members := x.members - {l}).Valid()
  {
    var y := x.(members := x.members - {l});
    forall k | k in y.maps.kmap ensures y.KeyOk(k) {
      assert x.KeyOk(k);
    }
    forall m, o | m in y.members && o in y.members[m] ensures y.NodeOk(m, o) {
      assert x.NodeOk(m, o);
    }
  }

  function Touch(t: Table, n: KeyNode): nat {
    if n.key in t then t[n.key].touch else 0
  }

  /** `s` lists the dummy `h` and then exactly the keys `m`, most recently touched first. */
  ghost predicate Ordered(s: seq<KeyNode>, h: KeyNode, m: set<KeyNode>, t: Table) {
    && |s| >= 1 && s[0] == h
    && (forall a :: 1 <= a < |s| ==> s[a] in m)
    && (forall n :: n in m ==> n in s && n != h)
    && (forall a, b :: 1 <= a < b < |s| ==> Touch(t, s[a]) > Touch(t, s[b]))
  }

  lemma OrderedRemove(s: seq<KeyNode>, h: KeyNode, m: set<KeyNode>, t: Table, q: nat)
    requires Ordered(s, h, m, t) && 1 <= q < |s|
    ensures Ordered(s[..q] + s[q + 1..], h, m - {s[q]}, t)
  {
    var r := s[..q] + s[q + 1..];
    assert forall a :: 0 <= a < |r| ==> r[a] == s[if a < q then a else a + 1];
    forall n | n in m - {s[q]} ensures n in r {
      var c :| 0 <= c < |s| && s[c] == n;
      assert r[if c < q then c else c - 1] == n;
    }
    forall a | 1 <= a < |r| ensures r[a] in m - {s[q]} {
      var c := if a < q then a else a + 1;
      assert Touch(t, s[c]) != Touch(t, s[q]);
    }
  }

  lemma OrderedInsert(s: seq<KeyNode>, h: KeyNode, m: set<KeyNode>, t: Table, n: KeyNode)
    requires Ordered(s, h, m, t) && n !in m && n != h
    requires forall o :: o in m ==> Touch(t, o) < Touch(t, n)
    ensures Ordered([h, n] + s[1..], h, m + {n}, t)
  {
    var r := [h, n] + s[1..];
    assert forall a :: 2 <= a < |r| ==> r[a] == s[a - 1];
    assert r[1] == n;
    forall o | o in m ensures o in r {
      var c :| 0 <= c < |s| && s[c] == o;
      assert r[c + 1] == o;
    }
  }

  lemma OrderedFrame(s: seq<KeyNode>, h: KeyNode, m: set<KeyNode>, t: Table, u: Table)
    requires Ordered(s, h, m, t)
    requires forall n :: n in m ==> Touch(t, n) == Touch(u, n)
    ensures Ordered(s, h, m, u)
  {
  }

  ghost predicate Increasing(freqs: seq<FreqNode>) {
    forall i, j :: 0 <= i < j < |freqs| ==> freqs[i].list.freq < freqs[j].list.freq
  }

  /** The cache as a value: the big list, the contents of its key lists, and the maps. */
  datatype State = State(freqs: seq<FreqNode>, rows: Rows, ix: Index)
  {
    /** The big list ascends from frequency 0, and holds every node a hash entry names. */
    ghost predicate Big() {
      && |freqs| >= 1 && freqs[0].list.freq == 0
      && Increasing(freqs)
      && rows.Keys == ix.members.Keys
      && (forall i :: 0 <= i < |freqs| ==> freqs[i].list in rows)
      && (forall k {:trigger HomeOk(k)} :: k in ix.maps.fmap ==> HomeOk(k))
    }

    ghost predicate HomeOk(k: string)
      requires k in ix.maps.fmap
    {
      ix.maps.fmap[k] in freqs
    }

    ghost predicate RowOk(l: KeyList)
      requires l in rows && l in ix.members
    {
      Ordered(rows[l], l.head, ix.members[l], ix.maps.table)
    }

    ghost predicate Order() {
      forall l {:trigger RowOk(l)} :: l in rows && l in ix.members ==> RowOk(l)
    }

    /** Only the dummy head's list, and possibly those at `but`, are empty. */
    ghost predicate Full(but: set<int>)
      requires Big()
    {
      && ix.members[freqs[0].list] == {}
      && forall i :: 1 <= i < |freqs| && i !in but ==> ix.members[freqs[i].list] != {}
    }

    ghost predicate Good(but: set<int>) { ix.Valid() && Big() && Order() && Full(but) }

    /** `Good`, kept folded: the solver opens it only where a proof says `Open(OkFold)`. */
    ghost predicate Ok(but: set<int>) {
      forall u {:trigger Open(u)} :: u == OkFold ==> Good(but)
    }

    ghost predicate Row(p: nat) {
      p < |freqs| && freqs[p].list in rows && freqs[p].list in ix.members && |rows[freqs[p].list]| >= 1
    }

    ghost function AddRow(p: nat, nxt: FreqNode): State
      requires p < |freqs|
    {
      State(freqs[..p + 1] + [nxt] + freqs[p + 1..], rows[nxt.list := [nxt.list.head]],
            ix.(members := ix.members[nxt.list := {}]))
    }

    ghost function Remove(p: nat, q: nat): State
      requires Row(p) && 1 <= q < |rows[freqs[p].list]|
    {
      var l := freqs[p].list;
      State(freqs, rows[l := rows[l][..q] + rows[l][q + 1..]], ix.Remove(rows[l][q], l))
    }

    ghost function Insert(p: nat, n: KeyNode): State
      requires Row(p)
    {
      var l := freqs[p].list;
      State(freqs, rows[l := [l.head, n] + rows[l][1..]], ix.Insert(n, freqs[p]))
    }

    ghost function DropRow(p: nat): State
      requires p < |freqs|
    {
      var l := freqs[p].list;
      State(freqs[..p] + freqs[p + 1..], rows - {l}, ix.(members := ix.members - {l}))
    }
  }

  ghost predicate CanAdd(x: State, p: nat, nxt: FreqNode) {
    && p < |x.freqs| && nxt.list !in x.rows
    && nxt.list.freq == x.freqs[p].list.freq + 1
    && (p + 1 < |x.freqs| ==> x.freqs[p + 1].list.freq > nxt.list.freq)
  }

  lemma AddRowHome(x: State, p: nat, nxt: FreqNode, k: string)
    requires p < |x.freqs| && k in x.ix.maps.fmap && x.HomeOk(k)
    ensures x.AddRow(p, nxt).HomeOk(k)
  {
    var y := x.AddRow(p, nxt);
    var c :| 0 <= c < |x.freqs| && x.freqs[c] == x.ix.maps.fmap[k];
    assert y.freqs[if c <= p then c else c + 1] == x.ix.maps.fmap[k];
  }

  lemma InsertIncreasing(freqs: seq<FreqNode>, p: nat, nxt: FreqNode)
    requires Increasing(freqs) && p < |freqs| && freqs[p].list.freq < nxt.list.freq
    requires p + 1 < |freqs| ==> nxt.list.freq < freqs[p + 1].list.freq
    ensures Increasing(freqs[..p + 1] + [nxt] + freqs[p + 1..])
  {
    var after := freqs[..p + 1] + [nxt] + freqs[p + 1..];
    forall i, j | 0 <= i < j < |after| ensures after[i].list.freq < after[j].list.freq {
      assert i <= p ==> after[i] == freqs[i] && freqs[i].list.freq <= freqs[p].list.freq;
      assert j > p + 1 ==> after[j] == freqs[j - 1] && freqs[p + 1].list.freq <= freqs[j - 1].list.freq;
    }
  }

  lemma AddRowBig(x: State, p: nat, nxt: FreqNode)
    requires x.Big() && CanAdd(x, p, nxt)
    ensures x.AddRow(p, nxt).Big()
  {
    var y := x.AddRow(p, nxt);
    InsertIncreasing(x.freqs, p, nxt);
    forall i | 0 <= i < |y.freqs| ensures y.freqs[i].list in y.rows {
      assert y.freqs[i] == if i <= p then x.freqs[i] else if i == p + 1 then nxt else x.freqs[i - 1];
    }
    forall k | k in y.ix.maps.fmap ensures y.HomeOk(k) {
      assert x.HomeOk(k);
      AddRowHome(x, p, nxt, k);
    }
  }

  lemma AddRowFull(x: State, p: nat, nxt: FreqNode)
    requires x.Big() && CanAdd(x, p, nxt) && x.Full({})
    requires x.AddRow(p, nxt).Big()
    ensures x.AddRow(p, nxt).Full({p + 1})
  {
    var y := x.AddRow(p, nxt);
    assert forall i :: 0 <= i < |y.freqs| ==>
      y.freqs[i] == if i <= p then x.freqs[i] else if i == p + 1 then nxt else x.freqs[i - 1];
  }

  lemma AddRowOrder(x: State, p: nat, nxt: FreqNode)
    requires x.Order() && CanAdd(x, p, nxt) && x.rows.Keys == x.ix.members.Keys
    ensures x.AddRow(p, nxt).Order()
  {
    var y := x.AddRow(p, nxt);
    forall l | l in y.rows ensures y.RowOk(l) {
      assert l in x.rows ==> x.RowOk(l);
    }
  }

  lemma AddRowOk(x: State, p: nat, nxt: FreqNode)
    requires x.Ok({}) && CanAdd(x, p, nxt) && nxt.list.head.isDummy
    requires forall m :: m in x.rows ==> m.head != nxt.list.head
    ensures x.AddRow(p, nxt).Ok({p + 1})
  {
    assert Open(OkFold);
    AddRowValid(x.ix, nxt.list);
    AddRowBig(x, p, nxt);
    AddRowFull(x, p, nxt);
    AddRowOrder(x, p, nxt);
  }

  lemma RemoveOrder(x: State, p: nat, q: nat)
    requires x.ix.Valid() && x.Big() && x.Order()
    requires p < |x.freqs| && 1 <= q < |x.rows[x.freqs[p].list]|
    ensures x.rows[x.freqs[p].list][q] in x.ix.members[x.freqs[p].list]
    ensures x.Remove(p, q).Order()
  {
    var f, y := x.freqs[p].list, x.Remove(p, q);
    var n := x.rows[f][q];
    assert x.RowOk(f);
    assert x.ix.NodeOk(f, n);
    OrderedRemove(x.rows[f], f.head, x.ix.members[f], x.ix.maps.table, q);
    forall l | l in y.rows ensures y.RowOk(l) {
      assert x.RowOk(l);
      forall o | o in y.ix.members[l] ensures o.key != n.key {
        assert x.ix.NodeOk(l, o);
      }
      OrderedFrame(y.rows[l], l.head, y.ix.members[l], x.ix.maps.table, y.ix.maps.table);
    }
  }

  lemma RemoveOk(x: State, p: nat, q: nat, but: set<int>)
    requires x.Ok(but) && 1 <= p && x.Row(p) && 1 <= q < |x.rows[x.freqs[p].list]|
    ensures x.Remove(p, q).Ok(but + {p})
  {
    assert Open(OkFold);
    RemoveOrder(x, p, q);
    RemoveValid(x.ix, x.rows[x.freqs[p].list][q], x.freqs[p].list);
    var y := x.Remove(p, q);
    forall k | k in y.ix.maps.fmap ensures y.HomeOk(k) {
      assert x.HomeOk(k);
    }
  }

  lemma InsertOrder(x: State, p: nat, n: KeyNode)
    requires x.ix.Valid() && x.Big() && x.Order()
    requires p < |x.freqs| && !n.isDummy && n.key !in x.ix.maps.kmap
    ensures x.Row(p) && x.Insert(p, n).Order()
  {
    var f := x.freqs[p].list;
    assert x.RowOk(f);
    var y := x.Insert(p, n);
    forall l, o | l in x.ix.members && o in x.ix.members[l]
      ensures o.key != n.key && o != n && Touch(y.ix.maps.table, o) == Touch(x.ix.maps.table, o) < x.ix.maps.clock
    {
      assert x.ix.NodeOk(l, o);
      assert x.ix.KeyOk(o.key);
    }
    forall l | l in x.rows ensures Ordered(x.rows[l], l.head, x.ix.members[l], y.ix.maps.table) {
      assert x.RowOk(l);
      OrderedFrame(x.rows[l], l.head, x.ix.members[l], x.ix.maps.table, y.ix.maps.table);
    }
    OrderedInsert(x.rows[f], f.head, x.ix.members[f], y.ix.maps.table, n);
    forall l | l in y.rows ensures y.RowOk(l) {
    }
  }

  lemma InsertOk(x: State, p: nat, n: KeyNode, but: set<int>, after: set<int>)
    requires but <= after + {p}
    requires x.Ok(but) && 1 <= p < |x.freqs| && !n.isDummy && n.key !in x.ix.maps.kmap
    ensures x.Row(p) && x.Insert(p, n).Ok(after)
  {
    assert Open(OkFold);
    InsertOrder(x, p, n);
    InsertValid(x.ix, n, x.freqs[p]);
    var y := x.Insert(p, n);
    forall k | k in y.ix.maps.fmap ensures y.HomeOk(k) {
      assert k != n.key ==> x.HomeOk(k);
    }
  }

  lemma DropRowHome(x: State, p: nat, k: string)
    requires p < |x.freqs| && k in x.ix.maps.fmap && x.HomeOk(k) && x.ix.maps.fmap[k] != x.freqs[p]
    ensures x.DropRow(p).HomeOk(k)
  {
    var y := x.DropRow(p);
    var c :| 0 <= c < |x.freqs| && x.freqs[c] == x.ix.maps.fmap[k];
    assert y.freqs[if c < p then c else c - 1] == x.ix.maps.fmap[k];
  }

  lemma DropRowBig(x: State, p: nat)
    requires x.ix.Valid() && x.Big() && 1 <= p < |x.freqs| && x.ix.members[x.freqs[p].list] == {}
    ensures x.DropRow(p).Big()
  {
    var y := x.DropRow(p);
    assert forall i :: 0 <= i < |y.freqs| ==> y.freqs[i] == x.freqs[if i < p then i else i + 1];
    forall k | k in y.ix.maps.fmap ensures y.HomeOk(k) {
      assert x.HomeOk(k);
      assert x.ix.KeyOk(k);
      DropRowHome(x, p, k);
    }
  }

  lemma DropRowFull(x: State, p: nat)
    requires x.Big() && 1 <= p < |x.freqs| && x.Full({p}) && x.DropRow(p).Big()
    ensures x.DropRow(p).Full({})
  {
    var y := x.DropRow(p);
    assert forall i :: 0 <= i < |y.freqs| ==> y.freqs[i] == x.freqs[if i < p then i else i + 1];
  }

  lemma DropRowOk(x: State, p: nat)
    requires x.Ok({p}) && 1 <= p && x.Row(p) && x.ix.members[x.freqs[p].list] == {}
    ensures x.DropRow(p).Ok({})
  {
    assert Open(OkFold);
    var y := x.DropRow(p);
    DropRowValid(x.ix, x.freqs[p].list);
    DropRowBig(x, p);
    DropRowFull(x, p);
    forall l | l in y.rows ensures y.RowOk(l) {
      assert x.RowOk(l);
    }
  }

  /** `x` after `nxt` has been made the node for the frequency after that of `freqs[p]`. */
  ghost function WithNext(x: State, p: nat, nxt: FreqNode): State
    requires p < |x.freqs|
  {
    if p + 1 < |x.freqs| && x.freqs[p + 1].list.freq == x.freqs[p].list.freq + 1 then x else x.AddRow(p, nxt)
  }

  lemma OkRow(x: State, p: nat, but: set<int>)
    requires x.Ok(but) && p < |x.freqs|
    ensures p > 0 ==> x.freqs[p - 1].list.freq < x.freqs[p].list.freq && x.freqs[p] != x.freqs[0]
    ensures x.Row(p) && x.rows[x.freqs[p].list][0] == x.freqs[p].list.head
    ensures x.freqs[0].list.freq == 0
    ensures x.Row(p) && Disjoint(x.rows) && forall n :: n in x.rows[x.freqs[p].list] ==> n in NodesOf(x.rows)
    ensures |x.rows[x.freqs[p].list]| == 1 <==> x.ix.members[x.freqs[p].list] == {}
  {
    assert Open(OkFold);
    var l := x.freqs[p].list;
    assert x.RowOk(l);
    assert |x.rows[l]| > 1 ==> x.rows[l][1] in x.ix.members[l];
    assert |x.rows[l]| == 1 ==> forall n :: n in x.ix.members[l] ==> n == x.rows[l][0];
    RowsDisjoint(x);
  }

  lemma RowsDisjoint(x: State)
    requires x.ix.Valid() && x.Big() && x.Order()
    ensures Disjoint(x.rows)
  {
    forall l, m, a, b | l in x.rows && m in x.rows && l != m && 0 <= a < |x.rows[l]| && 0 <= b < |x.rows[m]|
      ensures x.rows[l][a] != x.rows[m][b]
    {
      assert x.RowOk(l) && x.RowOk(m);
      NodeKind(x, l, a);
      NodeKind(x, m, b);
    }
  }

  /** A list holds its own dummy first and then keys that are indexed there. */
  lemma NodeKind(x: State, l: KeyList, a: nat)
    requires x.ix.Valid() && x.Big() && x.Order() && l in x.rows && a < |x.rows[l]|
    ensures if a == 0 then x.rows[l][0] == l.head && l.head.isDummy
            else !x.rows[l][a].isDummy && x.ix.NodeOk(l, x.rows[l][a])
  {
    assert x.RowOk(l);
    if a > 0 {
      assert x.ix.NodeOk(l, x.rows[l][a]);
      assert x.ix.KeyOk(x.rows[l][a].key);
    }
  }

  lemma FullOk(x: State, p: nat)
    requires x.Ok({p}) && x.Row(p) && x.ix.members[x.freqs[p].list] != {}
    ensures x.Ok({})
  {
    assert Open(OkFold);
  }

  /** The facts about linking in the next frequency that `AddFreq` relies on. */
  lemma NextOk(x: State, p: nat, nxt: FreqNode)
    requires x.Ok({}) && p < |x.freqs|
    requires var y := WithNext(x, p, nxt);
      y == x || (nxt.list !in x.rows && nxt.list.head.isDummy && nxt.list.freq == x.freqs[p].list.freq + 1
                 && forall m :: m in x.rows ==> m.head != nxt.list.head)
    ensures var y := WithNext(x, p, nxt);
      && y.Ok({p + 1}) && p + 1 < |y.freqs| && y.freqs[p] == x.freqs[p]
      && (forall l :: l in x.rows ==> l in y.rows && y.rows[l] == x.rows[l])
      && y.ix.maps == x.ix.maps
      && (forall n :: n in NodesOf(y.rows) && n !in NodesOf(x.rows) ==> y != x && n == nxt.list.head && n.isDummy)
  {
    assert Open(OkFold);
    if WithNext(x, p, nxt) != x {
      AddRowOk(x, p, nxt);
    }
  }

  /** A removed key is in no list any more. */
  lemma RemovedGone(x: State, p: nat, q: nat, but: set<int>)
    requires x.Ok(but) && p < |x.freqs| && x.Row(p) && 1 <= q < |x.rows[x.freqs[p].list]|
    requires x.Remove(p, q).Ok(but + {p})
    ensures x.rows[x.freqs[p].list][q] !in NodesOf(x.Remove(p, q).rows) && !x.rows[x.freqs[p].list][q].isDummy
  {
    assert Open(OkFold);
    var y, n := x.Remove(p, q), x.rows[x.freqs[p].list][q];
    NodeKind(x, x.freqs[p].list, q);
    forall l, a | l in y.rows && 0 <= a < |y.rows[l]| ensures y.rows[l][a] != n {
      NodeKind(y, l, a);
    }
  }

  /** Taking a key out of one list and putting it in another touches it. */
  lemma MoveTouches(x: State, p: nat, q: nat, r: nat)
    requires x.Row(p) && 1 <= q < |x.rows[x.freqs[p].list]| && x.Remove(p, q).Row(r)
    ensures var n := x.rows[x.freqs[p].list][q];
      x.Remove(p, q).Insert(r, n).ix.maps == x.ix.maps.Touch(n, x.freqs[r])
  {
    var m, n := x.ix.maps, x.rows[x.freqs[p].list][q];
    assert (m.kmap - {n.key})[n.key := n] == m.kmap[n.key := n];
    assert (m.fmap - {n.key})[n.key := x.freqs[r]] == m.fmap[n.key := x.freqs[r]];
    assert m.Erase(n.key).Touch(n, x.freqs[r]).table == m.Touch(n, x.freqs[r]).table;
  }

  /** `n` is a new key (`p == 0`) or the `q`th key of the `p`th list, whose node is `f`. */
  ghost predicate At(x: State, p: nat, q: nat, n: KeyNode, f: FreqNode) {
    && x.Row(p) && x.freqs[p] == f
    && (p == 0 ==> n !in NodesOf(x.rows) && !n.isDummy && n.key !in x.ix.maps.kmap)
    && (p > 0 ==> 1 <= q < |x.rows[f.list]| && x.rows[f.list][q] == n)
  }

  ghost predicate CanMove(x: State, p: nat, q: nat, n: KeyNode, f: FreqNode, nxt: FreqNode) {
    x.Ok({p + 1}) && At(x, p, q, n, f) && x.Row(p + 1) && x.freqs[p + 1] == nxt
  }

  /** What `AddFreq` relies on once `nxt` is in place. */
  lemma NextReady(x: State, p: nat, q: nat, n: KeyNode, f: FreqNode, nxt: FreqNode)
    requires x.Ok({}) && At(x, p, q, n, f)
    requires var y := WithNext(x, p, nxt);
      && p + 1 < |y.freqs| && y.freqs[p + 1] == nxt
      && (y == x || (nxt.list !in x.rows && nxt.list.head.isDummy && nxt.list.freq == x.freqs[p].list.freq + 1
                     && forall m :: m in x.rows ==> m.head != nxt.list.head))
    ensures var y := WithNext(x, p, nxt); CanMove(y, p, q, n, f, nxt) && y.ix.maps == x.ix.maps
  {
    NextOk(x, p, nxt);
    var y := WithNext(x, p, nxt);
    OkRow(y, p, {p + 1});
    OkRow(y, p + 1, {p + 1});
  }

  /** `y` is made of objects of `x` and the key node `n` (kept folded like `Ok`). */
  ghost predicate Within(y: State, x: State, n: KeyNode) {
    forall u {:trigger Open(u)} :: u == WithinFold ==>
      && FreqsOf(y.freqs) <= FreqsOf(x.freqs)
      && y.rows.Keys <= x.rows.Keys
      && NodesOf(y.rows) <= NodesOf(x.rows) + {n}
  }

  lemma WithinTrans(z: State, y: State, x: State, n: KeyNode)
    requires Within(z, y, n) && Within(y, x, n)
    ensures Within(z, x, n)
  {
    assert Open(WithinFold);
  }

  lemma InNodes(rows: Rows, l: KeyList, a: nat)
    requires l in rows && a < |rows[l]|
    ensures rows[l][a] in NodesOf(rows)
  {
    assert rows[l][a] in rows[l];
  }

  lemma Place(rows: Rows, o: KeyNode) returns (m: KeyList, a: nat)
    requires o in NodesOf(rows)
    ensures m in rows && a < |rows[m]| && rows[m][a] == o
  {
    m :| m in rows && o in rows[m];
    a :| 0 <= a < |rows[m]| && rows[m][a] == o;
  }

  lemma InsertWithin(x: State, p: nat, n: KeyNode)
    requires x.Row(p) && x.rows[x.freqs[p].list][0] == x.freqs[p].list.head
    ensures Within(x.Insert(p, n), x, n)
  {
    var l, y := x.freqs[p].list, x.Insert(p, n);
    forall o | o in NodesOf(y.rows) ensures o in NodesOf(x.rows) + {n} {
      var m, a := Place(y.rows, o);
      InNodes(x.rows, m, if m == l && a > 0 then a - 1 else a);
    }
  }

  lemma RemoveWithin(x: State, p: nat, q: nat, n: KeyNode)
    requires x.Row(p) && 1 <= q < |x.rows[x.freqs[p].list]|
    ensures Within(x.Remove(p, q), x, n)
  {
    var l, y := x.freqs[p].list, x.Remove(p, q);
    forall o | o in NodesOf(y.rows) ensures o in NodesOf(x.rows) {
      var m, a := Place(y.rows, o);
      InNodes(x.rows, m, if m == l && a >= q then a + 1 else a);
    }
  }

  /** `n` has moved on to the next list: from the `q`th place in the `p`th list, or from outside. */
  ghost predicate Shifted(x: State, y: State, p: nat, q: nat, n: KeyNode) {
    if p == 0 then x.Row(1) && y == x.Insert(1, n)
    else
      && x.Row(p) && 1 <= q < |x.rows[x.freqs[p].list]| && x.rows[x.freqs[p].list][q] == n
      && x.Remove(p, q).Row(p + 1) && y == x.Remove(p, q).Insert(p + 1, n)
  }

  lemma ShiftWithin(x: State, y: State, p: nat, q: nat, n: KeyNode, f: FreqNode, nxt: FreqNode)
    requires CanMove(x, p, q, n, f, nxt) && Shifted(x, y, p, q, n)
    ensures Within(y, x, n) && y.freqs == x.freqs && y.ix.maps == x.ix.maps.Touch(n, nxt)
  {
    OkRow(x, p + 1, {p + 1});
    if p == 0 {
      InsertWithin(x, 1, n);
    } else {
      OkRow(x, p, {p + 1});
      RemoveWithin(x, p, q, n);
      InsertWithin(x.Remove(p, q), p + 1, n);
      WithinTrans(y, x.Remove(p, q), x, n);
      MoveTouches(x, p, q, p + 1);
    }
  }

  lemma DropWithin(x: State, p: nat, n: KeyNode)
    requires x.Row(p)
    ensures Within(x.DropRow(p), x, n)
  {
    var y := x.DropRow(p);
    forall o | o in NodesOf(y.rows) ensures o in NodesOf(x.rows) + {n} {
      var m, a := Place(y.rows, o);
      InNodes(x.rows, m, a);
    }
    assert y.rows.Keys <= x.rows.Keys;
    forall f | f in FreqsOf(y.freqs) ensures f in FreqsOf(x.freqs) {
      var i :| 0 <= i < |y.freqs| && y.freqs[i] == f;
      assert x.freqs[if i < p then i else i + 1] == f;
    }
    assert FreqsOf(y.freqs) <= FreqsOf(x.freqs);
    assert y.rows.Keys <= x.rows.Keys;
    assert NodesOf(y.rows) <= NodesOf(x.rows) + {n};
  }

  lemma WithinRefl(x: State, n: KeyNode)
    ensures Within(x, x, n)
  {
  }

  /** The objects are linked as the state says (kept folded like `Ok`). */
  ghost predicate Heap(x: State, head: FreqNode)
    reads x.freqs, x.rows.Keys, NodesOf(x.rows)
  {
    x.freqs != [] && x.freqs[0] == head
    && forall u {:trigger Open(u)} :: u == HeapFold ==> Linked(x.freqs) && Lists(x.rows)
  }

  /** Whatever `y` has that `x` has not, except `n`, is freshly allocated (kept folded like `Ok`). */
  twostate predicate Grown(x: State, new y: State, new n: KeyNode) {
    forall u {:trigger Open(u)} :: u == GrownFold ==>
      && (forall f :: f in FreqsOf(y.freqs) ==> f in FreqsOf(x.freqs) || fresh(f))
      && (forall l :: l in y.rows.Keys ==> l in x.rows.Keys || fresh(l))
      && (forall o :: o in NodesOf(y.rows) ==> o in NodesOf(x.rows) || o == n || fresh(o))
  }

  twostate lemma GrownWithin(x: State, new y: State, new z: State, new n: KeyNode)
    requires Grown(x, y, n) && Within(z, y, n)
    ensures Grown(x, z, n)
  {
    assert Open(GrownFold) && Open(WithinFold);
  }

  ghost function Repr(x: State): set<object> {
    FreqsOf(x.freqs) + x.rows.Keys + NodesOf(x.rows)
  }

  twostate lemma GrownFresh(x: State, new y: State, new n: KeyNode)
    requires Grown(x, y, n)
    ensures forall o :: o in Repr(y) ==> o in Repr(x) || o == n || fresh(o)
  {
    assert Open(GrownFold);
  }

  lemma TouchIsAccess(m: Maps, n: KeyNode, f: FreqNode)
    requires n.key in m.table && m.table[n.key].value == n.value && f.list.freq == m.table[n.key].count + 1
    ensures m.Touch(n, f).table == Accessed(m.table, n.key, m.clock)
  {
  }

  lemma SameKeys(x: State)
    requires x.Ok({})
    ensures x.ix.maps.kmap.Keys == x.ix.maps.fmap.Keys == x.ix.maps.table.Keys
  {
    assert Open(OkFold);
  }

  lemma SameSize(x: State)
    requires x.Ok({})
    ensures |x.ix.maps.kmap| == |x.ix.maps.table|
    ensures x.ix.maps.kmap.Keys == x.ix.maps.table.Keys
  {
    SameKeys(x);
    assert |x.ix.maps.kmap| == |x.ix.maps.kmap.Keys| && |x.ix.maps.table| == |x.ix.maps.table.Keys|;
  }

  /** The position of an indexed key. */
  lemma Locate(x: State, k: string) returns (p: nat, q: nat)
    requires x.Ok({}) && k in x.ix.maps.kmap
    ensures k in x.ix.maps.fmap && k in x.ix.maps.table && x.ix.maps.kmap[k].key == k
    ensures p > 0 && At(x, p, q, x.ix.maps.kmap[k], x.ix.maps.fmap[k])
    ensures x.ix.maps.kmap[k] in NodesOf(x.rows)
    ensures x.ix.maps.table[k].count == x.ix.maps.fmap[k].list.freq
    ensures x.ix.maps.table[k].value == x.ix.maps.kmap[k].value
  {
    assert Open(OkFold);
    assert x.ix.KeyOk(k) && x.HomeOk(k);
    var n, f := x.ix.maps.kmap[k], x.ix.maps.fmap[k];
    p :| 0 <= p < |x.freqs| && x.freqs[p] == f;
    assert x.RowOk(f.list);
    q :| 0 <= q < |x.rows[f.list]| && x.rows[f.list][q] == n;
    InNodes(x.rows, f.list, q);
  }

  ghost function Blank(dummy: FreqNode): State {
    State([dummy], map[dummy.list := [dummy.list.head]], Index(map[dummy.list := {}], Maps(map[], map[], map[], 0)))
  }

  lemma BlankOk(dummy: FreqNode)
    requires dummy.list.freq == 0 && dummy.list.head.isDummy
    ensures Blank(dummy).Ok({})
  {
    var x := Blank(dummy);
    assert x.RowOk(dummy.list);
    assert x.Good({});
  }

  lemma WithinRepr(y: State, x: State, n: KeyNode)
    requires Within(y, x, n) && n in NodesOf(x.rows)
    ensures Repr(y) <= Repr(x)
  {
    assert Open(WithinFold);
  }

  lemma HasFirst(x: State)
    requires x.Ok({}) && |x.ix.maps.kmap| > 0
    ensures |x.freqs| > 1
  {
    SameKeys(x);
    var k :| k in x.ix.maps.kmap;
    var p, q := Locate(x, k);
  }

  /** The last key of the first list is the victim. */
  lemma LastIsVictim(x: State) returns (q: nat)
    requires x.Ok({}) && |x.freqs| > 1
    ensures x.Row(1) && 1 <= q == |x.rows[x.freqs[1].list]| - 1
    ensures var n := x.rows[x.freqs[1].list][q]; n in NodesOf(x.rows) && IsVictim(x.ix.maps.table, n.key)
  {
    var l, t := x.freqs[1].list, x.ix.maps.table;
    OkRow(x, 1, {});
    q := |x.rows[l]| - 1;
    assert Open(OkFold);
    var k := x.rows[l][q].key;
    NodeKind(x, l, q);
    InNodes(x.rows, l, q);
    assert x.ix.KeyOk(k);
    forall j | j in t && j != k ensures Before(t[k], t[j]) {
      SameKeys(x);
      var p, r := Locate(x, j);
      if p == 1 {
        assert x.RowOk(l);
      }
    }
  }

  lemma EraseSize<X, Y>(m: map<X, Y>, k: X)
    requires k in m
    ensures |m - {k}| == |m| - 1
  {
    assert (m - {k}).Keys == m.Keys - {k};
    assert |m - {k}| == |(m - {k}).Keys|;
  }

  class LFUCache {
    const head: FreqNode
    const capacity: nat
    var kmap: map<string, KeyNode>
    var fmap: map<string, FreqNode>
    ghost var st: State

    ghost function Table(): Table reads this { st.ix.maps.table }
    ghost function Clock(): nat reads this { st.ix.maps.clock }

    ghost predicate Valid()
      reads this, st.freqs, st.rows.Keys, NodesOf(st.rows)
    {
      Heap(st, head) && st.Ok({}) && kmap == st.ix.maps.kmap && fmap == st.ix.maps.fmap && |kmap| <= capacity
    }

    /** The node for the frequency after that of `nowf`, linked in when it does not exist yet. */
    method FindNext(nowf: FreqNode, ghost p: nat) returns (nxt: FreqNode)
      requires Heap(st, head) && p < |st.freqs| && st.freqs[p] == nowf
      modifies this`st, st.freqs`pre, st.freqs`next
      ensures Heap(st, head) && st == WithNext(old(st), p, nxt)
      ensures st == old(st) || (fresh(nxt) && fresh(nxt.list) && fresh(nxt.list.head) && nxt.list.head.isDummy)
      ensures nxt.list.freq == nowf.list.freq + 1 && p + 1 < |st.freqs| && st.freqs[p + 1] == nxt
    {
      assert Open(HeapFold);
      assert p + 1 < |st.freqs| ==> st.freqs[p].next == st.freqs[p + 1];
      if nowf.next == null || nowf.next.list.freq != nowf.list.freq + 1 {
        nxt := NewAfter(nowf, nowf.list.freq + 1, st.freqs, p, st.rows);
        ghost var next := st.AddRow(p, nxt);
        label linked:
        st := next;
        ListsFrame@linked(next.rows);
      } else {
        nxt := nowf.next;
      }
    }

    method Name(key: string, f: FreqNode)
      requires Heap(st, head)
      modifies this`fmap
      ensures Heap(st, head) && fmap == old(fmap)[key := f]
    {
      assert this !in Repr(st);
      fmap := fmap[key := f];
      assert Open(HeapFold);
    }

    /** `FindNext`, with what it means for the state; the key's map entry then names the node. */
    method NextFreq(nowf: FreqNode, nowk: KeyNode, ghost p: nat, ghost q: nat) returns (nxt: FreqNode)
      requires Heap(st, head) && st.Ok({}) && At(st, p, q, nowk, nowf)
      modifies this`st, this`fmap, FreqsOf(st.freqs)
      ensures Heap(st, head) && CanMove(st, p, q, nowk, nowf, nxt) && fmap == old(fmap)[nowk.key := nxt]
      ensures nxt.list.freq == nowf.list.freq + 1 && st.ix.maps == old(st).ix.maps
      ensures Grown(old(st), st, nowk)
    {
      ghost var x := st;
      nxt := FindNext(nowf, p);
      NextReady(x, p, q, nowk, nowf, nxt);
      NextOk(x, p, nxt);
      assert forall f :: f in FreqsOf(st.freqs) ==> f in FreqsOf(x.freqs) || (st != x && f == nxt);
      assert forall l :: l in st.rows.Keys ==> l in x.rows.Keys || (st != x && l == nxt.list);
      Name(nowk.key, nxt);
    }

    /** Takes the `q`th key out of the `p`th list. */
    method TakeOut(nowk: KeyNode, nowf: FreqNode, ghost p: nat, ghost q: nat, ghost but: set<int>)
      requires Heap(st, head) && st.Ok(but) && st.Row(p) && 1 <= p && st.freqs[p] == nowf
      requires 1 <= q < |st.rows[nowf.list]| && st.rows[nowf.list][q] == nowk
      modifies this`st, nowf.list`tail, nowf.list`nodes, st.rows[nowf.list]`pre, st.rows[nowf.list]`next
      ensures Heap(st, head) && st == old(st).Remove(p, q) && st.Ok(but + {p})
      ensures nowk !in NodesOf(st.rows) && !nowk.isDummy
    {
      assert Open(HeapFold);
      ghost var next := st.Remove(p, q);
      OkRow(st, p, but);
      RemoveOk(st, p, q, but);
      RemovedGone(st, p, q, but);
      label before:
      DelFrom(nowf.list, nowk, q, st.rows);
      LinkedFrame@before(st.freqs);
      label deleted:
      st := next;
      ListsFrame@deleted(next.rows);
    }

    /** Puts a key at the front of the `p`th list. */
    method PutIn(nowk: KeyNode, nxt: FreqNode, ghost p: nat, ghost but: set<int>, ghost after: set<int>)
      requires Heap(st, head) && st.Ok(but) && st.Row(p) && 1 <= p && st.freqs[p] == nxt && but <= after + {p}
      requires nowk !in NodesOf(st.rows) && !nowk.isDummy && nowk.key !in st.ix.maps.kmap
      modifies this`st, nxt.list`tail, nxt.list`nodes, nowk`pre, nowk`next
      modifies st.rows[nxt.list]`pre, st.rows[nxt.list]`next
      ensures Heap(st, head) && st == old(st).Insert(p, nowk) && st.Ok(after)
    {
      assert Open(HeapFold);
      ghost var next := st.Insert(p, nowk);
      OkRow(st, p, but);
      InsertOk(st, p, nowk, but, after);
      label before:
      AddTo(nxt.list, nowk, st.rows);
      LinkedFrame@before(st.freqs);
      label added:
      st := next;
      ListsFrame@added(next.rows);
    }

    /** Unlinks an emptied frequency node. */
    method Del(node: FreqNode, ghost p: nat)
      requires Heap(st, head) && st.Row(p) && 1 <= p && st.freqs[p] == node
      modifies this`st, st.freqs`pre, st.freqs`next
      ensures Heap(st, head) && st == old(st).DropRow(p)
    {
      assert Open(HeapFold);
      ghost var next := st.DropRow(p);
      label before:
      Unlink(node, st.freqs, p);
      ListsFrame@before(st.rows);
      assert Lists(next.rows) by {
        forall l | l in next.rows ensures ListOk(next.rows, l) {
          assert ListOk(st.rows, l);
        }
      }
      label unlinked:
      st := next;
      ListsFrame@unlinked(next.rows);
    }

    /** Takes `nowk` out of the `p`th list, unless it is new, and puts it in the next one. */
    method Shift(nowk: KeyNode, nowf: FreqNode, nxt: FreqNode, ghost p: nat, ghost q: nat)
      requires Heap(st, head) && CanMove(st, p, q, nowk, nowf, nxt)
      modifies this`st, st.rows.Keys, NodesOf(st.rows), nowk
      ensures Heap(st, head) && st.Ok(if p == 0 then {} else {p}) && Shifted(old(st), st, p, q, nowk)
    {
      ghost var x, but: set<int> := st, {p + 1};
      OkRow(x, p, {p + 1});
      OkRow(x, p + 1, {p + 1});
      if nowf != head {
        TakeOut(nowk, nowf, p, q, {p + 1});
        but := but + {p};
      }
      assert st.rows[nxt.list] == x.rows[nxt.list];
      PutIn(nowk, nxt, p + 1, but, if p == 0 then {} else {p});
    }

    /** Drops the node of a frequency that has no key left. */
    method Tidy(nowf: FreqNode, ghost p: nat, ghost nowk: KeyNode)
      requires Heap(st, head) && st.Ok(if p == 0 then {} else {p}) && p < |st.freqs| && st.freqs[p] == nowf
      modifies this`st, FreqsOf(st.freqs)
      ensures Heap(st, head) && st.Ok({}) && st.ix.maps == old(st).ix.maps
      ensures p == 0 ==> st == old(st)
      ensures Within(st, old(st), nowk)
    {
      assert Open(HeapFold);
      OkRow(st, p, if p == 0 then {} else {p});
      assert ListOk(st.rows, nowf.list);
      if nowf != head && nowf.list.IsEmpty() {
        DropRowOk(st, p);
        DropWithin(st, p, nowk);
        Del(nowf, p);
      } else if p != 0 {
        FullOk(st, p);
      }
      WithinRefl(st, nowk);
    }

    /** Shifts `nowk` and drops the frequency it leaves when that has no key left. */
    method Move(nowk: KeyNode, nowf: FreqNode, nxt: FreqNode, ghost p: nat, ghost q: nat)
      requires Heap(st, head) && CanMove(st, p, q, nowk, nowf, nxt)
      modifies this`st, FreqsOf(st.freqs), st.rows.Keys, NodesOf(st.rows), nowk
      ensures Heap(st, head) && st.Ok({}) && st.ix.maps == old(st).ix.maps.Touch(nowk, nxt)
      ensures p == 0 ==> |st.freqs| > 1 && st.freqs[1] == nxt
      ensures Within(st, old(st), nowk)
    {
      ghost var y := st;
      Shift(nowk, nowf, nxt, p, q);
      ghost var z := st;
      ShiftWithin(y, z, p, q, nowk, nowf, nxt);
      Tidy(nowf, p, nowk);
      WithinTrans(st, z, y, nowk);
    }

    /** Moves `nowk` from the list of `nowf` to the front of the list for the next frequency, that of `nxt`. */
    method AddFreq(nowk: KeyNode, nowf: FreqNode, ghost p: nat, ghost q: nat) returns (ghost nxt: FreqNode)
      requires Heap(st, head) && st.Ok({}) && At(st, p, q, nowk, nowf) && fmap == st.ix.maps.fmap
      modifies this`st, this`fmap, FreqsOf(st.freqs), st.rows.Keys, NodesOf(st.rows), nowk
      ensures Heap(st, head) && st.Ok({}) && fmap == st.ix.maps.fmap && Grown(old(st), st, nowk)
      ensures st.ix.maps == old(st).ix.maps.Touch(nowk, nxt) && nxt.list.freq == nowf.list.freq + 1
      ensures p == 0 ==> |st.freqs| > 1 && st.freqs[1] == nxt
    {
      var next := NextFreq(nowf, nowk, p, q);
      nxt := next;
      assert Open(GrownFold);
      ghost var y := st;
      Move(nowk, nowf, next, p, q);
      GrownWithin(old(st), y, st, nowk);
    }

    constructor Initialize(capacity: nat)
      ensures Valid() && this.capacity == capacity && Table() == map[] && Clock() == 0
      ensures fresh(Repr(st))
    {
      this.capacity := capacity;
      var dummy := new FreqNode(0);
      head := dummy;
      kmap, fmap := map[], map[];
      st := Blank(dummy);
      new;
      BlankOk(dummy);
      assert Linked(st.freqs) && ListOk(st.rows, dummy.list) && Lists(st.rows);
    }

    /** Counts an access to `key` and returns its value. */
    method Hit(key: string) returns (value: string)
      requires Valid() && key in kmap && key in fmap && key in Table()
      modifies this`st, this`fmap, Repr(st)
      ensures Valid() && forall o :: o in Repr(st) ==> o in old(Repr(st)) || fresh(o)
      ensures value == old(Table()[key].value)
      ensures Table() == old(Accessed(Table(), key, Clock())) && Clock() == old(Clock()) + 1
    {
      var nowk, nowf := kmap[key], fmap[key];
      ghost var p, q := Locate(st, key);
      value := nowk.value;
      assert kmap[key := nowk] == kmap;
      ghost var nxt := AddFreq(nowk, nowf, p, q);
      TouchIsAccess(old(st.ix.maps), nowk, nxt);
      GrownFresh(old(st), st, nowk);
    }

    /** Looks `key` up and, on a hit, appends its value to `val` and counts the access. */
    method Get(key: string, val: string) returns (hit: bool, out: string)
      requires Valid()
      modifies this`st, this`fmap, Repr(st)
      ensures Valid() && forall o :: o in Repr(st) ==> o in old(Repr(st)) || fresh(o)
      ensures hit <==> key in old(Table())
      ensures hit ==> out == val + old(Table()[key].value) && Table() == old(Accessed(Table(), key, Clock()))
      ensures hit ==> Clock() == old(Clock()) + 1
      ensures !hit ==> out == val && st == old(st)
    {
      hit, out := false, val;
      SameKeys(st);
      if capacity == 0 {
        return;
      }
      if key in fmap {
        var value := Hit(key);
        hit, out := true, val + value;
      }
    }

    method First() returns (first: FreqNode)
      requires Heap(st, head) && |st.freqs| > 1
      ensures first == st.freqs[1] && Heap(st, head)
    {
      assert Open(HeapFold);
      assert st.freqs[0].next == st.freqs[1];
      first := head.next;
    }

    /** The last key of the first list. */
    method FindLast() returns (first: FreqNode, last: KeyNode, ghost q: nat)
      requires Heap(st, head) && st.Ok({}) && |st.ix.maps.kmap| > 0
      ensures st.Row(1) && st.freqs[1] == first && 1 <= q < |st.rows[first.list]| && st.rows[first.list][q] == last
      ensures last in NodesOf(st.rows) && IsVictim(Table(), last.key) && last.key in st.ix.maps.kmap
    {
      HasFirst(st);
      SameKeys(st);
      q := LastIsVictim(st);
      first := First();
      assert Open(HeapFold);
      assert ListOk(st.rows, first.list);
      last := first.list.tail;
    }

    /** Takes a key out of the first list for good. */
    method Discard(last: KeyNode, first: FreqNode, ghost q: nat)
      requires Heap(st, head) && st.Ok({}) && st.Row(1) && At(st, 1, q, last, first)
      modifies this`st, Repr(st)
      ensures Heap(st, head) && st.Ok({}) && st.ix.maps == old(st).ix.maps.Erase(last.key)
      ensures Within(st, old(st), last)
    {
      ghost var x := st;
      OkRow(x, 1, {});
      RemoveWithin(x, 1, q, last);
      TakeOut(last, first, 1, q, {});
      ghost var y := st;
      assert {} + {1} == {1};
      assert y.freqs == x.freqs;
      Tidy(first, 1, last);
      WithinTrans(st, y, x, last);
    }

    /** Erases a key from the two maps. */
    method Erase(key: string, ghost m: Maps)
      requires Heap(st, head) && kmap == m.kmap && fmap == m.fmap && key in kmap
      modifies this`kmap, this`fmap
      ensures Heap(st, head) && kmap == m.Erase(key).kmap && fmap == m.Erase(key).fmap && |kmap| == |m.kmap| - 1
    {
      assert this !in Repr(st);
      EraseSize(kmap, key);
      kmap := kmap - {key};
      fmap := fmap - {key};
      assert Open(HeapFold);
    }

    /** Takes a key of the first list out of the cache. */
    method Drop(last: KeyNode, first: FreqNode, ghost q: nat)
      requires Heap(st, head) && st.Ok({}) && st.Row(1) && At(st, 1, q, last, first)
      requires kmap == st.ix.maps.kmap && fmap == st.ix.maps.fmap && last.key in kmap
      modifies this`st, this`kmap, this`fmap, Repr(st)
      ensures Heap(st, head) && st.Ok({}) && kmap == st.ix.maps.kmap && fmap == st.ix.maps.fmap
      ensures st.ix.maps == old(st).ix.maps.Erase(last.key)
      ensures |kmap| == old(|kmap|) - 1 && Within(st, old(st), last)
    {
      ghost var m := st.ix.maps;
      Discard(last, first, q);
      Erase(last.key, m);
    }

    /** Erases the least used key, and among equals the one touched longest ago. */
    method Evict() returns (ghost victim: string)
      requires Valid() && |kmap| == capacity > 0
      modifies this`st, this`kmap, this`fmap, Repr(st)
      ensures Valid() && |kmap| == capacity - 1 && Repr(st) <= old(Repr(st)) && Clock() == old(Clock())
      ensures IsVictim(old(Table()), victim) && Table() == old(Table()) - {victim}
    {
      var first, last, q := FindLast();
      victim := last.key;
      Drop(last, first, q);
      WithinRepr(st, old(st), last);
    }

    /** Records a new key and the node of the first frequency. */
    method Record(nowk: KeyNode, first: FreqNode, ghost m: Maps)
      requires Heap(st, head) && kmap == m.kmap && fmap == m.Touch(nowk, first).fmap && nowk.key !in kmap
      modifies this`kmap, this`fmap
      ensures Heap(st, head) && kmap == m.Touch(nowk, first).kmap && fmap == m.Touch(nowk, first).fmap
      ensures |kmap| == |m.kmap| + 1
    {
      assert this !in Repr(st);
      kmap := kmap[nowk.key := nowk];
      fmap := fmap[nowk.key := first];
      assert Open(HeapFold);
    }

    /** Gives a new key its first access and records it in both maps. */
    method Link(nowk: KeyNode) returns (first: FreqNode)
      requires Heap(st, head) && st.Ok({}) && kmap == st.ix.maps.kmap && fmap == st.ix.maps.fmap
      requires At(st, 0, 0, nowk, head) && head.list.freq == 0
      modifies this`st, this`kmap, this`fmap, FreqsOf(st.freqs), st.rows.Keys, NodesOf(st.rows), nowk
      ensures Heap(st, head) && st.Ok({}) && kmap == st.ix.maps.kmap && fmap == st.ix.maps.fmap
      ensures |kmap| == old(|kmap|) + 1 && Grown(old(st), st, nowk)
      ensures first.list.freq == 1 && st.ix.maps == old(st).ix.maps.Touch(nowk, first)
    {
      ghost var nxt := AddFreq(nowk, head, 0, 0);
      first := First();
      Record(nowk, first, old(st).ix.maps);
    }

    /** Stores a new key when there is room. */
    method Admit(key: string, val: string)
      requires Valid() && key !in kmap && |kmap| < capacity
      modifies this`st, this`kmap, this`fmap, Repr(st)
      ensures Valid() && forall o :: o in Repr(st) ==> o in old(Repr(st)) || fresh(o)
      ensures Table() == old(Table())[key := Rec(val, 1, old(Clock()))] && Clock() == old(Clock()) + 1
    {
      var nowk := new KeyNode(key, val, false);
      OkRow(st, 0, {});
      label made:
      var first := Link(nowk);
      GrownFresh@made(old(st), st, nowk);
    }

    /** Evicts the least used key from a full cache. */
    method MakeRoom(ghost key: string) returns (ghost victim: string)
      requires Valid() && capacity > 0 && key !in Table()
      modifies this`st, this`kmap, this`fmap, Repr(st)
      ensures Valid() && |kmap| < capacity && key !in kmap && Repr(st) <= old(Repr(st)) && Clock() == old(Clock())
      ensures Table() == Room(old(Table()), capacity, victim)
      ensures |old(Table())| < capacity || IsVictim(old(Table()), victim)
    {
      SameSize(st);
      victim := "";
      if |kmap| == capacity {
        victim := Evict();
        SameSize(st);
      }
    }

    /** Stores a key that is not in the cache, evicting the least used one from a full cache. */
    method Set(key: string, val: string) returns (ghost victim: string)
      requires Valid() && key !in Table()
      modifies this`st, this`kmap, this`fmap, Repr(st)
      ensures Valid() && forall o :: o in Repr(st) ==> o in old(Repr(st)) || fresh(o)
      ensures capacity == 0 ==> Table() == old(Table()) && Clock() == old(Clock())
      ensures capacity > 0 ==> |old(Table())| < capacity || IsVictim(old(Table()), victim)
      ensures capacity > 0 ==> Clock() == old(Clock()) + 1
      ensures capacity > 0 ==>
        Table() == Room(old(Table()), capacity, victim)[key := Rec(val, 1, old(Clock()))]
    {
      if capacity == 0 {
        return "";
      }
      victim := MakeRoom(key);
      Admit(key, val);
    }
  }

  /** Every cached page is what the disk holds. */
  ghost predicate Coherent(t: Table, disk: map<string, string>) {
    forall k :: k in t ==> k in disk && t[k].value == disk[k]
  }

  /** The run `h` is what the cache has been through. */
  ghost predicate Traced(cache: LFUCache, h: seq<Event>)
    reads cache
  {
    Run(h, cache.capacity, cache.Table()) && cache.Clock() == |h|
  }

  /** A page that was not cached is stored, in place of the least used one of a full cache; without capacity nothing
      is. */
  ghost predicate Stored(t: Table, u: Table, capacity: nat, name: string, page: string, h: seq<Event>, h': seq<Event>) {
    if capacity == 0 then u == t && h' == h
    else exists victim ::
      && (|t| >= capacity ==> IsVictim(t, victim))
      && h' == h + [Store(name, page, victim)]
      && u == (if |t| < capacity then t else t - {victim})[name := Rec(page, 1, |h|)]
  }

  /** Stores a page that was not in the cache. */
  method Load(cache: LFUCache, name: string, page: string, ghost h: seq<Event>) returns (ghost h': seq<Event>)
    requires cache.Valid() && name !in cache.Table() && Traced(cache, h)
    modifies cache`st, cache`kmap, cache`fmap, Repr(cache.st)
    ensures cache.Valid() && forall o :: o in Repr(cache.st) ==> o in old(Repr(cache.st)) || fresh(o)
    ensures Traced(cache, h') && Stored(old(cache.Table()), cache.Table(), cache.capacity, name, page, h, h')
  {
    ghost var victim := cache.Set(name, page);
    h' := h;
    if cache.capacity > 0 {
      h' := h + [Store(name, page, victim)];
      RunStep(h, cache.capacity, old(cache.Table()), Store(name, page, victim), cache.Table());
    }
  }

  lemma StoredCoherent(t: Table, u: Table, capacity: nat, name: string, disk: map<string, string>, h: seq<Event>,
                       h': seq<Event>)
    requires name in disk && Stored(t, u, capacity, name, disk[name], h, h') && Coherent(t, disk)
    ensures Coherent(u, disk)
  {
  }

  lemma SameTail(a: string, b: string, c: string)
    ensures a + b == a + c <==> b == c
  {
    assert (a + b)[|a|..] == b && (a + c)[|a|..] == c;
  }

  /** The cache section of a response: the page comes from the cache, or from disk and is then stored; `disk` is what
      can be opened and mapped at the moment. A cached page is never looked at again: the response is the page as it is
      now if and only if the cache has not got the name or the page has not changed since it was stored last. */
  method Serve(cache: LFUCache, name: string, header: string, disk: map<string, string>, ghost h: seq<Event>)
      returns (found: bool, response: string, ghost h': seq<Event>)
    requires cache.Valid() && Traced(cache, h)
    modifies cache`st, cache`kmap, cache`fmap, Repr(cache.st)
    ensures cache.Valid() && forall o :: o in Repr(cache.st) ==> o in old(Repr(cache.st)) || fresh(o)
    ensures Traced(cache, h') && (old(Coherent(cache.Table(), disk)) ==> Coherent(cache.Table(), disk))
    ensures found <==> name in old(cache.Table()) || name in disk
    ensures found && name in disk ==>
      (response == header + disk[name] <==>
        name !in old(cache.Table()) || LastStored(h, name) == disk[name])
    ensures name in old(cache.Table()) ==>
      && response == header + LastStored(h, name) && old(cache.Table())[name].value == LastStored(h, name)
      && h' == h + [Hit(name)] && cache.Table() == Accessed(old(cache.Table()), name, |h|)
    ensures name !in old(cache.Table()) && name in disk ==>
      Stored(old(cache.Table()), cache.Table(), cache.capacity, name, disk[name], h, h')
    ensures !found ==> response == "" && cache.st == old(cache.st) && h' == h
  {
    RunFaithful(h, cache.capacity, cache.Table());
    found, response := cache.Get(name, header);
    h' := h;
    if found {
      h' := h + [Hit(name)];
      RunStep(h, cache.capacity, old(cache.Table()), Hit(name), cache.Table());
      if name in disk {
        SameTail(header, old(cache.Table()[name].value), disk[name]);
      }
    } else if name in disk {
      found, response := true, response + disk[name];
      h' := Load(cache, name, disk[name], h);
      if old(Coherent(cache.Table(), disk)) {
        StoredCoherent(old(cache.Table()), cache.Table(), cache.capacity, name, disk, h, h');
      }
    } else {
      response := "";
    }
  }
}
