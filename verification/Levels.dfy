/** The level structure of a skip list, as the sequence of its nodes' levels. */
module Levels {
  /** The index of the next entry after `p` that reaches level `i`, or the length when there is none. */
  ghost function Next(s: seq<nat>, p: nat, i: nat): (n: nat)
    requires p < |s|
    ensures p < n <= |s|
    ensures forall q :: p < q < n ==> s[q] < i
    ensures n < |s| ==> s[n] >= i
    decreases |s| - p
  {
    if p + 1 == |s| || s[p + 1] >= i then p + 1 else Next(s, p + 1, i)
  }

  lemma NextIs(s: seq<nat>, p: nat, i: nat, n: nat)
    requires p < n <= |s|
    requires forall q :: p < q < n ==> s[q] < i
    requires n < |s| ==> s[n] >= i
    ensures Next(s, p, i) == n
  {
  }

  /** The indices from `p` on that reach level `i`. */
  ghost function Reaching(s: seq<nat>, p: nat, i: nat): seq<nat>
    decreases |s| - p
  {
    if p >= |s| then [] else if s[p] >= i then [p] + Reaching(s, p + 1, i) else Reaching(s, p + 1, i)
  }

  lemma {:induction false} ReachingNext(s: seq<nat>, p: nat, i: nat)
    requires p < |s|
    ensures Reaching(s, p + 1, i) ==
      if Next(s, p, i) == |s| then [] else [Next(s, p, i)] + Reaching(s, Next(s, p, i) + 1, i)
    decreases |s| - p
  {
    if p + 1 < |s| && s[p + 1] < i {
      ReachingNext(s, p + 1, i);
    }
  }

  lemma {:induction false} ReachingIn(s: seq<nat>, p: nat, i: nat, q: nat)
    ensures q in Reaching(s, p, i) <==> p <= q < |s| && s[q] >= i
    decreases |s| - p
  {
    if p < |s| {
      ReachingIn(s, p + 1, i, q);
    }
  }

  lemma {:induction false} ReachingAscends(s: seq<nat>, p: nat, i: nat)
    ensures var at := Reaching(s, p, i);
      forall j, k :: 0 <= j < k < |at| ==> at[j] < at[k]
    decreases |s| - p
  {
    if p < |s| {
      ReachingAscends(s, p + 1, i);
      var more := Reaching(s, p + 1, i);
      var at := Reaching(s, p, i);
      if s[p] >= i {
        assert at == [p] + more;
        forall j, k | 0 <= j < k < |at| ensures at[j] < at[k] {
          assert at[k] == more[k - 1] && more[k - 1] in more;
          ReachingIn(s, p + 1, i, more[k - 1]);
          if j > 0 {
            assert at[j] == more[j - 1];
          }
        }
      }
    }
  }

  lemma ReachingAll(s: seq<nat>, p: nat, i: nat)
    ensures var at := Reaching(s, p, i);
      && (forall q :: q in at <==> p <= q < |s| && s[q] >= i)
      && (forall j, k :: 0 <= j < k < |at| ==> at[j] < at[k])
  {
    ReachingAscends(s, p, i);
    forall q: nat ensures q in Reaching(s, p, i) <==> p <= q < |s| && s[q] >= i {
      ReachingIn(s, p, i, q);
    }
  }

  lemma Append(a: seq<nat>, x: nat, b: seq<nat>)
    ensures a + ([x] + b) == a + [x] + b
  {
  }

  /** `u` is the last index before `pos` that reaches level `i`. */
  ghost predicate Pred(s: seq<nat>, u: nat, pos: nat, i: nat) {
    u < pos <= |s| && s[u] >= i && pos <= Next(s, u, i)
  }

  lemma PredUnique(s: seq<nat>, u: nat, p: nat, pos: nat, i: nat)
    requires Pred(s, u, pos, i) && p < pos && s[p] >= i
    ensures pos <= Next(s, p, i) <==> p == u
  {
  }

  ghost function Insert(s: seq<nat>, pos: nat, l: nat): seq<nat>
    requires pos <= |s|
  {
    s[..pos] + [l] + s[pos..]
  }

  ghost function Remove(s: seq<nat>, pos: nat): seq<nat>
    requires pos < |s|
  {
    s[..pos] + s[pos + 1..]
  }

  lemma InsertIndex(s: seq<nat>, pos: nat, l: nat)
    requires pos <= |s|
    ensures var t := Insert(s, pos, l);
      |t| == |s| + 1 && forall q :: 0 <= q < |t| ==> t[q] == if q < pos then s[q] else if q == pos then l else s[q - 1]
  {
  }

  lemma InsertNextAfter(s: seq<nat>, pos: nat, l: nat, p: nat, i: nat)
    requires pos <= p < |s|
    ensures Next(Insert(s, pos, l), p + 1, i) == Next(s, p, i) + 1
  {
    InsertIndex(s, pos, l);
    NextIs(Insert(s, pos, l), p + 1, i, Next(s, p, i) + 1);
  }

  lemma InsertNextBefore(s: seq<nat>, pos: nat, l: nat, p: nat, i: nat)
    requires p < pos <= |s|
    ensures Next(Insert(s, pos, l), p, i) ==
      if Next(s, p, i) < pos then Next(s, p, i) else if l >= i then pos else Next(s, p, i) + 1
  {
    InsertIndex(s, pos, l);
    NextIs(Insert(s, pos, l), p, i,
           if Next(s, p, i) < pos then Next(s, p, i) else if l >= i then pos else Next(s, p, i) + 1);
  }

  lemma InsertNextAt(s: seq<nat>, pos: nat, l: nat, u: nat, i: nat)
    requires Pred(s, u, pos, i)
    ensures Next(Insert(s, pos, l), pos, i) == Next(s, u, i) + 1
  {
    InsertIndex(s, pos, l);
    NextIs(Insert(s, pos, l), pos, i, Next(s, u, i) + 1);
  }

  lemma RemoveIndex(s: seq<nat>, pos: nat)
    requires pos < |s|
    ensures var t := Remove(s, pos);
      |t| == |s| - 1 && forall q :: 0 <= q < |t| ==> t[q] == s[if q < pos then q else q + 1]
  {
  }

  lemma RemoveNextAfter(s: seq<nat>, pos: nat, p: nat, i: nat)
    requires pos < p < |s|
    ensures Next(Remove(s, pos), p - 1, i) == Next(s, p, i) - 1
  {
    RemoveIndex(s, pos);
    NextIs(Remove(s, pos), p - 1, i, Next(s, p, i) - 1);
  }

  lemma RemoveNextBefore(s: seq<nat>, pos: nat, p: nat, i: nat)
    requires p < pos < |s|
    ensures Next(Remove(s, pos), p, i) ==
      var n := Next(s, p, i); if n < pos then n else if n == pos then Next(s, pos, i) - 1 else n - 1
  {
    RemoveIndex(s, pos);
    var n := Next(s, p, i);
    NextIs(Remove(s, pos), p, i, if n < pos then n else if n == pos then Next(s, pos, i) - 1 else n - 1);
  }
}
