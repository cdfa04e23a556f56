/** The page cache as an abstract table: what each key holds, how often it was touched and when last. */
module LfuSpec {
  datatype Rec = Rec(value: string, count: nat, touch: nat)
  type Table = map<string, Rec>

  /** `a` is evicted before `b`: fewer accesses, and among equals the older touch. */
  predicate Before(a: Rec, b: Rec) {
    a.count < b.count || (a.count == b.count && a.touch < b.touch)
  }

  ghost predicate IsVictim(t: Table, k: string) {
    k in t && forall j :: j in t && j != k ==> Before(t[k], t[j])
  }

  /** `t` after a hit on `k`. */
  function Accessed(t: Table, k: string, now: nat): Table
    requires k in t
  {
    t[k := Rec(t[k].value, t[k].count + 1, now)]
  }

  /** `t` with room for one more key: a full table has lost `victim`. */
  function Room(t: Table, capacity: nat, victim: string): Table {
    if |t| < capacity then t else t - {victim}
  }

  /** What ticks the clock: a hit, or the storing of a key the table does not hold. */
  datatype Event = Hit(key: string) | Store(key: string, value: string, victim: string)

  ghost predicate Legal(t: Table, capacity: nat, e: Event) {
    match e
    case Hit(k) => k in t
    case Store(k, _, victim) => k !in t && 0 < capacity && (|t| < capacity || IsVictim(t, victim))
  }

  ghost function After(t: Table, capacity: nat, e: Event, now: nat): Table
    requires Legal(t, capacity, e)
  {
    match e
    case Hit(k) => Accessed(t, k, now)
    case Store(k, v, victim) => Room(t, capacity, victim)[k := Rec(v, 1, now)]
  }

  /** `h` is a run of the cache from empty, and `t` the table it ends with. */
  ghost predicate Run(h: seq<Event>, capacity: nat, t: Table) {
    if h == [] then t == map[]
    else exists u :: Run(Front(h), capacity, u) && Step(u, capacity, Last(h), |h| - 1, t)
  }

  function Front(h: seq<Event>): seq<Event>
    requires h != []
  {
    h[..|h| - 1]
  }

  function Last(h: seq<Event>): Event
    requires h != []
  {
    h[|h| - 1]
  }

  lemma RunStep(h: seq<Event>, capacity: nat, t: Table, e: Event, u: Table)
    requires Run(h, capacity, t) && Step(t, capacity, e, |h|, u)
    ensures Run(h + [e], capacity, u)
  {
    assert Front(h + [e]) == h && Last(h + [e]) == e;
  }

  ghost predicate Step(t: Table, capacity: nat, e: Event, now: nat, u: Table) {
    Legal(t, capacity, e) && u == After(t, capacity, e, now)
  }

  // What the history itself says about a key, without any table.

  function LastTouch(h: seq<Event>, k: string): int {
    if h == [] then -1 else if Last(h).key == k then |h| - 1 else LastTouch(Front(h), k)
  }

  function AccessesSinceStored(h: seq<Event>, k: string): nat {
    if h == [] then 0
    else if Last(h).key != k then AccessesSinceStored(Front(h), k)
    else if Last(h).Store? then 1
    else 1 + AccessesSinceStored(Front(h), k)
  }

  function LastStored(h: seq<Event>, k: string): string {
    if h == [] then ""
    else if Last(h).key == k && Last(h).Store? then Last(h).value
    else LastStored(Front(h), k)
  }

  ghost predicate Faithful(h: seq<Event>, t: Table) {
    forall k :: k in t ==>
      t[k].value == LastStored(h, k) && t[k].count == AccessesSinceStored(h, k) && t[k].touch == LastTouch(h, k)
  }

  lemma StepFaithful(h: seq<Event>, t: Table, capacity: nat, e: Event, u: Table)
    requires Faithful(h, t) && Step(t, capacity, e, |h|, u)
    ensures Faithful(h + [e], u)
  {
    assert Front(h + [e]) == h && Last(h + [e]) == e;
    forall k | k in u
      ensures u[k].value == LastStored(h + [e], k)
      ensures u[k].count == AccessesSinceStored(h + [e], k) && u[k].touch == LastTouch(h + [e], k)
    {
      assert k != e.key ==> k in t && u[k] == t[k];
    }
  }

  lemma StepSize(t: Table, capacity: nat, e: Event, now: nat, u: Table)
    requires Step(t, capacity, e, now, u) && |t| <= capacity
    ensures |u| <= capacity
  {
    if e.Store? && |t| >= capacity {
      RemoveSize(t, e.victim);
    }
  }

  lemma FrontLast(h: seq<Event>)
    requires h != []
    ensures h == Front(h) + [Last(h)] && |Front(h)| == |h| - 1
  {
  }

  lemma RunBack(h: seq<Event>, capacity: nat, t: Table) returns (u: Table)
    requires h != [] && Run(h, capacity, t)
    ensures Run(Front(h), capacity, u) && Step(u, capacity, Last(h), |h| - 1, t)
  {
    u :| Run(Front(h), capacity, u) && Step(u, capacity, Last(h), |h| - 1, t);
  }

  /** In every run the table says of each key it holds what the history says, and never outgrows its capacity. */
  lemma {:induction false} RunFaithful(h: seq<Event>, capacity: nat, t: Table)
    requires Run(h, capacity, t)
    ensures Faithful(h, t) && |t| <= capacity
  {
    if h != [] {
      FrontLast(h);
      var u := RunBack(h, capacity, t);
      RunFaithful(Front(h), capacity, u);
      StepFaithful(Front(h), u, capacity, Last(h), t);
      StepSize(u, capacity, Last(h), |Front(h)|, t);
    }
  }

  lemma RemoveSize(t: Table, k: string)
    requires k in t
    ensures |t - {k}| == |t| - 1
  {
    assert (t - {k}).Keys == t.Keys - {k};
    assert |t - {k}| == |(t - {k}).Keys|;
  }

  /** A table whose touches differ has exactly one victim. */
  lemma {:induction false} VictimExists(t: Table, ks: set<string>) returns (k: string)
    requires ks != {} && ks <= t.Keys
    requires forall i, j :: i in t && j in t && i != j ==> t[i].touch != t[j].touch
    ensures k in ks && forall j :: j in ks && j != k ==> Before(t[k], t[j])
    decreases |ks|
  {
    k :| k in ks;
    if ks != {k} {
      var m := VictimExists(t, ks - {k});
      if Before(t[m], t[k]) {
        k := m;
      }
    }
  }

  /** In a run the touches of different keys differ, so a non-empty table has one victim and only one. */
  lemma OneVictim(h: seq<Event>, capacity: nat, t: Table) returns (k: string)
    requires Run(h, capacity, t) && t != map[]
    ensures IsVictim(t, k) && forall j :: IsVictim(t, j) ==> j == k
  {
    RunFaithful(h, capacity, t);
    forall i, j | i in t && j in t && i != j ensures t[i].touch != t[j].touch {
      LastTouchKey(h, i);
      LastTouchKey(h, j);
    }
    var i :| i in t;
    assert i in t.Keys;
    k := VictimExists(t, t.Keys);
  }

  lemma {:induction false} LastTouchKey(h: seq<Event>, k: string)
    ensures LastTouch(h, k) < |h|
    ensures LastTouch(h, k) >= 0 ==> h[LastTouch(h, k)].key == k
  {
    if h != [] {
      LastTouchKey(Front(h), k);
    }
  }
}
