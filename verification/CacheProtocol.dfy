/**
 The bounded cache (`lcache/cache.go`) under concurrency. The map and the counter are separate
 atomic objects: `Set`, `Remove` and an expiring `Get` touch them in separate steps, and the
 capacity guard of `Set` reads both before it acts. A state counts, for every program point and key,
 the calls that stand there; calls at the same point with the same key are interchangeable.
 A run is any sequence of enabled actions, so a claim about all runs is one about all interleavings.
 */
module CacheProtocol {
  import opened Text

  datatype State = State(
    keys: set<string>,           // keys of the map
    size: int,                   // the atomic counter
    arriving: multiset<string>,  // Set calls about to read Full
    probing: multiset<string>,   // Set calls that saw Full and are about to call Exists
    ready: multiset<string>,     // Set calls past the guard, about to Swap
    adding: nat,                 // Set calls that inserted and are about to add 1
    loading: multiset<string>,   // Get calls about to Load
    deleting: multiset<string>,  // Remove calls (also from an expired Get or a Set of nil) about to LoadAndDelete
    subtracting: nat)            // Remove calls that deleted and are about to subtract 1
  {
    function SetsInFlight(): nat { |arriving| + |probing| + |ready| + adding }

    predicate Quiet() { adding == 0 && subtracting == 0 }
  }

  const INIT := State({}, 0, multiset{}, multiset{}, multiset{}, 0, multiset{}, multiset{}, 0)

  datatype Action =
    | BeginSet(key: string)
    | TestFull(key: string)
    | TestExists(key: string)
    | Swap(key: string)
    | AddOne
    | BeginGet(key: string)
    | Load(key: string, expired: bool)
    | BeginRemove(key: string)
    | LoadAndDelete(key: string)
    | SubtractOne

  predicate Full(max: int, s: State) {
    max > 0 && s.size >= max
  }

  /** One atomic step, or None where the action is not enabled. `limit` bounds the `Set` calls in flight. */
  function Step(max: int, limit: nat, s: State, a: Action): Option<State> {
    match a
    case BeginSet(k) =>
      if s.SetsInFlight() < limit then Some(s.(arriving := s.arriving + multiset{k})) else None
    case TestFull(k) =>
      if k !in s.arriving then None
      else if Full(max, s) then
        Some(s.(arriving := s.arriving - multiset{k}, probing := s.probing + multiset{k}))
      else
        Some(s.(arriving := s.arriving - multiset{k}, ready := s.ready + multiset{k}))
    case TestExists(k) =>
      if k !in s.probing then None
      else if k in s.keys then
        Some(s.(probing := s.probing - multiset{k}, ready := s.ready + multiset{k}))
      else
        Some(s.(probing := s.probing - multiset{k}))
    case Swap(k) =>
      if k !in s.ready then None
      else if k in s.keys then
        Some(s.(ready := s.ready - multiset{k}))
      else
        Some(s.(ready := s.ready - multiset{k}, keys := s.keys + {k}, adding := s.adding + 1))
    case AddOne =>
      if s.adding == 0 then None else Some(s.(adding := s.adding - 1, size := s.size + 1))
    case BeginGet(k) =>
      Some(s.(loading := s.loading + multiset{k}))
    case Load(k, expired) =>
      if k !in s.loading then None
      else if k in s.keys && expired then
        Some(s.(loading := s.loading - multiset{k}, deleting := s.deleting + multiset{k}))
      else
        Some(s.(loading := s.loading - multiset{k}))
    case BeginRemove(k) =>
      Some(s.(deleting := s.deleting + multiset{k}))
    case LoadAndDelete(k) =>
      if k !in s.deleting then None
      else if k in s.keys then
        Some(s.(deleting := s.deleting - multiset{k}, keys := s.keys - {k}, subtracting := s.subtracting + 1))
      else
        Some(s.(deleting := s.deleting - multiset{k}))
    case SubtractOne =>
      if s.subtracting == 0 then None else Some(s.(subtracting := s.subtracting - 1, size := s.size - 1))
  }

  function Exec(max: int, limit: nat, s: State, run: seq<Action>): Option<State>
    decreases run
  {
    if run == [] then Some(s)
    else match Step(max, limit, s, run[0])
      case None => None
      case Some(next) => Exec(max, limit, next, run[1..])
  }

  // -------- invariants --------

  function Support(m: multiset<string>): set<string> {
    set k | k in m
  }

  /** Keys in the map or about to be put there. */
  function Claimed(s: State): set<string> {
    s.keys + Support(s.ready)
  }

  predicate CounterExact(s: State) {
    s.size == |s.keys| + s.subtracting - s.adding
  }

  predicate Invariant(max: int, limit: nat, s: State) {
    && CounterExact(s)
    && s.SetsInFlight() <= limit
    && (max > 0 && limit > 0 ==> |Claimed(s)| <= max + limit - 1)
  }

  lemma {:induction false} SupportSmaller(m: multiset<string>)
    ensures |Support(m)| <= |m|
  {
    if m != multiset{} {
      var k :| k in m;
      var rest := m - multiset{k};
      SupportSmaller(rest);
      assert Support(m) == Support(rest) + {k};
    }
  }

  /**
   A call that passes the guard because the counter reads less than the capacity: the counter lags
   by at most the insertions not yet added, which are themselves calls in flight.
   */
  lemma PassingNotFull(max: int, limit: nat, s: State, k: string)
    requires Invariant(max, limit, s) && k in s.arriving && !Full(max, s) && max > 0
    ensures |s.keys + Support(s.ready + multiset{k})| <= max + limit - 1
  {
    SupportSmaller(s.ready + multiset{k});
    var pending := Support(s.ready + multiset{k});
    assert |s.keys + pending| <= |s.keys| + |pending| by {
      SubsetSmaller(s.keys * pending, s.keys);
      assert |s.keys + pending| == |s.keys| + |pending| - |s.keys * pending|;
    }
    assert s.arriving == (s.arriving - multiset{k}) + multiset{k};
  }

  lemma StepKeepsCounter(max: int, limit: nat, s: State, a: Action)
    requires CounterExact(s) && Step(max, limit, s, a).Some?
    ensures CounterExact(Step(max, limit, s, a).value)
  {
  }

  lemma StepKeepsLimit(max: int, limit: nat, s: State, a: Action)
    requires s.SetsInFlight() <= limit && Step(max, limit, s, a).Some?
    ensures Step(max, limit, s, a).value.SetsInFlight() <= limit
  {
  }

  /** Only passing the guard with a counter below the capacity can claim a new key. */
  lemma ClaimsGrowOnlyAtTheGuard(max: int, limit: nat, s: State, a: Action)
    requires Step(max, limit, s, a).Some?
    requires !(a.TestFull? && !Full(max, s))
    ensures Claimed(Step(max, limit, s, a).value) <= Claimed(s)
  {
  }

  lemma StepKeepsInvariant(max: int, limit: nat, s: State, a: Action)
    requires Invariant(max, limit, s) && Step(max, limit, s, a).Some?
    ensures Invariant(max, limit, Step(max, limit, s, a).value)
  {
    StepKeepsCounter(max, limit, s, a);
    StepKeepsLimit(max, limit, s, a);
    if a.TestFull? && !Full(max, s) {
      if max > 0 {
        PassingNotFull(max, limit, s, a.key);
      }
    } else {
      ClaimsGrowOnlyAtTheGuard(max, limit, s, a);
      SubsetSmaller(Claimed(Step(max, limit, s, a).value), Claimed(s));
    }
  }

  lemma {:induction false} RunKeepsInvariant(max: int, limit: nat, s: State, run: seq<Action>)
    requires Invariant(max, limit, s) && Exec(max, limit, s, run).Some?
    ensures Invariant(max, limit, Exec(max, limit, s, run).value)
    decreases run
  {
    if run != [] {
      StepKeepsInvariant(max, limit, s, run[0]);
      RunKeepsInvariant(max, limit, Step(max, limit, s, run[0]).value, run[1..]);
    }
  }

  // -------- the main results --------

  /** In every interleaving with at most `limit` `Set` calls in flight, the map stays within `max + limit - 1` keys. */
  lemma CapacityBound(max: int, limit: nat, run: seq<Action>)
    requires max > 0 && limit > 0 && Exec(max, limit, INIT, run).Some?
    ensures |Exec(max, limit, INIT, run).value.keys| <= max + limit - 1
  {
    RunKeepsInvariant(max, limit, INIT, run);
    var s := Exec(max, limit, INIT, run).value;
    SubsetSmaller(s.keys, Claimed(s));
  }

  /** In every reachable state the counter is the number of keys plus pending subtractions minus pending additions. */
  lemma CounterInEveryRun(max: int, limit: nat, run: seq<Action>)
    requires Exec(max, limit, INIT, run).Some?
    ensures var s := Exec(max, limit, INIT, run).value;
            && s.size == |s.keys| + s.subtracting - s.adding
            && (s.Quiet() ==> s.size == |s.keys|)
            && -(limit as int) <= s.size
  {
    RunKeepsInvariant(max, limit, INIT, run);
  }

  // -------- reachability, for the runs exhibited below --------

  ghost predicate Reaches(max: int, limit: nat, s: State, t: State) {
    exists run :: Exec(max, limit, s, run) == Some(t)
  }

  lemma ReachesBy(max: int, limit: nat, s: State, a: Action)
    requires Step(max, limit, s, a).Some?
    ensures Reaches(max, limit, s, Step(max, limit, s, a).value)
  {
    var run := [a];
    assert run[0] == a && run[1..] == [];
    assert Exec(max, limit, s, run) == Step(max, limit, s, a);
  }

  lemma {:induction false} ExecConcat(max: int, limit: nat, s: State, a: seq<Action>, b: seq<Action>)
    requires Exec(max, limit, s, a).Some?
    ensures Exec(max, limit, s, a + b) == Exec(max, limit, Exec(max, limit, s, a).value, b)
    decreases a
  {
    if a == [] {
      assert a + b == b;
    } else {
      assert (a + b)[1..] == a[1..] + b;
      ExecConcat(max, limit, Step(max, limit, s, a[0]).value, a[1..], b);
    }
  }

  lemma ReachesTransitive(max: int, limit: nat, s: State, t: State, u: State)
    requires Reaches(max, limit, s, t) && Reaches(max, limit, t, u)
    ensures Reaches(max, limit, s, u)
  {
    var a :| Exec(max, limit, s, a) == Some(t);
    var b :| Exec(max, limit, t, b) == Some(u);
    ExecConcat(max, limit, s, a, b);
  }

  /**
   A relation that holds between any two states joined by a run. The runs below are exhibited against
   an arbitrary such relation and instantiated with `Reaches` at the end.
   */
  ghost predicate JoinsRuns(max: int, limit: nat, R: (State, State) -> bool) {
    && (forall s :: R(s, s))
    && (forall s, t, u :: R(s, t) && R(t, u) ==> R(s, u))
    && (forall s, a :: Step(max, limit, s, a).Some? ==> R(s, Step(max, limit, s, a).value))
  }

  lemma ReachesJoinsRuns(max: int, limit: nat)
    ensures JoinsRuns(max, limit, (s, t) => Reaches(max, limit, s, t))
  {
    forall s ensures Reaches(max, limit, s, s) {
      assert Exec(max, limit, s, []) == Some(s);
    }
    forall s, t, u | Reaches(max, limit, s, t) && Reaches(max, limit, t, u) ensures Reaches(max, limit, s, u) {
      ReachesTransitive(max, limit, s, t, u);
    }
    forall s, a | Step(max, limit, s, a).Some? ensures Reaches(max, limit, s, Step(max, limit, s, a).value) {
      ReachesBy(max, limit, s, a);
    }
  }

  /** A Set that finds the cache not full passes the guard. */
  lemma GuardIsPassed(max: int, limit: nat, R: (State, State) -> bool, s: State, k: string)
    requires JoinsRuns(max, limit, R)
    requires s.arriving == multiset{} && s.SetsInFlight() < limit && !Full(max, s)
    ensures R(s, s.(ready := s.ready + multiset{k}))
  {
    var s1 := s.(arriving := s.arriving + multiset{k});
    var s2 := s.(ready := s.ready + multiset{k});
    assert s1.arriving - multiset{k} == s.arriving;
    assert Step(max, limit, s, BeginSet(k)) == Some(s1);
    assert Step(max, limit, s1, TestFull(k)) == Some(s2);
    assert R(s, s1) && R(s1, s2);
  }

  /** A new key, from the arrival of its Set to the Swap. */
  lemma NewKeyIsSwappedIn(max: int, limit: nat, R: (State, State) -> bool, s: State, k: string)
    requires JoinsRuns(max, limit, R)
    requires s.arriving == multiset{} && s.SetsInFlight() < limit && !Full(max, s) && k !in s.keys && k !in s.ready
    ensures R(s, s.(keys := s.keys + {k}, adding := s.adding + 1))
  {
    var s2 := s.(ready := s.ready + multiset{k});
    var s3 := s.(keys := s.keys + {k}, adding := s.adding + 1);
    GuardIsPassed(max, limit, R, s, k);
    assert s2.ready - multiset{k} == s.ready;
    assert Step(max, limit, s2, Swap(k)) == Some(s3);
    assert R(s, s2) && R(s2, s3);
  }

  /** The counter does go negative in the middle: a key may be removed before its insertion is counted. */
  lemma CounterMayBeNegative(max: int, limit: nat)
    requires limit > 0
    ensures exists s :: Reaches(max, limit, INIT, s) && s.size == -1
  {
    ReachesJoinsRuns(max, limit);
    var s := UncountedKeyIsRemoved(max, limit, (s, t) => Reaches(max, limit, s, t));
  }

  lemma UncountedKeyIsRemoved(max: int, limit: nat, R: (State, State) -> bool) returns (s: State)
    requires JoinsRuns(max, limit, R) && limit > 0
    ensures R(INIT, s) && s.size == -1
  {
    var k := "k";
    var s1 := INIT.(keys := {k}, adding := 1);
    var s2 := s1.(deleting := multiset{k});
    var s3 := INIT.(adding := 1, subtracting := 1);
    s := s3.(subtracting := 0, size := -1);
    NewKeyIsSwappedIn(max, limit, R, INIT, k);
    assert INIT.keys + {k} == {k};
    assert s1.deleting + multiset{k} == s2.deleting && s2.deleting - multiset{k} == multiset{} && s2.keys - {k} == {};
    assert Step(max, limit, s1, BeginRemove(k)) == Some(s2);
    assert Step(max, limit, s2, LoadAndDelete(k)) == Some(s3);
    assert Step(max, limit, s3, SubtractOne) == Some(s);
    assert R(INIT, s1) && R(s1, s2) && R(s2, s3) && R(s3, s);
  }

  // -------- the bound is attained --------

  /** The i-th of a family of different keys. */
  function Key(i: nat): (k: string)
    ensures |k| == i
  {
    seq(i, _ => 'k')
  }

  function Keys(n: nat): set<string> {
    if n == 0 then {} else Keys(n - 1) + {Key(n - 1)}
  }

  lemma {:induction false} KeysCount(n: nat)
    ensures |Keys(n)| == n && forall k :: k in Keys(n) ==> |k| < n
  {
    if n > 0 {
      KeysCount(n - 1);
    }
  }

  /** After `n` inserted and counted keys. */
  function Filled(n: nat): State {
    INIT.(keys := Keys(n), size := n)
  }

  lemma {:induction false} FillReaches(max: int, limit: nat, R: (State, State) -> bool, n: nat)
    requires JoinsRuns(max, limit, R) && limit > 0 && n <= max
    ensures R(INIT, Filled(n))
  {
    if n > 0 {
      FillReaches(max, limit, R, n - 1);
      KeysCount(n - 1);
      var s := Filled(n - 1);
      var s1 := s.(keys := Keys(n), adding := 1);
      NewKeyIsSwappedIn(max, limit, R, s, Key(n - 1));
      assert Step(max, limit, s1, AddOne) == Some(Filled(n));
      assert R(INIT, s) && R(s, s1) && R(s1, Filled(n));
    }
  }

  /** The keys number `from` up to `from + n - 1`. */
  function Pack(from: nat, n: nat): multiset<string>
    decreases n
  {
    if n == 0 then multiset{} else Pack(from + 1, n - 1) + multiset{Key(from)}
  }

  lemma {:induction false} PackFacts(from: nat, n: nat)
    ensures |Pack(from, n)| == n && forall k :: k in Pack(from, n) ==> from <= |k|
    decreases n
  {
    if n > 0 {
      PackFacts(from + 1, n - 1);
    }
  }

  /** `n` calls pass the guard on the same counter value. */
  lemma {:induction false} PassReaches(max: int, limit: nat, R: (State, State) -> bool, fill: nat, from: nat, n: nat)
    requires JoinsRuns(max, limit, R) && fill < max && n <= limit
    ensures R(Filled(fill), Filled(fill).(ready := Pack(from, n)))
    decreases n
  {
    if n > 0 {
      PassReaches(max, limit, R, fill, from + 1, n - 1);
      var s1 := Filled(fill).(ready := Pack(from + 1, n - 1));
      var s2 := Filled(fill).(ready := Pack(from, n));
      PackFacts(from + 1, n - 1);
      GuardIsPassed(max, limit, R, s1, Key(from));
      assert s1.(ready := s1.ready + multiset{Key(from)}) == s2;
      assert R(Filled(fill), s1) && R(s1, s2);
    }
  }

  /** The counter stands at `fill`; the keys up to `base` are in the map, those after it in `n` calls still to swap. */
  function Swapping(fill: nat, base: nat, n: nat): State
    requires fill <= base
  {
    INIT.(keys := Keys(base), size := fill, adding := base - fill, ready := Pack(base, n))
  }

  lemma OneSwaps(max: int, limit: nat, fill: nat, base: nat, n: nat)
    requires n > 0 && fill <= base
    ensures Step(max, limit, Swapping(fill, base, n), Swap(Key(base))) == Some(Swapping(fill, base + 1, n - 1))
  {
    var s, t, k := Swapping(fill, base, n), Swapping(fill, base + 1, n - 1), Key(base);
    assert k !in s.keys by {
      KeysCount(base);
    }
    assert t.keys == s.keys + {k};
    PackSplits(base, n);
    NewKeySwaps(max, limit, s, k);
  }

  lemma NewKeySwaps(max: int, limit: nat, s: State, k: string)
    requires k in s.ready && k !in s.keys
    ensures Step(max, limit, s, Swap(k))
            == Some(s.(ready := s.ready - multiset{k}, keys := s.keys + {k}, adding := s.adding + 1))
  {
  }

  lemma PackSplits(from: nat, n: nat)
    requires n > 0
    ensures Key(from) in Pack(from, n) && Pack(from, n) - multiset{Key(from)} == Pack(from + 1, n - 1)
  {
  }

  /** Then all of them swap. */
  lemma {:induction false} SwapReaches(max: int, limit: nat, R: (State, State) -> bool, fill: nat, base: nat, n: nat)
    requires JoinsRuns(max, limit, R) && fill <= base
    ensures R(Swapping(fill, base, n), Swapping(fill, base + n, 0))
    decreases n
  {
    if n > 0 {
      OneSwaps(max, limit, fill, base, n);
      assert R(Swapping(fill, base, n), Swapping(fill, base + 1, n - 1));
      SwapReaches(max, limit, R, fill, base + 1, n - 1);
    }
  }

  lemma AttainedAlong(max: int, limit: nat, R: (State, State) -> bool) returns (full: State)
    requires JoinsRuns(max, limit, R) && max > 0 && limit > 0
    ensures R(INIT, full) && |full.keys| == max + limit - 1
  {
    var fill := max - 1;
    full := Swapping(fill, fill + limit, 0);
    FillReaches(max, limit, R, fill);
    PassReaches(max, limit, R, fill, fill, limit);
    assert Filled(fill).(ready := Pack(fill, limit)) == Swapping(fill, fill, limit);
    SwapReaches(max, limit, R, fill, fill, limit);
    assert R(INIT, Swapping(fill, fill, limit));
    KeysCount(fill + limit);
  }

  /** The bound is exact: for every capacity and every number of calls some run fills it. */
  lemma CapacityAttained(max: int, limit: nat)
    requires max > 0 && limit > 0
    ensures exists s :: Reaches(max, limit, INIT, s) && |s.keys| == max + limit - 1
  {
    ReachesJoinsRuns(max, limit);
    var s := AttainedAlong(max, limit, (s, t) => Reaches(max, limit, s, t));
  }
}
