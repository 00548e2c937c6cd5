/**
 Failed lookups over whole runs of the engine (`handler.go`, `responseFor`): a failure is put into the
 negative cache, so that the question is not looked up again. Requests may overlap in any way. A failing
 lookup counts as under way until its failure is in the negative cache, or has been refused.
 */
module Failures {
  import opened Text
  import opened Questions
  import opened Engine
  import CF = CnameFollowing
  import L = Lcache
  import P = Provenance
  import S = Serving

  /** A lookup of the question is under way. */
  ghost predicate UnderWay(s: State, q: WireQuestion) {
    exists x :: x in s.lookups && SameQuestion(q, x)
  }

  predicate HasFailed(s: State, q: WireQuestion) {
    exists i :: 0 <= i < |s.failures| && SameQuestion(q, s.failures[i])
  }

  predicate FailedTwice(s: State, q: WireQuestion) {
    exists i, j :: 0 <= i < j < |s.failures| && SameQuestion(q, s.failures[i]) && SameQuestion(q, s.failures[j])
  }

  /** The question whose lookup a step starts, if it starts one. */
  ghost function Sent(cfg: Config, s: State, a: Action): Option<WireQuestion> {
    match a
    case Ask(q) => if Clean(cfg, q) && IsIPQuery(q) == 0 then Some(q) else None
    case Proceed(Missed(q)) => if Lower(Key(cfg, q)) in s.neg.backend then None else Some(q)
    case Proceed(FoundNegExpired(q)) => Some(q)
    case _ => None
  }

  ghost predicate Sends(cfg: Config, s: State, a: Action, q: WireQuestion) {
    Sent(cfg, s, a).Some? && SameQuestion(q, Sent(cfg, s, a).value)
  }

  /** A step starts the lookup it sends, ends the one that fails or answers, and touches no other. */
  lemma StepLookups(cfg: Config, s: State, a: Action, s': State)
    requires Step(cfg, false, s, a) == Some(s')
    ensures !a.LookupFails? ==> s'.failures == s.failures
    ensures !a.LookupFails? && Sent(cfg, s, a).None? ==> s'.lookups <= s.lookups
    ensures Sent(cfg, s, a).Some? ==> s'.lookups == s.lookups + multiset{Sent(cfg, s, a).value}
  {
    if a.Ask? {
      AskLookups(cfg, s, a.question, s');
    } else if a.Proceed? {
      ProceedLookups(cfg, s, a.request, s');
    } else if a.LookupAnswers? {
      P.AnswerChanges(s, a.question, a.rrs, s');
    } else if !a.LookupFails? {
      P.OthersAskNothing(cfg, s, a, s');
    }
  }

  lemma AskLookups(cfg: Config, s: State, q: WireQuestion, s': State)
    requires s' == Began(cfg, s, q)
    ensures s'.failures == s.failures
    ensures s'.lookups == if Clean(cfg, q) && IsIPQuery(q) == 0 then s.lookups + multiset{q} else s.lookups
  {
  }

  lemma ProceedLookups(cfg: Config, s: State, r: Request, s': State)
    requires s' == Proceeded(cfg, s, r)
    ensures s'.failures == s.failures
    ensures s'.lookups == match Sent(cfg, s, Proceed(r)) { case Some(q) => s.lookups + multiset{q} case None => s.lookups }
  {
    if r.Loaded? || r.NegLoaded? {
      P.CompareMoves(cfg, s, r, s');
    } else if r.Missed? {
      MissedLookups(cfg, s, r, s');
    }
  }

  lemma MissedLookups(cfg: Config, s: State, r: Request, s': State)
    requires s' == Proceeded(cfg, s, r) && r.Missed?
    ensures s'.failures == s.failures
    ensures s'.lookups == if Lower(Key(cfg, r.question)) in s.neg.backend then s.lookups else s.lookups + multiset{r.question}
  {
  }

  // -------- the condition --------

  /** A lookup of the question is started while one is under way or after one has failed. */
  ghost predicate Repeats(cfg: Config, s: State, a: Action, q: WireQuestion) {
    Sends(cfg, s, a, q) && (UnderWay(s, q) || HasFailed(s, q))
  }

  ghost predicate RepeatAt(cfg: Config, start: int, run: seq<Action>, i: nat, q: WireQuestion)
    requires i < |run|
  {
    match Exec(cfg, false, start, run[..i])
    case None => false
    case Some(s) => Repeats(cfg, s, run[i], q)
  }

  ghost predicate NoRepeat(cfg: Config, start: int, run: seq<Action>, q: WireQuestion) {
    forall i :: 0 <= i < |run| ==> !RepeatAt(cfg, start, run, i, q)
  }

  lemma SameRepeats(cfg: Config, start: int, run: seq<Action>, init: seq<Action>, i: nat, q: WireQuestion)
    requires init <= run && i < |init|
    ensures RepeatAt(cfg, start, init, i, q) <==> RepeatAt(cfg, start, run, i, q)
  {
    assert init[..i] == run[..i];
  }

  lemma NoRepeatInPrefix(cfg: Config, start: int, run: seq<Action>, init: seq<Action>, q: WireQuestion)
    requires NoRepeat(cfg, start, run, q) && init <= run
    ensures NoRepeat(cfg, start, init, q)
  {
    forall i | 0 <= i < |init| ensures !RepeatAt(cfg, start, init, i, q) {
      SameRepeats(cfg, start, run, init, i, q);
    }
  }

  // -------- at most one failure --------

  /** At most one lookup of the question is under way, none if it has failed, and it has not failed twice. */
  ghost predicate Once(s: State, q: WireQuestion) {
    && (forall x, y :: x in s.lookups && y in s.lookups && SameQuestion(q, x) && SameQuestion(q, y) ==> x == y)
    && (forall x :: x in s.lookups && SameQuestion(q, x) ==> s.lookups[x] == 1)
    && (HasFailed(s, q) ==> !UnderWay(s, q))
    && !FailedTwice(s, q)
  }

  /** Whatever lookups end in, without new requests the question fails at most once. */
  lemma FailKeepsOnce(cfg: Config, s: State, p: WireQuestion, q: WireQuestion)
    requires Once(s, q) && p in s.lookups
    ensures Once(Failed(cfg, s, p), q)
  {
    var s' := Failed(cfg, s, p);
    assert forall x :: x in s'.lookups ==> x in s.lookups && s'.lookups[x] <= s.lookups[x];
    if SameQuestion(q, p) {
      assert UnderWay(s, q);
      assert p !in s'.lookups;
    }
    assert forall i :: 0 <= i < |s.failures| ==> s'.failures[i] == s.failures[i];
  }

  lemma FewerLookupsKeepOnce(s: State, s': State, q: WireQuestion)
    requires Once(s, q) && s'.failures == s.failures && s'.lookups <= s.lookups
    ensures Once(s', q)
  {
    assert forall x :: x in s'.lookups ==> x in s.lookups && s'.lookups[x] <= s.lookups[x];
  }

  lemma OneMoreLookup(s: State, p: WireQuestion, s': State, q: WireQuestion)
    requires Once(s, q) && s'.failures == s.failures
    requires s'.lookups == s.lookups || s'.lookups == s.lookups + multiset{p}
    requires s'.lookups != s.lookups && SameQuestion(q, p) ==> !UnderWay(s, q) && !HasFailed(s, q)
    ensures Once(s', q)
  {
    if s'.lookups != s.lookups {
      assert forall x :: x != p ==> s'.lookups[x] == s.lookups[x];
    }
  }

  lemma StepKeepsOnce(cfg: Config, s: State, a: Action, s': State, q: WireQuestion)
    requires Step(cfg, false, s, a) == Some(s') && !Repeats(cfg, s, a, q) && Once(s, q)
    ensures Once(s', q)
  {
    StepLookups(cfg, s, a, s');
    if a.LookupFails? {
      FailKeepsOnce(cfg, s, a.question, q);
    } else if Sent(cfg, s, a).Some? {
      OneMoreLookup(s, Sent(cfg, s, a).value, s', q);
    } else {
      FewerLookupsKeepOnce(s, s', q);
    }
  }

  lemma {:induction false} RunKeepsOnce(cfg: Config, start: int, run: seq<Action>, s: State, q: WireQuestion)
    requires Exec(cfg, false, start, run) == Some(s) && NoRepeat(cfg, start, run, q)
    ensures Once(s, q)
  {
    if run != [] {
      var n := |run| - 1;
      var s0 := Exec(cfg, false, start, run[..n]).value;
      NoRepeatInPrefix(cfg, start, run, run[..n], q);
      RunKeepsOnce(cfg, start, run[..n], s0, q);
      assert !RepeatAt(cfg, start, run, n, q);
      StepKeepsOnce(cfg, s0, run[n], s, q);
    }
  }

  // -------- two failures --------

  predicate OnlyFailures(run: seq<Action>) {
    forall i :: 0 <= i < |run| ==> run[i].LookupFails?
  }

  ghost predicate FailsTwiceAfter(cfg: Config, start: int, run: seq<Action>, i: nat, fails: seq<Action>, q: WireQuestion)
    requires i <= |run|
  {
    match Exec(cfg, false, start, run[..i] + fails)
    case None => false
    case Some(s) => FailedTwice(s, q)
  }

  /** At some moment of the run the lookups under way could still fail so that the question fails twice. */
  ghost predicate CanFailTwice(cfg: Config, start: int, run: seq<Action>, q: WireQuestion) {
    exists i, fails :: 0 <= i <= |run| && OnlyFailures(fails) && FailsTwiceAfter(cfg, start, run, i, fails, q)
  }

  lemma TimePasses(cfg: Config, s: State, a: Action, s': State)
    requires Step(cfg, false, s, a) == Some(s')
    ensures s.now <= s'.now && (a.LookupFails? ==> s'.now == s.now)
  {
  }

  lemma {:induction false} PrefixRuns(cfg: Config, start: int, run: seq<Action>, i: nat)
    requires Exec(cfg, false, start, run).Some? && i <= |run|
    ensures Exec(cfg, false, start, run[..i]).Some?
    ensures Exec(cfg, false, start, run[..i]).value.now <= Exec(cfg, false, start, run).value.now
    decreases |run|
  {
    if i == |run| {
      assert run[..i] == run;
    } else {
      var init := run[..|run| - 1];
      PrefixRuns(cfg, start, init, i);
      assert init[..i] == run[..i];
      TimePasses(cfg, Exec(cfg, false, start, init).value, run[|run| - 1], Exec(cfg, false, start, run).value);
    }
  }

  /** The last of a run's failures, taken off. */
  lemma BeforeLastFailure(cfg: Config, start: int, run: seq<Action>, fails: seq<Action>, end: State) returns (s: State)
    requires Exec(cfg, false, start, run + fails) == Some(end) && fails != [] && OnlyFailures(fails)
    ensures Exec(cfg, false, start, run + fails[..|fails| - 1]) == Some(s)
    ensures var q := fails[|fails| - 1].question; q in s.lookups && end == Failed(cfg, s, q)
  {
    assert (run + fails)[..|run + fails| - 1] == run + fails[..|fails| - 1];
    s := Exec(cfg, false, start, run + fails[..|fails| - 1]).value;
  }

  lemma {:induction false} FailuresKeepOnce(cfg: Config, start: int, run: seq<Action>, s: State, fails: seq<Action>, end: State, q: WireQuestion)
    requires Exec(cfg, false, start, run) == Some(s) && Once(s, q)
    requires Exec(cfg, false, start, run + fails) == Some(end) && OnlyFailures(fails)
    ensures Once(end, q)
    decreases |fails|
  {
    if fails == [] {
      assert run + fails == run;
    } else {
      var s' := BeforeLastFailure(cfg, start, run, fails, end);
      FailuresKeepOnce(cfg, start, run, s, fails[..|fails| - 1], s', q);
      FailKeepsOnce(cfg, s', fails[|fails| - 1].question, q);
    }
  }

  /** Two lookups of one question under way may both fail. */
  lemma TwoLookupsMayBothFail(cfg: Config, s: State, x: WireQuestion, y: WireQuestion)
    requires multiset{x, y} <= s.lookups
    ensures var s1 := Step(cfg, false, s, LookupFails(x));
            && s1.Some?
            && var s2 := Step(cfg, false, s1.value, LookupFails(y));
            && s2.Some? && s2.value.failures == s.failures + [x, y]
  {
    assert (s.lookups - multiset{x})[y] > 0 by {
      assert multiset{x, y}[y] <= s.lookups[y];
    }
    assert s.lookups[x] >= multiset{x, y}[x] > 0;
  }

  lemma ExecNext(cfg: Config, start: int, run: seq<Action>, i: nat, s: State, s': State)
    requires i < |run| && Exec(cfg, false, start, run[..i]) == Some(s) && Step(cfg, false, s, run[i]) == Some(s')
    ensures Exec(cfg, false, start, run[..i + 1]) == Some(s')
  {
    assert run[..i + 1] == run[..i] + [run[i]];
    ExecExtend(cfg, false, start, run[..i], s, run[i]);
  }

  lemma ExecExtend(cfg: Config, sequential: bool, start: int, run: seq<Action>, s: State, a: Action)
    requires Exec(cfg, sequential, start, run) == Some(s)
    ensures Exec(cfg, sequential, start, run + [a]) == Step(cfg, sequential, s, a)
  {
    assert (run + [a])[..|run + [a]| - 1] == run;
  }

  lemma BothFail(cfg: Config, start: int, run: seq<Action>, s: State, x: WireQuestion, y: WireQuestion)
    requires Exec(cfg, false, start, run) == Some(s) && multiset{x, y} <= s.lookups
    ensures var end := Exec(cfg, false, start, run + [LookupFails(x), LookupFails(y)]);
            end.Some? && end.value.failures == s.failures + [x, y]
  {
    TwoLookupsMayBothFail(cfg, s, x, y);
    var s1 := Failed(cfg, s, x);
    ExecExtend(cfg, false, start, run, s, LookupFails(x));
    ExecExtend(cfg, false, start, run + [LookupFails(x)], s1, LookupFails(y));
    assert run + [LookupFails(x)] + [LookupFails(y)] == run + [LookupFails(x), LookupFails(y)];
  }

  lemma ListedTwice(s: State, before: seq<WireQuestion>, x: WireQuestion, y: WireQuestion, q: WireQuestion)
    requires s.failures == before + [x, y] && SameQuestion(q, x) && SameQuestion(q, y)
    ensures FailedTwice(s, q)
  {
    assert s.failures[|before|] == x && s.failures[|before| + 1] == y;
  }

  /** Wherever a run leaves two lookups of the question under way, it can come to fail twice. */
  lemma TwoUnderWay(cfg: Config, start: int, run: seq<Action>, i: nat, s: State, x: WireQuestion, y: WireQuestion, q: WireQuestion)
    requires i <= |run| && Exec(cfg, false, start, run[..i]) == Some(s) && multiset{x, y} <= s.lookups
    requires SameQuestion(q, x) && SameQuestion(q, y)
    ensures CanFailTwice(cfg, start, run, q)
  {
    var fails := [LookupFails(x), LookupFails(y)];
    BothFail(cfg, start, run[..i], s, x, y);
    ListedTwice(Exec(cfg, false, start, run[..i] + fails).value, s.failures, x, y, q);
    assert FailsTwiceAfter(cfg, start, run, i, fails, q);
  }

  /** A lookup of a question that has failed may fail again. */
  lemma FailsAgain(cfg: Config, s: State, x: WireQuestion, q: WireQuestion)
    requires x in s.lookups && SameQuestion(q, x) && HasFailed(s, q)
    ensures Step(cfg, false, s, LookupFails(x)).Some? && FailedTwice(Step(cfg, false, s, LookupFails(x)).value, q)
  {
    var s' := Failed(cfg, s, x);
    var i :| 0 <= i < |s.failures| && SameQuestion(q, s.failures[i]);
    assert s'.failures[i] == s.failures[i] && s'.failures[|s.failures|] == x;
  }

  lemma RepeatMayFailTwice(cfg: Config, start: int, run: seq<Action>, i: nat, s: State, q: WireQuestion)
    requires i < |run| && Exec(cfg, false, start, run[..i]) == Some(s) && Repeats(cfg, s, run[i], q)
    requires Step(cfg, false, s, run[i]).Some?
    ensures CanFailTwice(cfg, start, run, q)
  {
    var s', p := Step(cfg, false, s, run[i]).value, Sent(cfg, s, run[i]).value;
    StepLookups(cfg, s, run[i], s');
    ExecNext(cfg, start, run, i, s, s');
    if UnderWay(s, q) {
      var x :| x in s.lookups && SameQuestion(q, x);
      TwoUnderWay(cfg, start, run, i + 1, s', x, p, q);
    } else {
      OneUnderWay(cfg, start, run, i + 1, s', p, q);
    }
  }

  lemma OneUnderWay(cfg: Config, start: int, run: seq<Action>, i: nat, s: State, x: WireQuestion, q: WireQuestion)
    requires i <= |run| && Exec(cfg, false, start, run[..i]) == Some(s) && x in s.lookups && SameQuestion(q, x) && HasFailed(s, q)
    ensures CanFailTwice(cfg, start, run, q)
  {
    FailsAgain(cfg, s, x, q);
    ExecExtend(cfg, false, start, run[..i], s, LookupFails(x));
    assert OnlyFailures([LookupFails(x)]);
    assert FailsTwiceAfter(cfg, start, run, i, [LookupFails(x)], q);
  }

  // -------- the main results --------

  /**
   A question can come to fail twice if and only if, at some step of the run, a lookup of it is started
   while one is under way or after one has failed. This holds of every run and every question.
   */
  lemma FailsTwiceIffRepeated(cfg: Config, start: int, run: seq<Action>, q: WireQuestion)
    requires Exec(cfg, false, start, run).Some?
    ensures CanFailTwice(cfg, start, run, q) <==> !NoRepeat(cfg, start, run, q)
  {
    if i :| 0 <= i < |run| && RepeatAt(cfg, start, run, i, q) {
      StepRuns(cfg, start, run, i);
      RepeatMayFailTwice(cfg, start, run, i, Exec(cfg, false, start, run[..i]).value, q);
    } else {
      forall i, fails | 0 <= i <= |run| && OnlyFailures(fails) ensures !FailsTwiceAfter(cfg, start, run, i, fails, q) {
        var end := Exec(cfg, false, start, run[..i] + fails);
        if end.Some? {
          PrefixRuns(cfg, start, run, i);
          var m := Exec(cfg, false, start, run[..i]).value;
          NoRepeatInPrefix(cfg, start, run, run[..i], q);
          RunKeepsOnce(cfg, start, run[..i], m, q);
          FailuresKeepOnce(cfg, start, run[..i], m, fails, end.value, q);
        }
      }
    }
  }

  lemma StepRuns(cfg: Config, start: int, run: seq<Action>, i: nat)
    requires Exec(cfg, false, start, run).Some? && i < |run|
    ensures Exec(cfg, false, start, run[..i]).Some?
    ensures Step(cfg, false, Exec(cfg, false, start, run[..i]).value, run[i]).Some?
  {
    PrefixRuns(cfg, start, run, i + 1);
    assert run[..i + 1][..i] == run[..i];
  }

  // -------- a failure that is held is not repeated --------

  const LIFETIME := L.MAX_UINT32 * L.SECOND

  /** A full negative cache refuses a failure of the question. */
  predicate Refuses(cfg: Config, s: State, a: Action, q: WireQuestion) {
    a.LookupFails? && SameQuestion(q, a.question) && !L.Accepts(cfg.maxcount, s.neg, Key(cfg, a.question))
  }

  ghost predicate RefusalAt(cfg: Config, start: int, run: seq<Action>, i: nat, q: WireQuestion)
    requires i < |run|
  {
    match Exec(cfg, false, start, run[..i])
    case None => false
    case Some(s) => Refuses(cfg, s, run[i], q)
  }

  ghost predicate NoRefusal(cfg: Config, start: int, run: seq<Action>, q: WireQuestion) {
    forall i :: 0 <= i < |run| ==> !RefusalAt(cfg, start, run, i, q)
  }

  lemma NoRefusalInPrefix(cfg: Config, start: int, run: seq<Action>, init: seq<Action>, q: WireQuestion)
    requires NoRefusal(cfg, start, run, q) && init <= run
    ensures NoRefusal(cfg, start, init, q)
  {
    forall i | 0 <= i < |init| ensures !RefusalAt(cfg, start, init, i, q) {
      assert init[..i] == run[..i];
      assert !RefusalAt(cfg, start, run, i, q);
    }
  }

  /** If the question has failed the negative cache holds it; its entry lasts to the horizon, and no request has seen it expire. */
  ghost predicate Held(cfg: Config, s: State, q: WireQuestion, horizon: int) {
    && (HasFailed(s, q) ==> Key(cfg, q) in s.neg.backend)
    && (Key(cfg, q) in s.neg.backend ==> s.neg.backend[Key(cfg, q)].expiresAt >= horizon)
    && !S.FailureEndangered(s, q, horizon)
  }

  /** No step starts a lookup of a question that is held. */
  lemma HeldStaysLocal(cfg: Config, s: State, q: WireQuestion, horizon: int)
    requires cfg.Valid() && IsIPQuery(q) > 0 && HasFailed(s, q) && Held(cfg, s, q, horizon) && s.now <= horizon
    ensures !Asked(cfg, s, q).1.GoesUpstream?
    ensures forall a :: Step(cfg, false, s, a).Some? ==> !Sends(cfg, s, a, q)
  {
    AskedDecides(cfg, s, q);
    forall a | Step(cfg, false, s, a).Some? ensures !Sends(cfg, s, a, q) {
      HeldIsNotSent(cfg, s, a, q, horizon);
    }
  }

  lemma HeldIsNotSent(cfg: Config, s: State, a: Action, q: WireQuestion, horizon: int)
    requires cfg.Valid() && IsIPQuery(q) > 0 && HasFailed(s, q) && Held(cfg, s, q, horizon)
    requires Step(cfg, false, s, a).Some?
    ensures !Sends(cfg, s, a, q)
  {
    if Sends(cfg, s, a, q) {
      var p := Sent(cfg, s, a).value;
      KeyInjective(cfg, q, p);
      assert Lower(Key(cfg, p)) == Key(cfg, p);
      if a.Proceed? && a.request.FoundNegExpired? {
        assert S.EndangersFailure(a.request, q, horizon);
      }
    }
  }

  lemma FailKeepsHeld(cfg: Config, s: State, p: WireQuestion, q: WireQuestion, horizon: int)
    requires cfg.Valid() && IsIPQuery(q) > 0 && Held(cfg, s, q, horizon) && !Refuses(cfg, s, LookupFails(p), q)
    requires horizon <= s.now + LIFETIME
    ensures Held(cfg, Failed(cfg, s, p), q, horizon)
  {
    var s' := Failed(cfg, s, p);
    var key := Key(cfg, p);
    assert Lower(key) == key && s'.requests == s.requests;
    KeyInjective(cfg, q, p);
    if SameQuestion(q, p) {
      L.ExpiryExact(s.now, L.MAX_UINT32);
      assert L.MinTtl(s.headers, []) == L.MAX_UINT32;
    } else if i :| 0 <= i < |s'.failures| && SameQuestion(q, s'.failures[i]) {
      assert SameQuestion(q, s.failures[i]);
    }
  }

  lemma StepKeepsHeld(cfg: Config, s: State, a: Action, s': State, q: WireQuestion, horizon: int)
    requires cfg.Valid() && IsIPQuery(q) > 0 && Step(cfg, false, s, a) == Some(s') && !Refuses(cfg, s, a, q)
    requires Held(cfg, s, q, horizon) && s.now <= horizon <= s.now + LIFETIME
    ensures Held(cfg, s', q, horizon)
  {
    if a.LookupFails? {
      FailKeepsHeld(cfg, s, a.question, q, horizon);
    } else {
      StepLookups(cfg, s, a, s');
      S.NegOnlyShrinks(cfg, s, a, s', q);
      if a.Ask? {
        S.AskKeepsNeg(cfg, s, a.question, s', q, horizon);
      } else if a.Proceed? {
        S.ProceedKeepsFailure(cfg, s, a.request, s', q, horizon);
      } else {
        OthersKeepNeg(cfg, s, a, s');
      }
    }
  }

  lemma OthersKeepNeg(cfg: Config, s: State, a: Action, s': State)
    requires Step(cfg, false, s, a) == Some(s') && !a.Ask? && !a.Proceed? && !a.LookupFails?
    ensures s'.neg == s.neg && s'.requests == s.requests
  {
    if a.LookupAnswers? {
      P.AnswerChanges(s, a.question, a.rrs, s');
    } else {
      P.OthersAskNothing(cfg, s, a, s');
    }
  }

  lemma {:induction false} RunKeepsHeld(cfg: Config, start: int, run: seq<Action>, s: State, q: WireQuestion)
    requires cfg.Valid() && IsIPQuery(q) > 0 && Exec(cfg, false, start, run) == Some(s) && s.now <= start + LIFETIME
    requires NoRefusal(cfg, start, run, q)
    ensures start <= s.now && Held(cfg, s, q, start + LIFETIME)
  {
    if run != [] {
      var n := |run| - 1;
      var s0 := Exec(cfg, false, start, run[..n]).value;
      TimePasses(cfg, s0, run[n], s);
      NoRefusalInPrefix(cfg, start, run, run[..n], q);
      RunKeepsHeld(cfg, start, run[..n], s0, q);
      assert !RefusalAt(cfg, start, run, n, q);
      StepKeepsHeld(cfg, s0, run[n], s, q, start + LIFETIME);
    }
  }

  /** A lookup of the question is started while one is under way. */
  ghost predicate Overlaps(cfg: Config, s: State, a: Action, q: WireQuestion) {
    Sends(cfg, s, a, q) && UnderWay(s, q)
  }

  ghost predicate OverlapAt(cfg: Config, start: int, run: seq<Action>, i: nat, q: WireQuestion)
    requires i < |run|
  {
    match Exec(cfg, false, start, run[..i])
    case None => false
    case Some(s) => Overlaps(cfg, s, run[i], q)
  }

  ghost predicate NoOverlap(cfg: Config, start: int, run: seq<Action>, q: WireQuestion) {
    forall i :: 0 <= i < |run| ==> !OverlapAt(cfg, start, run, i, q)
  }

  lemma HeldRepeatOverlaps(cfg: Config, start: int, run: seq<Action>, i: nat, q: WireQuestion)
    requires cfg.Valid() && IsIPQuery(q) > 0 && Exec(cfg, false, start, run).Some? && i < |run|
    requires Exec(cfg, false, start, run).value.now <= start + LIFETIME && NoRefusal(cfg, start, run, q)
    ensures RepeatAt(cfg, start, run, i, q) <==> OverlapAt(cfg, start, run, i, q)
  {
    PrefixRuns(cfg, start, run, i);
    StepRuns(cfg, start, run, i);
    var s := Exec(cfg, false, start, run[..i]).value;
    NoRefusalInPrefix(cfg, start, run, run[..i], q);
    RunKeepsHeld(cfg, start, run[..i], s, q);
    if HasFailed(s, q) {
      HeldIsNotSent(cfg, s, run[i], q, start + LIFETIME);
    }
  }

  /**
   In any run shorter than the largest TTL in which the negative cache refuses no failure of an address
   question: once a lookup of the question has failed, no step starts another; so it can come to fail
   twice if and only if a lookup of it is started while one is under way.
   */
  lemma FailsTwiceIffOverlap(cfg: Config, start: int, run: seq<Action>, s: State, q: WireQuestion)
    requires cfg.Valid() && IsIPQuery(q) > 0 && Exec(cfg, false, start, run) == Some(s) && s.now <= start + LIFETIME
    requires NoRefusal(cfg, start, run, q)
    ensures HasFailed(s, q) ==> !Asked(cfg, s, q).1.GoesUpstream? && forall a :: Step(cfg, false, s, a).Some? ==> !Sends(cfg, s, a, q)
    ensures CanFailTwice(cfg, start, run, q) <==> !NoOverlap(cfg, start, run, q)
  {
    RunKeepsHeld(cfg, start, run, s, q);
    if HasFailed(s, q) {
      HeldStaysLocal(cfg, s, q, start + LIFETIME);
    }
    FailsTwiceIffRepeated(cfg, start, run, q);
    forall i | 0 <= i < |run| ensures RepeatAt(cfg, start, run, i, q) <==> OverlapAt(cfg, start, run, i, q) {
      HeldRepeatOverlaps(cfg, start, run, i, q);
    }
  }

  /** In particular, without an overlap it fails at most once. */
  lemma FailsAtMostOnce(cfg: Config, start: int, run: seq<Action>, s: State, q: WireQuestion)
    requires cfg.Valid() && IsIPQuery(q) > 0 && Exec(cfg, false, start, run) == Some(s) && s.now <= start + LIFETIME
    requires NoRefusal(cfg, start, run, q)
    ensures HasFailed(s, q) ==> !Asked(cfg, s, q).1.GoesUpstream?
    ensures NoOverlap(cfg, start, run, q) ==> !FailedTwice(s, q)
  {
    FailsTwiceIffOverlap(cfg, start, run, s, q);
    if FailedTwice(s, q) {
      assert run[..|run|] + [] == run;
      assert FailsTwiceAfter(cfg, start, run, |run|, [], q);
    }
  }

  /** Unbounded caches refuse nothing. */
  lemma UnboundedNeverRefuses(cfg: Config, start: int, run: seq<Action>, q: WireQuestion)
    requires cfg.maxcount <= 0
    ensures NoRefusal(cfg, start, run, q)
  {
  }

  // -------- special cases --------

  /** At most one request is under way. */
  predicate OneAtATime(s: State) {
    |s.requests| + |s.lookups| <= 1
  }

  lemma SequentialStep(cfg: Config, s: State, a: Action, s': State, q: WireQuestion)
    requires OneAtATime(s) && Step(cfg, true, s, a) == Some(s')
    ensures Step(cfg, false, s, a) == Some(s') && OneAtATime(s') && !Overlaps(cfg, s, a, q)
  {
    SequentialIsStep(cfg, s, a, s');
    if a.Ask? {
      SequentialAsk(cfg, s, a.question, s');
    } else if a.Proceed? {
      SequentialProceed(cfg, s, a.request, s');
    } else if a.LookupFails? {
      LookupEnds(s, a.question, s');
    } else if a.LookupAnswers? {
      P.AnswerChanges(s, a.question, a.rrs, s');
      LookupEnds(s, a.question, s');
    } else {
      P.OthersAskNothing(cfg, s, a, s');
    }
  }

  lemma SequentialIsStep(cfg: Config, s: State, a: Action, s': State)
    requires Step(cfg, true, s, a) == Some(s')
    ensures Step(cfg, false, s, a) == Some(s') && (a.Ask? ==> s.requests == multiset{} && s.lookups == multiset{})
  {
  }

  lemma SequentialAsk(cfg: Config, s: State, q: WireQuestion, s': State)
    requires s.requests == multiset{} && s.lookups == multiset{} && s' == Began(cfg, s, q)
    ensures OneAtATime(s')
  {
  }

  lemma LookupEnds(s: State, q: WireQuestion, s': State)
    requires OneAtATime(s) && q in s.lookups && s'.requests == s.requests && s'.lookups == s.lookups - multiset{q}
    ensures OneAtATime(s')
  {
  }

  lemma SequentialProceed(cfg: Config, s: State, r: Request, s': State)
    requires OneAtATime(s) && r in s.requests && s' == Proceeded(cfg, s, r)
    ensures OneAtATime(s') && s.lookups == multiset{}
  {
    var rest := s.requests - multiset{r};
    assert s.requests == multiset{r} + rest;
    assert |rest| == 0 && |s.lookups| == 0;
    LastRequest(cfg, s, r, s');
  }

  /** The request takes its next form, or ends, with or without a lookup. */
  lemma ProceedShape(cfg: Config, s: State, r: Request, s': State)
    requires s' == Proceeded(cfg, s, r)
    ensures var rest := s.requests - multiset{r};
            || (s'.requests == rest + multiset{P.NextOf(cfg, s, r)} && s'.lookups == s.lookups)
            || (s'.requests == rest && (s'.lookups == s.lookups || s'.lookups == s.lookups + multiset{r.question}))
  {
  }

  lemma LastRequest(cfg: Config, s: State, r: Request, s': State)
    requires s.requests - multiset{r} == multiset{} && s.lookups == multiset{} && s' == Proceeded(cfg, s, r)
    ensures OneAtATime(s')
  {
    ProceedShape(cfg, s, r, s');
  }

  lemma NoOverlapExtends(cfg: Config, start: int, run: seq<Action>, init: seq<Action>, q: WireQuestion)
    requires run != [] && init == run[..|run| - 1]
    requires NoOverlap(cfg, start, init, q) && !OverlapAt(cfg, start, run, |run| - 1, q)
    ensures NoOverlap(cfg, start, run, q)
  {
    forall i | 0 <= i < |run| ensures !OverlapAt(cfg, start, run, i, q) {
      if i < |init| {
        SameOverlaps(cfg, start, run, init, i, q);
      }
    }
  }

  lemma SameOverlaps(cfg: Config, start: int, run: seq<Action>, init: seq<Action>, i: nat, q: WireQuestion)
    requires init <= run && i < |init|
    ensures OverlapAt(cfg, start, init, i, q) <==> OverlapAt(cfg, start, run, i, q)
  {
    assert init[..i] == run[..i];
  }

  /** A sequential run is a run in which nothing overlaps. */
  lemma {:induction false} SequentialRunsNeverOverlap(cfg: Config, start: int, run: seq<Action>, s: State, q: WireQuestion)
    requires Exec(cfg, true, start, run) == Some(s)
    ensures Exec(cfg, false, start, run) == Some(s) && OneAtATime(s) && NoOverlap(cfg, start, run, q)
  {
    if run != [] {
      var init := run[..|run| - 1];
      var s0 := Exec(cfg, true, start, init).value;
      SequentialRunsNeverOverlap(cfg, start, init, s0, q);
      SequentialStep(cfg, s0, run[|run| - 1], s, q);
      NoOverlapExtends(cfg, start, run, init, q);
    }
  }

  /** One request at a time and unbounded caches: a question fails at most once and then stays local. */
  lemma FailsAtMostOnceInSequence(cfg: Config, start: int, run: seq<Action>, s: State, q: WireQuestion)
    requires cfg.Valid() && cfg.maxcount <= 0 && Exec(cfg, true, start, run) == Some(s)
    requires IsIPQuery(q) > 0 && s.now <= start + LIFETIME
    ensures HasFailed(s, q) ==> !Asked(cfg, s, q).1.GoesUpstream?
    ensures !FailedTwice(s, q)
  {
    SequentialRunsNeverOverlap(cfg, start, run, s, q);
    UnboundedNeverRefuses(cfg, start, run, q);
    FailsAtMostOnce(cfg, start, run, s, q);
  }

  // -------- runs with two failures --------

  /** Every clean address question has a run in which two overlapping requests for it fail. */
  lemma ConcurrentRequestsMayFailTwice(cfg: Config, start: int, q: WireQuestion) returns (run: seq<Action>)
    requires IsIPQuery(q) > 0 && Clean(cfg, q)
    ensures run == [Ask(q)] + [Ask(q)] + ([Proceed(Missed(q))] + [Proceed(Missed(q))]) + [LookupFails(q), LookupFails(q)]
    ensures Exec(cfg, false, start, run).Some? && Exec(cfg, false, start, run).value.failures == [q, q]
  {
    var s0 := Init(start);
    var s1 := WithRequest(s0, Missed(q));
    var s2 := WithRequest(s1, Missed(q));
    var s4 := WithLookup(WithLookup(s0, q), q);
    TwoSteps(cfg, s0, Ask(q), s1, Ask(q), s2);
    BothGoUpstream(cfg, s0, q, s2, s4);
    var asks, goes := [Ask(q)] + [Ask(q)], [Proceed(Missed(q))] + [Proceed(Missed(q))];
    ExecConcat(cfg, s0, asks, s2, goes);
    assert multiset{q, q} <= s4.lookups;
    BothFail(cfg, start, asks + goes, s4, q, q);
    run := asks + goes + [LookupFails(q), LookupFails(q)];
  }

  lemma BothGoUpstream(cfg: Config, s: State, q: WireQuestion, s2: State, s4: State)
    requires s.neg == L.EMPTY
    requires s2 == WithRequest(WithRequest(s, Missed(q)), Missed(q)) && s4 == WithLookup(WithLookup(s, q), q)
    ensures ExecFrom(cfg, false, s2, [Proceed(Missed(q))] + [Proceed(Missed(q))]) == Some(s4)
  {
    var s3 := WithLookup(WithRequest(s, Missed(q)), q);
    AddedThenTaken(s.requests + multiset{Missed(q)}, Missed(q));
    AddedThenTaken(s.requests, Missed(q));
    TwoSteps(cfg, s2, Proceed(Missed(q)), s3, Proceed(Missed(q)), s4);
  }

  /** A failure that a full negative cache refuses is forgotten: the next request goes upstream and may fail again. */
  lemma RefusedFailureIsForgotten(cfg: Config, s: State, q: WireQuestion)
    requires cfg.Valid() && IsIPQuery(q) > 0 && Clean(cfg, q) && q in s.lookups
    requires Refuses(cfg, s, LookupFails(q), q) && !Live(s.cache, Key(cfg, q), s.now)
    ensures var s1 := Failed(cfg, s, q);
            var (s2, reply) := Asked(cfg, s1, q);
            && Step(cfg, false, s, LookupFails(q)) == Some(s1)
            && reply.GoesUpstream?
            && Step(cfg, false, s2, LookupFails(q)).Some?
            && Step(cfg, false, s2, LookupFails(q)).value.failures == s.failures + [q, q]
  {
    var s1 := Failed(cfg, s, q);
    assert Lower(Key(cfg, q)) == Key(cfg, q);
    assert s1.neg == s.neg && Key(cfg, q) !in s.neg.backend;
    MissGoesUpstream(cfg, s1, q);
  }

  lemma MissGoesUpstream(cfg: Config, s: State, q: WireQuestion)
    requires cfg.Valid() && Clean(cfg, q) && !Live(s.cache, Key(cfg, q), s.now) && !Live(s.neg, Key(cfg, q), s.now)
    ensures Asked(cfg, s, q).1.GoesUpstream? && q in Asked(cfg, s, q).0.lookups && Asked(cfg, s, q).0.failures == s.failures
  {
    AskedDecides(cfg, s, q);
  }

  /** The state after a request for a question that no cache holds has failed. */
  function AfterFailure(cfg: Config, s: State, q: WireQuestion): State {
    s.(failures := s.failures + [q], neg := L.WasSet(cfg.maxcount, s.neg, s.headers, Key(cfg, q), Some([]), s.now))
  }

  function FailingRequest(q: WireQuestion): seq<Action> {
    [Ask(q)] + ([Proceed(Missed(q))] + [LookupFails(q)])
  }

  lemma RequestFails(cfg: Config, s: State, q: WireQuestion)
    requires cfg.Valid() && Clean(cfg, q) && IsIPQuery(q) > 0
    requires Key(cfg, q) !in s.cache.backend && Key(cfg, q) !in s.neg.backend
    ensures ExecFrom(cfg, false, s, FailingRequest(q)) == Some(AfterFailure(cfg, s, q))
  {
    AddedThenTaken(s.requests, Missed(q));
    var s1, s2 := WithRequest(s, Missed(q)), WithLookup(s, q);
    assert s2.lookups - multiset{q} == s.lookups;
    TwoSteps(cfg, s1, Proceed(Missed(q)), s2, LookupFails(q), AfterFailure(cfg, s, q));
    OneMoreStep(cfg, s, Ask(q), s1, [Proceed(Missed(q))] + [LookupFails(q)]);
  }

  /** With room for one failure and two questions, one request after the other: the second question fails twice. */
  lemma FullCacheLetsFailTwice(cfg: Config, start: int, p: WireQuestion, q: WireQuestion)
    requires cfg.Valid() && cfg.maxcount == 1 && !SameQuestion(p, q)
    requires Clean(cfg, p) && IsIPQuery(p) > 0 && Clean(cfg, q) && IsIPQuery(q) > 0
    ensures var end := Exec(cfg, false, start, FailingRequest(p) + (FailingRequest(q) + FailingRequest(q)));
            end.Some? && end.value.failures == [p, q, q]
  {
    var s0 := Init(start);
    var s1 := AfterFailure(cfg, s0, p);
    var s2 := AfterFailure(cfg, s1, q);
    SecondIsRefused(cfg, s0, p, q, s1, s2);
    RequestFails(cfg, s0, p);
    RequestFails(cfg, s1, q);
    RequestFails(cfg, s2, q);
    ExecConcat(cfg, s1, FailingRequest(q), s2, FailingRequest(q));
    ExecConcat(cfg, s0, FailingRequest(p), s1, FailingRequest(q) + FailingRequest(q));
  }

  lemma SecondIsRefused(cfg: Config, s0: State, p: WireQuestion, q: WireQuestion, s1: State, s2: State)
    requires cfg.Valid() && cfg.maxcount == 1 && IsIPQuery(p) > 0 && !SameQuestion(p, q) && s0.neg == L.EMPTY
    requires s1 == AfterFailure(cfg, s0, p) && s2 == AfterFailure(cfg, s1, q)
    ensures s2.neg == s1.neg && s2.cache == s0.cache && s1.cache == s0.cache && Key(cfg, q) !in s1.neg.backend
  {
    KeyInjective(cfg, p, q);
    assert Lower(Key(cfg, p)) == Key(cfg, p) && Lower(Key(cfg, q)) == Key(cfg, q);
  }
}
