/**
 How long a reply stays (`handler.go`, `responseFor`, over `lcache/cache.go`). A `Get` that has loaded an
 entry compares that entry with the clock and then removes the key, whatever the key holds by then. So a
 request that loaded an older entry may remove a newer one; the results say exactly when.
 */
module Serving {
  import opened Text
  import opened Questions
  import opened Engine
  import CF = CnameFollowing
  import L = Lcache
  import P = Provenance

  // -------- continuations --------

  /** The action stores an entry for the question. */
  predicate SwapsFor(s: State, a: Action, q: WireQuestion) {
    a.Swap? && a.store.answer < |s.answers| && SameQuestion(q, s.answers[a.store.answer].question)
  }

  ghost predicate SwapAt(cfg: Config, s: State, more: seq<Action>, i: nat, q: WireQuestion)
    requires i < |more|
  {
    match ExecFrom(cfg, false, s, more[..i])
    case None => false
    case Some(m) => SwapsFor(m, more[i], q)
  }

  /** No step of the continuation stores an entry for the question. */
  ghost predicate NoSwapFor(cfg: Config, s: State, more: seq<Action>, q: WireQuestion) {
    forall i :: 0 <= i < |more| ==> !SwapAt(cfg, s, more, i, q)
  }

  lemma NoSwapInPrefix(cfg: Config, s: State, more: seq<Action>, init: seq<Action>, q: WireQuestion)
    requires NoSwapFor(cfg, s, more, q) && init <= more
    ensures NoSwapFor(cfg, s, init, q)
  {
    forall i | 0 <= i < |init| ensures !SwapAt(cfg, s, init, i, q) {
      assert init[..i] == more[..i];
      assert !SwapAt(cfg, s, more, i, q);
    }
  }

  /** Steps of requests alone store nothing. */
  lemma ProceedsStoreNothing(cfg: Config, s: State, more: seq<Action>, q: WireQuestion)
    requires forall i :: 0 <= i < |more| ==> more[i].Proceed? || more[i].Advance?
    ensures NoSwapFor(cfg, s, more, q)
  {
  }

  // -------- removals that can reach an entry --------

  /** The request is about to remove the key of the question, or may come to do so up to a given time. */
  predicate Endangers(r: Request, q: WireQuestion, until: int) {
    SameQuestion(q, r.question) && (r.FoundExpired? || (r.Loaded? && r.entry.expiresAt < until))
  }

  ghost predicate Endangered(s: State, q: WireQuestion, until: int) {
    exists r :: r in s.requests && Endangers(r, q, until)
  }

  /** Up to the given time the key holds the entry and nothing endangers it; the key holds no other. */
  ghost predicate Kept(cfg: Config, s: State, q: WireQuestion, e: L.LEntry, until: int) {
    var key := Key(cfg, q);
    && until <= e.expiresAt
    && (s.now <= until ==> key in s.cache.backend && !Endangered(s, q, until))
    && (key in s.cache.backend ==> s.cache.backend[key] == e)
  }

  lemma AskKeeps(cfg: Config, s: State, p: WireQuestion, s': State, q: WireQuestion, e: L.LEntry, until: int)
    requires cfg.Valid() && IsIPQuery(q) > 0 && s' == Began(cfg, s, p) && Kept(cfg, s, q, e, until)
    ensures Kept(cfg, s', q, e, until)
  {
    var k := Key(cfg, p);
    assert Lower(k) == k;
    KeyInjective(cfg, q, p);
    var next := if k in s.cache.backend then Loaded(p, s.cache.backend[k], if k in s.source then s.source[k] else 0) else Missed(p);
    assert s'.cache == s.cache && s'.now == s.now && P.Moves(s, s', next);
    NoneEndangers(s, s', next, q, until);
  }

  lemma NoneEndangers(s: State, s': State, next: Request, q: WireQuestion, until: int)
    requires P.Moves(s, s', next) && s'.now == s.now
    requires s.now <= until ==> !Endangered(s, q, until) && !Endangers(next, q, until)
    ensures s'.now <= until ==> !Endangered(s', q, until)
  {
    if s'.now <= until && Endangered(s', q, until) {
      var r :| r in s'.requests && Endangers(r, q, until);
      P.MovedRequest(s, s', next, r);
    }
  }

  lemma ProceedKeeps(cfg: Config, s: State, r: Request, s': State, q: WireQuestion, e: L.LEntry, until: int)
    requires cfg.Valid() && IsIPQuery(q) > 0 && r in s.requests && s' == Proceeded(cfg, s, r) && Kept(cfg, s, q, e, until)
    ensures Kept(cfg, s', q, e, until)
  {
    if r.FoundExpired? {
      RemoveKeeps(cfg, s, r, s', q, e, until);
    } else if r.Loaded? {
      CompareKeeps(cfg, s, r, s', q, e, until);
    } else {
      P.ProceedMoves(cfg, s, r, s');
      OthersTouchOnlyNeg(cfg, s, r, s');
      NoneEndangers(s, s', P.NextOf(cfg, s, r), q, until);
    }
  }

  lemma RemoveKeeps(cfg: Config, s: State, r: Request, s': State, q: WireQuestion, e: L.LEntry, until: int)
    requires cfg.Valid() && IsIPQuery(q) > 0 && r in s.requests && s' == Proceeded(cfg, s, r) && Kept(cfg, s, q, e, until)
    requires r.FoundExpired?
    ensures Kept(cfg, s', q, e, until)
  {
    KeyInjective(cfg, q, r.question);
    assert Lower(Key(cfg, r.question)) == Key(cfg, r.question);
    P.RemoveMoves(cfg, s, r, s');
    NoneEndangers(s, s', Missed(r.question), q, until);
  }

  lemma OthersTouchOnlyNeg(cfg: Config, s: State, r: Request, s': State)
    requires s' == Proceeded(cfg, s, r) && !r.FoundExpired?
    ensures s'.cache == s.cache
  {
  }

  lemma CompareKeeps(cfg: Config, s: State, r: Request, s': State, q: WireQuestion, e: L.LEntry, until: int)
    requires r.Loaded? && r in s.requests && s' == Proceeded(cfg, s, r) && Kept(cfg, s, q, e, until)
    ensures Kept(cfg, s', q, e, until)
  {
    P.CompareMoves(cfg, s, r, s');
    if s.now <= r.entry.expiresAt {
      assert P.Moves(s, s', Missed(r.question));
      NoneEndangers(s, s', Missed(r.question), q, until);
    } else {
      assert SameQuestion(q, r.question) && s.now <= until ==> Endangers(r, q, until);
      NoneEndangers(s, s', FoundExpired(r.question), q, until);
    }
  }

  lemma SwapKeeps(cfg: Config, s: State, w: Store, s': State, q: WireQuestion, e: L.LEntry, until: int)
    requires cfg.Valid() && IsIPQuery(q) > 0 && w.answer < |s.answers| && !SameQuestion(q, s.answers[w.answer].question)
    requires s' == Swapped(cfg, s, w) && Kept(cfg, s, q, e, until)
    ensures Kept(cfg, s', q, e, until)
  {
    KeyInjective(cfg, q, s.answers[w.answer].question);
  }

  lemma OthersKeep(cfg: Config, s: State, a: Action, s': State)
    requires Step(cfg, false, s, a) == Some(s') && !a.Ask? && !a.Proceed? && !a.Swap?
    ensures s'.cache == s.cache && s'.requests == s.requests && s.now <= s'.now
  {
    if a.LookupAnswers? {
      P.AnswerChanges(s, a.question, a.rrs, s');
    }
  }

  lemma StepKeeps(cfg: Config, s: State, a: Action, s': State, q: WireQuestion, e: L.LEntry, until: int)
    requires cfg.Valid() && IsIPQuery(q) > 0 && Step(cfg, false, s, a) == Some(s') && !SwapsFor(s, a, q)
    requires Kept(cfg, s, q, e, until)
    ensures Kept(cfg, s', q, e, until)
  {
    if a.Ask? {
      AskKeeps(cfg, s, a.question, s', q, e, until);
    } else if a.Proceed? {
      ProceedKeeps(cfg, s, a.request, s', q, e, until);
    } else if a.Swap? {
      SwapKeeps(cfg, s, a.store, s', q, e, until);
    } else {
      OthersKeep(cfg, s, a, s');
    }
  }

  lemma {:induction false} RunKeeps(cfg: Config, s: State, more: seq<Action>, later: State, q: WireQuestion, e: L.LEntry, until: int)
    requires cfg.Valid() && IsIPQuery(q) > 0 && ExecFrom(cfg, false, s, more) == Some(later) && NoSwapFor(cfg, s, more, q)
    requires Kept(cfg, s, q, e, until)
    ensures Kept(cfg, later, q, e, until)
  {
    if more != [] {
      var n := |more| - 1;
      var m := ExecFrom(cfg, false, s, more[..n]).value;
      NoSwapInPrefix(cfg, s, more, more[..n], q);
      RunKeeps(cfg, s, more[..n], m, q, e, until);
      assert !SwapAt(cfg, s, more, n, q);
      StepKeeps(cfg, m, more[n], later, q, e, until);
    }
  }

  // -------- when a newer entry is lost --------

  predicate OnlyProceeds(more: seq<Action>) {
    forall i :: 0 <= i < |more| ==> more[i].Proceed?
  }

  /** A request that has found its entry expired, or would, removes the key, whatever it holds. */
  lemma RemovalDrops(cfg: Config, s: State, r: Request, q: WireQuestion) returns (more: seq<Action>, later: State)
    requires cfg.Valid() && IsIPQuery(q) > 0 && r in s.requests && SameQuestion(q, r.question)
    requires r.FoundExpired? || (r.Loaded? && r.entry.expiresAt < s.now)
    ensures OnlyProceeds(more) && ExecFrom(cfg, false, s, more) == Some(later)
    ensures later.now == s.now && Key(cfg, q) !in later.cache.backend
  {
    KeyInjective(cfg, q, r.question);
    if r.FoundExpired? {
      more, later := [Proceed(r)], Proceeded(cfg, s, r);
      OneStep(cfg, s, Proceed(r));
    } else {
      var s1, x := Proceeded(cfg, s, r), FoundExpired(r.question);
      assert x in s1.requests;
      later := Proceeded(cfg, s1, x);
      more := [Proceed(r)] + [Proceed(x)];
      TwoSteps(cfg, s, Proceed(r), s1, Proceed(x), later);
    }
  }

  lemma NotHeldNotCached(cfg: Config, s: State, q: WireQuestion)
    requires cfg.Valid() && Key(cfg, q) !in s.cache.backend
    ensures !Asked(cfg, s, q).1.CachedReply?
  {
    AskedDecides(cfg, s, q);
  }

  /** The steps by which a request that endangers an entry removes its key in time. */
  lemma DangerousSteps(cfg: Config, s: State, r: Request, q: WireQuestion, until: int) returns (more: seq<Action>, later: State)
    requires cfg.Valid() && IsIPQuery(q) > 0 && r in s.requests && Endangers(r, q, until) && s.now <= until
    ensures ExecFrom(cfg, false, s, more) == Some(later) && NoSwapFor(cfg, s, more, q)
    ensures later.now <= until && !Asked(cfg, later, q).1.CachedReply?
  {
    var wait: nat := if r.FoundExpired? || s.now > r.entry.expiresAt then 0 else r.entry.expiresAt + 1 - s.now;
    var s1 := s.(now := s.now + wait);
    var steps, end := RemovalDrops(cfg, s1, r, q);
    NotHeldNotCached(cfg, end, q);
    WaitFirst(cfg, s, wait, s1, steps, q);
    more, later := [Advance(wait)] + steps, end;
  }

  lemma WaitFirst(cfg: Config, s: State, wait: nat, s1: State, steps: seq<Action>, q: WireQuestion)
    requires s1 == s.(now := s.now + wait) && OnlyProceeds(steps)
    ensures ExecFrom(cfg, false, s, [Advance(wait)] + steps) == ExecFrom(cfg, false, s1, steps)
    ensures NoSwapFor(cfg, s, [Advance(wait)] + steps, q)
  {
    OneMoreStep(cfg, s, Advance(wait), s1, steps);
    ProceedsStoreNothing(cfg, s, [Advance(wait)] + steps, q);
  }

  /** After every continuation that stores nothing else for the question, it is answered with the entry until that expires. */
  ghost predicate ServedUntilExpiry(cfg: Config, s: State, q: WireQuestion, e: L.LEntry) {
    forall more, later ::
      ExecFrom(cfg, false, s, more) == Some(later) && NoSwapFor(cfg, s, more, q) && later.now <= e.expiresAt
      ==> Asked(cfg, later, q).1 == CachedReply(e.rrs)
  }

  /**
   The counterpart of provenance. Once the answer to an address question has been stored, then whatever
   requests, lookups and other inserts follow, as long as nothing else is stored for the question, it is
   answered with those records until the entry expires, if and only if no request under way is about to
   remove the key or has loaded an entry of it that expires earlier.
   */
  lemma InsertedAnswerIsServed(cfg: Config, start: int, run: seq<Action>, s: State, w: Store, q: WireQuestion)
    requires cfg.Valid() && Exec(cfg, false, start, run) == Some(s)
    requires w in s.stores && w.answer < |s.answers| && SameQuestion(s.answers[w.answer].question, q)
    ensures ServedUntilExpiry(cfg, Swapped(cfg, s, w), q, w.entry)
            <==> !(s.now <= w.entry.expiresAt && Endangered(s, q, w.entry.expiresAt))
    ensures s.answers[w.answer].rrs <= w.entry.rrs
  {
    var s', e := Swapped(cfg, s, w), w.entry;
    StoreIsServed(cfg, start, run, s, w, q, s');
    if s.now <= e.expiresAt && Endangered(s, q, e.expiresAt) {
      var r :| r in s.requests && Endangers(r, q, e.expiresAt);
      var more, later := DangerousSteps(cfg, s', r, q, e.expiresAt);
    } else {
      assert Kept(cfg, s', q, e, e.expiresAt);
      forall more, later | ExecFrom(cfg, false, s', more) == Some(later) && NoSwapFor(cfg, s', more, q) && later.now <= e.expiresAt
        ensures Asked(cfg, later, q).1 == CachedReply(e.rrs)
      {
        RunKeeps(cfg, s', more, later, q, e, e.expiresAt);
        LiveEntryIsServed(cfg, later, q);
      }
    }
  }

  lemma StoreIsServed(cfg: Config, start: int, run: seq<Action>, s: State, w: Store, q: WireQuestion, s': State)
    requires cfg.Valid() && Exec(cfg, false, start, run) == Some(s)
    requires w in s.stores && w.answer < |s.answers| && SameQuestion(s.answers[w.answer].question, q)
    requires s' == Swapped(cfg, s, w)
    ensures Clean(cfg, q) && IsIPQuery(q) > 0 && s.answers[w.answer].rrs <= w.entry.rrs
    ensures Key(cfg, q) in s'.cache.backend && s'.cache.backend[Key(cfg, q)] == w.entry
  {
    P.RunKeepsInvariant(cfg, start, run);
    assert P.StoreSound(cfg, s, w);
    var asked := s.answers[w.answer].question;
    assert Clean(cfg, asked);
    KeyInjective(cfg, asked, q);
    SameQuestionSameSources(cfg, asked, q);
  }

  /** Without a store for the question, its key gains no entry. */
  lemma CacheOnlyShrinks(cfg: Config, s: State, a: Action, s': State, q: WireQuestion)
    requires cfg.Valid() && IsIPQuery(q) > 0 && Step(cfg, false, s, a) == Some(s') && !SwapsFor(s, a, q)
    ensures var k := Key(cfg, q); k in s'.cache.backend ==> k in s.cache.backend && s'.cache.backend[k] == s.cache.backend[k]
  {
    if a.Ask? {
      assert s'.cache == s.cache;
    } else if a.Proceed? {
      P.ProceedMoves(cfg, s, a.request, s');
    } else if a.Swap? {
      KeyInjective(cfg, q, s.answers[a.store.answer].question);
    } else {
      OthersKeep(cfg, s, a, s');
    }
  }

  /** The key holds no entry but the one given. */
  predicate NoOther(cfg: Config, s: State, q: WireQuestion, e: L.LEntry) {
    Key(cfg, q) in s.cache.backend ==> s.cache.backend[Key(cfg, q)] == e
  }

  /** And once it has expired it is not served, whatever is under way. */
  lemma {:induction false} ExpiredAnswerIsNotServed(cfg: Config, s: State, more: seq<Action>, later: State, q: WireQuestion, e: L.LEntry)
    requires cfg.Valid() && IsIPQuery(q) > 0 && NoOther(cfg, s, q, e)
    requires ExecFrom(cfg, false, s, more) == Some(later) && NoSwapFor(cfg, s, more, q)
    ensures NoOther(cfg, later, q, e)
    ensures later.now > e.expiresAt ==> !Asked(cfg, later, q).1.CachedReply?
  {
    AskedDecides(cfg, later, q);
    if more != [] {
      var n := |more| - 1;
      var m := ExecFrom(cfg, false, s, more[..n]).value;
      NoSwapInPrefix(cfg, s, more, more[..n], q);
      ExpiredAnswerIsNotServed(cfg, s, more[..n], m, q, e);
      assert !SwapAt(cfg, s, more, n, q);
      CacheOnlyShrinks(cfg, m, more[n], later, q);
    }
  }

  // -------- a run in which a newer entry is lost --------

  /** An answer to a question that no cache holds, waiting for its insert. */
  function Queued(s: State, q: WireQuestion, rr: CF.RR): State {
    s.(records := s.records + [rr], headers := s.headers + [rr.ttl], answers := s.answers + [Upstream(q, [|s.records|])],
       pending := s.pending + multiset{Pending(|s.answers|, [|s.records|])})
  }

  lemma QueueAnswer(cfg: Config, s: State, q: WireQuestion, rr: CF.RR, rest: seq<Action>)
    requires cfg.Valid() && Clean(cfg, q) && IsIPQuery(q) > 0
    requires Key(cfg, q) !in s.cache.backend && Key(cfg, q) !in s.neg.backend
    ensures ExecFrom(cfg, false, s, [Ask(q)] + ([Proceed(Missed(q))] + ([LookupAnswers(q, [rr])] + rest)))
            == ExecFrom(cfg, false, Queued(s, q, rr), rest)
  {
    var s1 := WithRequest(s, Missed(q));
    var s2 := WithLookup(s, q);
    AddedThenTaken(s.requests, Missed(q));
    assert s2.lookups - multiset{q} == s.lookups;
    AnswerIsQueued(s, q, rr);
    OneMoreStep(cfg, s2, LookupAnswers(q, [rr]), Queued(s, q, rr), rest);
    OneMoreStep(cfg, s1, Proceed(Missed(q)), s2, [LookupAnswers(q, [rr])] + rest);
    OneMoreStep(cfg, s, Ask(q), s1, [Proceed(Missed(q))] + ([LookupAnswers(q, [rr])] + rest));
  }

  lemma AnswerIsQueued(s: State, q: WireQuestion, rr: CF.RR)
    requires IsIPQuery(q) > 0
    ensures Answered(WithLookup(s, q), q, [rr]) == Queued(s, q, rr)
  {
    assert WithLookup(s, q).lookups - multiset{q} == s.lookups;
    assert NewIds(s, 1) == [|s.records|];
    assert Ttls([rr]) == [rr.ttl];
  }

  /**
   A run in which two answers to a question wait for their inserts, the first has been stored, a request
   has loaded it, and the second, with a larger TTL, is about to take its place.
   */
  lemma FreshEntryMayBeLost(cfg: Config, start: int, q: WireQuestion, stale: CF.RR, newer: CF.RR)
    returns (run: seq<Action>, s: State, w: Store)
    requires cfg.Valid() && Clean(cfg, q) && IsIPQuery(q) > 0 && stale.ttl < newer.ttl
    ensures Exec(cfg, false, start, run) == Some(s)
    ensures w in s.stores && w.answer < |s.answers| && s.answers[w.answer].question == q && s.now <= w.entry.expiresAt
    ensures !ServedUntilExpiry(cfg, Swapped(cfg, s, w), q, w.entry)
  {
    var s0 := Init(start);
    var s1 := Queued(s0, q, stale);
    var s2 := Queued(s1, q, newer);
    var inserts, end, w' := OldLoadedNewPrepared(cfg, s2, q, stale, newer);
    var second := [Ask(q)] + ([Proceed(Missed(q))] + ([LookupAnswers(q, [newer])] + inserts));
    run := [Ask(q)] + ([Proceed(Missed(q))] + ([LookupAnswers(q, [stale])] + second));
    s, w := end, w';
    QueueAnswer(cfg, s1, q, newer, inserts);
    QueueAnswer(cfg, s0, q, stale, second);
    InsertedAnswerIsServed(cfg, start, run, s, w, q);
  }

  /** An insert runs through both its halves. */
  lemma StoreAnswer(cfg: Config, s: State, p: Pending, w: Store) returns (s1: State, s': State)
    requires cfg.Valid() && p in s.pending && p.answer < |s.answers|
    requires L.Accepts(cfg.maxcount, s.cache, Key(cfg, s.answers[p.answer].question))
    requires w == Store(p.answer, NewEntry(s, p), s.now)
    ensures Step(cfg, false, s, Insert(p)) == Some(s1) && Step(cfg, false, s1, Swap(w)) == Some(s')
    ensures s'.pending == s.pending - multiset{p} && s'.stores == s.stores
    ensures s'.headers == s.headers && s'.now == s.now && s'.answers == s.answers
    ensures var key := Key(cfg, s.answers[p.answer].question); key in s'.cache.backend && s'.cache.backend[key] == w.entry
  {
    s1 := Prepared(cfg, s, p);
    assert w in s1.stores && s1.stores - multiset{w} == s.stores;
    s' := Swapped(cfg, s1, w);
  }

  /** A request loads the entry of the key, and another insert for it is prepared. */
  lemma LoadThenPrepare(cfg: Config, s: State, q: WireQuestion, p: Pending, e: L.LEntry) returns (end: State, r: Request)
    requires cfg.Valid() && Clean(cfg, q) && IsIPQuery(q) > 0 && Key(cfg, q) in s.cache.backend && s.cache.backend[Key(cfg, q)] == e
    requires p in s.pending && p.answer < |s.answers| && s.answers[p.answer].question == q
    ensures ExecFrom(cfg, false, s, [Ask(q)] + [Insert(p)]) == Some(end)
    ensures r in end.requests && r.Loaded? && r.question == q && r.entry == e
    ensures Store(p.answer, NewEntry(s, p), s.now) in end.stores && end.answers == s.answers && end.now == s.now
  {
    var k := Key(cfg, q);
    assert Lower(k) == k;
    r := Loaded(q, e, if k in s.source then s.source[k] else 0);
    var s1 := WithRequest(s, r);
    assert Began(cfg, s, q) == s1;
    end := Prepared(cfg, s1, p);
    OneStep(cfg, s1, Insert(p));
    OneMoreStep(cfg, s, Ask(q), s1, [Insert(p)]);
  }

  /** The first answer is stored and loaded, the second prepared. */
  lemma OldLoadedNewPrepared(cfg: Config, s: State, q: WireQuestion, stale: CF.RR, newer: CF.RR)
    returns (run: seq<Action>, end: State, w: Store)
    requires cfg.Valid() && Clean(cfg, q) && IsIPQuery(q) > 0 && stale.ttl < newer.ttl
    requires s.pending == multiset{Pending(0, [0]), Pending(1, [1])} && s.headers == [stale.ttl, newer.ttl]
    requires |s.answers| == 2 && s.answers[0].question == q && s.answers[1].question == q
    requires s.cache == L.EMPTY
    ensures ExecFrom(cfg, false, s, run) == Some(end)
    ensures w in end.stores && w.answer < |end.answers| && end.answers[w.answer].question == q && end.now <= w.entry.expiresAt
    ensures Endangered(end, q, w.entry.expiresAt)
  {
    var p0, p1 := Pending(0, [0]), Pending(1, [1]);
    var w0 := Store(0, NewEntry(s, p0), s.now);
    var s1, s2 := StoreAnswer(cfg, s, p0, w0);
    assert p1 in s2.pending;
    var r;
    end, r := LoadThenPrepare(cfg, s2, q, p1, w0.entry);
    w := Store(1, NewEntry(s2, p1), s2.now);
    EntryOfOne(s, p0, stale.ttl);
    EntryOfOne(s2, p1, newer.ttl);
    assert Endangers(r, q, w.entry.expiresAt);
    TwoSteps(cfg, s, Insert(p0), s1, Swap(w0), s2);
    run := [Insert(p0)] + [Swap(w0)] + ([Ask(q)] + [Insert(p1)]);
    ExecConcat(cfg, s, [Insert(p0)] + [Swap(w0)], s2, [Ask(q)] + [Insert(p1)]);
  }

  lemma EntryOfOne(s: State, p: Pending, ttl: L.uint32)
    requires |p.rrs| == 1 && p.rrs[0] < |s.headers| && s.headers[p.rrs[0]] == ttl
    ensures NewEntry(s, p) == L.LEntry(p.rrs, s.now + ttl * L.SECOND)
  {
    assert p.rrs[..|p.rrs| - 1] == [];
    assert L.MinTtl(s.headers, []) == L.MAX_UINT32;
    L.ExpiryExact(s.now, ttl);
  }

  // -------- one reply at one instant --------

  predicate EndangersFailure(r: Request, q: WireQuestion, until: int) {
    SameQuestion(q, r.question) && (r.FoundNegExpired? || (r.NegLoaded? && r.entry.expiresAt < until))
  }

  ghost predicate FailureEndangered(s: State, q: WireQuestion, until: int) {
    exists r :: r in s.requests && EndangersFailure(r, q, until)
  }

  /** Up to the given time the negative cache holds the question and nothing endangers that. */
  ghost predicate FailureKept(cfg: Config, s: State, q: WireQuestion, until: int) {
    Key(cfg, q) in s.neg.backend && s.neg.backend[Key(cfg, q)].expiresAt >= until && !FailureEndangered(s, q, until)
  }

  lemma NoneEndangersFailure(s: State, s': State, next: Request, q: WireQuestion, until: int)
    requires P.Moves(s, s', next) && !FailureEndangered(s, q, until) && !EndangersFailure(next, q, until)
    ensures !FailureEndangered(s', q, until)
  {
    if FailureEndangered(s', q, until) {
      var r :| r in s'.requests && EndangersFailure(r, q, until);
      P.MovedRequest(s, s', next, r);
    }
  }

  lemma ProceedKeepsFailure(cfg: Config, s: State, r: Request, s': State, q: WireQuestion, until: int)
    requires cfg.Valid() && IsIPQuery(q) > 0 && r in s.requests && s' == Proceeded(cfg, s, r) && s.now <= until
    requires !FailureEndangered(s, q, until)
    requires Key(cfg, q) in s.neg.backend ==> s.neg.backend[Key(cfg, q)].expiresAt >= until
    ensures !FailureEndangered(s', q, until)
    ensures Key(cfg, q) in s.neg.backend ==> Key(cfg, q) in s'.neg.backend
  {
    KeyInjective(cfg, q, r.question);
    assert !EndangersFailure(r, q, until);
    if r.Loaded? || r.NegLoaded? {
      P.CompareMoves(cfg, s, r, s');
      CompareKeepsFailure(cfg, s, r, s', q, until);
    } else if r.Missed? {
      P.MissMoves(cfg, s, r, s');
      assert Lower(Key(cfg, r.question)) == Key(cfg, r.question);
      NoneEndangersFailure(s, s', P.NextOf(cfg, s, r), q, until);
    } else {
      P.RemoveMoves(cfg, s, r, s');
      RemovalKeepsOthers(cfg, s, r, s', Key(cfg, q));
      NoneEndangersFailure(s, s', Missed(r.question), q, until);
    }
  }

  lemma CompareKeepsFailure(cfg: Config, s: State, r: Request, s': State, q: WireQuestion, until: int)
    requires (r.Loaded? || r.NegLoaded?) && r in s.requests && s' == Proceeded(cfg, s, r) && s.now <= until
    requires !FailureEndangered(s, q, until)
    ensures !FailureEndangered(s', q, until)
  {
    assert !EndangersFailure(r, q, until);
    if s.now <= r.entry.expiresAt {
      assert P.Moves(s, s', Missed(r.question));
      NoneEndangersFailure(s, s', Missed(r.question), q, until);
    } else {
      P.CompareMoves(cfg, s, r, s');
      NoneEndangersFailure(s, s', P.NextOf(cfg, s, r), q, until);
    }
  }

  lemma RemovalKeepsOthers(cfg: Config, s: State, r: Request, s': State, key: string)
    requires cfg.Valid() && s' == Proceeded(cfg, s, r) && (r.FoundExpired? || r.FoundNegExpired?)
    requires r.FoundNegExpired? ==> Key(cfg, r.question) != key
    ensures key in s.neg.backend ==> key in s'.neg.backend
  {
  }

  lemma AskKeepsNeg(cfg: Config, s: State, p: WireQuestion, s': State, q: WireQuestion, until: int)
    requires s' == Began(cfg, s, p) && !FailureEndangered(s, q, until)
    ensures s'.neg == s.neg && s'.failures == s.failures && s'.now == s.now && !FailureEndangered(s', q, until)
  {
    var k := Lower(Key(cfg, p));
    var next := if k in s.cache.backend then Loaded(p, s.cache.backend[k], if k in s.source then s.source[k] else 0) else Missed(p);
    assert P.Moves(s, s', next);
    NoneEndangersFailure(s, s', next, q, until);
  }

  /** Without a failure of the question, its key gains no entry in the negative cache. */
  lemma NegOnlyShrinks(cfg: Config, s: State, a: Action, s': State, q: WireQuestion)
    requires cfg.Valid() && IsIPQuery(q) > 0 && Step(cfg, false, s, a) == Some(s')
    requires !(a.LookupFails? && SameQuestion(q, a.question))
    ensures var k := Key(cfg, q); k in s'.neg.backend ==> k in s.neg.backend && s'.neg.backend[k] == s.neg.backend[k]
  {
    if a.Ask? {
      assert s'.neg == s.neg;
    } else if a.Proceed? {
      P.ProceedMoves(cfg, s, a.request, s');
    } else if a.LookupFails? {
      KeyInjective(cfg, q, a.question);
    } else if a.LookupAnswers? {
      P.AnswerChanges(s, a.question, a.rrs, s');
    } else {
      P.OthersAskNothing(cfg, s, a, s');
    }
  }

  lemma StepKeepsFailure(cfg: Config, s: State, a: Action, s': State, q: WireQuestion, until: int)
    requires cfg.Valid() && IsIPQuery(q) > 0 && Step(cfg, false, s, a) == Some(s') && s.now <= until
    requires !(a.LookupFails? && SameQuestion(q, a.question)) && FailureKept(cfg, s, q, until)
    ensures FailureKept(cfg, s', q, until)
  {
    NegOnlyShrinks(cfg, s, a, s', q);
    if a.Ask? {
      AskKeepsNeg(cfg, s, a.question, s', q, until);
    } else if a.Proceed? {
      ProceedKeepsFailure(cfg, s, a.request, s', q, until);
    } else if a.LookupFails? {
      KeyInjective(cfg, q, a.question);
    } else if a.LookupAnswers? {
      P.AnswerChanges(s, a.question, a.rrs, s');
    } else {
      P.OthersAskNothing(cfg, s, a, s');
    }
  }

  /** The action may change what the question is answered with: time passes, an entry for it is stored, or its lookup fails. */
  predicate Disturbs(s: State, a: Action, q: WireQuestion) {
    (a.Advance? && a.elapsed > 0) || SwapsFor(s, a, q) || (a.LookupFails? && SameQuestion(q, a.question))
  }

  ghost predicate DisturbedAt(cfg: Config, s: State, more: seq<Action>, i: nat, q: WireQuestion)
    requires i < |more|
  {
    match ExecFrom(cfg, false, s, more[..i])
    case None => false
    case Some(m) => Disturbs(m, more[i], q)
  }

  ghost predicate Undisturbed(cfg: Config, s: State, more: seq<Action>, q: WireQuestion) {
    forall i :: 0 <= i < |more| ==> !DisturbedAt(cfg, s, more, i, q)
  }

  lemma UndisturbedPrefix(cfg: Config, s: State, more: seq<Action>, init: seq<Action>, q: WireQuestion)
    requires Undisturbed(cfg, s, more, q) && init <= more
    ensures Undisturbed(cfg, s, init, q)
  {
    forall i | 0 <= i < |init| ensures !DisturbedAt(cfg, s, init, i, q) {
      assert init[..i] == more[..i];
      assert !DisturbedAt(cfg, s, more, i, q);
    }
  }

  /** What decides the reply to an address question at the time given, and can only be disturbed. */
  ghost predicate Decided(cfg: Config, s: State, s': State, q: WireQuestion) {
    var key := Key(cfg, q);
    && s'.now == s.now
    && (Live(s.cache, key, s.now) && Kept(cfg, s, q, s.cache.backend[key], s.now) ==> Kept(cfg, s', q, s.cache.backend[key], s.now))
    && (!Live(s.cache, key, s.now) ==> !Live(s'.cache, key, s.now))
    && (FailureKept(cfg, s, q, s.now) ==> FailureKept(cfg, s', q, s.now))
    && (!Live(s.neg, key, s.now) ==> !Live(s'.neg, key, s.now))
  }

  lemma InstantStep(cfg: Config, s: State, m: State, a: Action, m': State, q: WireQuestion)
    requires cfg.Valid() && IsIPQuery(q) > 0 && Decided(cfg, s, m, q)
    requires Step(cfg, false, m, a) == Some(m') && !Disturbs(m, a, q)
    ensures Decided(cfg, s, m', q)
  {
    var key := Key(cfg, q);
    SameInstant(cfg, m, a, m', q);
    CacheOnlyShrinks(cfg, m, a, m', q);
    NegOnlyShrinks(cfg, m, a, m', q);
    if Live(s.cache, key, s.now) && Kept(cfg, s, q, s.cache.backend[key], s.now) {
      StepKeeps(cfg, m, a, m', q, s.cache.backend[key], s.now);
    }
    if FailureKept(cfg, s, q, s.now) {
      StepKeepsFailure(cfg, m, a, m', q, s.now);
    }
  }

  lemma SameInstant(cfg: Config, s: State, a: Action, s': State, q: WireQuestion)
    requires Step(cfg, false, s, a) == Some(s') && !Disturbs(s, a, q)
    ensures s'.now == s.now
  {
  }

  lemma {:induction false} InstantRun(cfg: Config, s: State, more: seq<Action>, later: State, q: WireQuestion)
    requires cfg.Valid() && IsIPQuery(q) > 0 && ExecFrom(cfg, false, s, more) == Some(later) && Undisturbed(cfg, s, more, q)
    ensures Decided(cfg, s, later, q)
  {
    if more != [] {
      var n := |more| - 1;
      var m := ExecFrom(cfg, false, s, more[..n]).value;
      UndisturbedPrefix(cfg, s, more, more[..n], q);
      InstantRun(cfg, s, more[..n], m, q);
      assert !DisturbedAt(cfg, s, more, n, q);
      InstantStep(cfg, s, m, more[n], later, q);
    }
  }

  /** The cache that would answer has a removal of the key pending. */
  ghost predicate Unsettled(cfg: Config, s: State, q: WireQuestion) {
    match Asked(cfg, s, q).1
    case CachedReply(_) => Endangered(s, q, s.now)
    case NegativeReply => FailureEndangered(s, q, s.now)
    case _ => false
  }

  /** The question has one reply for as long as nothing disturbs it. */
  ghost predicate ReplyIsFixed(cfg: Config, s: State, q: WireQuestion) {
    forall more, later :: ExecFrom(cfg, false, s, more) == Some(later) && Undisturbed(cfg, s, more, q)
      ==> Asked(cfg, later, q).1 == Asked(cfg, s, q).1
  }

  lemma DecidedReply(cfg: Config, s: State, s': State, q: WireQuestion)
    requires cfg.Valid() && IsIPQuery(q) > 0 && Decided(cfg, s, s', q) && !Unsettled(cfg, s, q)
    ensures Asked(cfg, s', q).1 == Asked(cfg, s, q).1
  {
    AskedDecides(cfg, s, q);
    AskedDecides(cfg, s', q);
    if Asked(cfg, s, q).1.CachedReply? {
      LiveEntryIsServed(cfg, s, q);
      LiveEntryIsServed(cfg, s', q);
    }
  }

  lemma ProceedsDisturbNothing(cfg: Config, s: State, more: seq<Action>, q: WireQuestion)
    requires OnlyProceeds(more)
    ensures Undisturbed(cfg, s, more, q)
  {
  }

  lemma FailureRemovalDrops(cfg: Config, s: State, r: Request, q: WireQuestion) returns (more: seq<Action>, later: State)
    requires cfg.Valid() && IsIPQuery(q) > 0 && r in s.requests && EndangersFailure(r, q, s.now)
    ensures OnlyProceeds(more) && ExecFrom(cfg, false, s, more) == Some(later)
    ensures Key(cfg, q) !in later.neg.backend
  {
    if r.FoundNegExpired? {
      more, later := [Proceed(r)], Proceeded(cfg, s, r);
      OneStep(cfg, s, Proceed(r));
      NegRemovalDrops(cfg, s, r, q);
    } else {
      var s1, x := NegCompareFindsExpired(cfg, s, r);
      later := Proceeded(cfg, s1, x);
      more := [Proceed(r)] + [Proceed(x)];
      NegRemovalDrops(cfg, s1, x, q);
      TwoSteps(cfg, s, Proceed(r), s1, Proceed(x), later);
    }
  }

  lemma NegRemovalDrops(cfg: Config, s: State, r: Request, q: WireQuestion)
    requires cfg.Valid() && IsIPQuery(q) > 0 && r.FoundNegExpired? && SameQuestion(q, r.question)
    ensures Key(cfg, q) !in Proceeded(cfg, s, r).neg.backend
  {
    KeyInjective(cfg, q, r.question);
  }

  lemma NegCompareFindsExpired(cfg: Config, s: State, r: Request) returns (s': State, x: Request)
    requires r in s.requests && r.NegLoaded? && r.entry.expiresAt < s.now
    ensures Step(cfg, false, s, Proceed(r)) == Some(s') && x in s'.requests && x == FoundNegExpired(r.question)
  {
    s', x := Proceeded(cfg, s, r), FoundNegExpired(r.question);
  }

  lemma UnsettledReplyChanges(cfg: Config, s: State, q: WireQuestion)
    requires cfg.Valid() && IsIPQuery(q) > 0 && Unsettled(cfg, s, q)
    ensures !ReplyIsFixed(cfg, s, q)
  {
    if Asked(cfg, s, q).1.CachedReply? {
      var r :| r in s.requests && Endangers(r, q, s.now);
      var more, later := RemovalDrops(cfg, s, r, q);
      ProceedsDisturbNothing(cfg, s, more, q);
      NotHeldNotCached(cfg, later, q);
    } else {
      var r :| r in s.requests && EndangersFailure(r, q, s.now);
      var more, later := FailureRemovalDrops(cfg, s, r, q);
      ProceedsDisturbNothing(cfg, s, more, q);
      AskedDecides(cfg, later, q);
    }
  }

  /**
   At one instant a question has one reply, the same records from the same source whatever requests,
   follow-ups, lookups and inserts of other questions come between, if and only if the cache that answers
   it has no removal of its key pending.
   */
  lemma OneReplyAtOneInstant(cfg: Config, s: State, q: WireQuestion)
    requires cfg.Valid()
    ensures ReplyIsFixed(cfg, s, q) <==> !Unsettled(cfg, s, q)
  {
    if IsIPQuery(q) == 0 {
      assert forall later :: Asked(cfg, later, q).1 == Asked(cfg, s, q).1;
    } else if Unsettled(cfg, s, q) {
      UnsettledReplyChanges(cfg, s, q);
    } else {
      forall more, later | ExecFrom(cfg, false, s, more) == Some(later) && Undisturbed(cfg, s, more, q)
        ensures Asked(cfg, later, q).1 == Asked(cfg, s, q).1
      {
        InstantRun(cfg, s, more, later, q);
        DecidedReply(cfg, s, later, q);
      }
    }
  }
}
