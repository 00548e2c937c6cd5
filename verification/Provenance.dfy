/**
 Where cached replies come from (`handler.go`, `responseFor`), in every run of the engine: what the caches
 hold, the requests that have loaded from them and the inserts under way go back to upstream answers.
 */
module Provenance {
  import opened Text
  import opened Questions
  import opened Engine
  import CF = CnameFollowing
  import L = Lcache

  // -------- invariant --------

  predicate Known(s: State, ids: seq<nat>) {
    forall r :: r in ids ==> r < |s.records|
  }

  /** A record's TTL never exceeds the one it came with. */
  predicate TtlsSound(s: State) {
    |s.headers| == |s.records| && forall r :: 0 <= r < |s.records| ==> s.headers[r] <= s.records[r].ttl
  }

  predicate PendingSound(s: State, p: Pending) {
    && p.answer < |s.answers| && s.answers[p.answer].rrs != [] && s.answers[p.answer].rrs <= p.rrs && Known(s, p.rrs)
    && IsIPQuery(s.answers[p.answer].question) > 0
  }

  /** The entry was made at a past time from a recorded answer to a question with that key, and dies in time. */
  predicate MadeFrom(cfg: Config, s: State, k: string, e: L.LEntry, answer: nat, at: int) {
    && answer < |s.answers| && at <= s.now
    && at <= e.expiresAt <= at + L.MAX_UINT32 * L.SECOND
    && s.answers[answer].rrs != [] && s.answers[answer].rrs <= e.rrs && Known(s, e.rrs)
    && IsIPQuery(s.answers[answer].question) > 0 && Key(cfg, s.answers[answer].question) == k
    && (forall r :: r in e.rrs ==> e.expiresAt <= at + s.records[r].ttl * L.SECOND)
  }

  /** The entry was made by a recorded insertion. */
  predicate MadeBy(cfg: Config, s: State, k: string, e: L.LEntry, i: nat) {
    i < |s.inserts| && e.rrs == s.inserts[i].rrs && MadeFrom(cfg, s, k, e, s.inserts[i].answer, s.inserts[i].at)
  }

  predicate EntrySound(cfg: Config, s: State, k: string) {
    k in s.cache.backend ==> k in s.source && MadeBy(cfg, s, k, s.cache.backend[k], s.source[k])
  }

  predicate StoreSound(cfg: Config, s: State, w: Store) {
    w.answer < |s.answers| && MadeFrom(cfg, s, Key(cfg, s.answers[w.answer].question), w.entry, w.answer, w.at)
  }

  predicate RequestSound(cfg: Config, s: State, r: Request) {
    && IsIPQuery(r.question) > 0
    && (r.Loaded? ==> MadeBy(cfg, s, Key(cfg, r.question), r.entry, r.origin))
    && (r.NegLoaded? ==> r.entry.rrs == [])
  }

  ghost predicate NegSound(cfg: Config, s: State, k: string) {
    k in s.neg.backend ==> s.neg.backend[k].rrs == [] && exists q :: q in s.failures && Key(cfg, q) == k
  }

  /** Depends on the configuration by its keys alone. */
  ghost predicate Sound(cfg: Config, s: State) {
    && TtlsSound(s)
    && (forall p :: p in s.pending ==> PendingSound(s, p))
    && (forall w :: w in s.stores ==> StoreSound(cfg, s, w))
    && (forall r :: r in s.requests ==> RequestSound(cfg, s, r))
    && (forall k :: EntrySound(cfg, s, k))
    && (forall k :: NegSound(cfg, s, k))
  }

  /** The history only grows. */
  predicate Later(s: State, s': State) {
    && s.now <= s'.now && s.records <= s'.records && s.answers <= s'.answers && s.inserts <= s'.inserts
    && (forall q :: q in s.failures ==> q in s'.failures)
  }

  lemma MadeFromLater(cfg: Config, s: State, s': State, k: string, e: L.LEntry, answer: nat, at: int)
    requires Later(s, s') && MadeFrom(cfg, s, k, e, answer, at)
    ensures MadeFrom(cfg, s', k, e, answer, at)
  {
  }

  lemma MadeByLater(cfg: Config, s: State, s': State, k: string, e: L.LEntry, i: nat)
    requires Later(s, s') && MadeBy(cfg, s, k, e, i)
    ensures MadeBy(cfg, s', k, e, i)
  {
    MadeFromLater(cfg, s, s', k, e, s.inserts[i].answer, s.inserts[i].at);
  }

  /** The key's entry and its origin are those of before. */
  predicate SameEntry(s: State, s': State, k: string) {
    && k in s.cache.backend && k in s'.cache.backend && s'.cache.backend[k] == s.cache.backend[k]
    && (k in s.source ==> k in s'.source && s'.source[k] == s.source[k])
  }

  predicate SameNegEntry(s: State, s': State, k: string) {
    k in s.neg.backend && k in s'.neg.backend && s'.neg.backend[k] == s.neg.backend[k]
  }

  /** A step is sound if what is new in it is. */
  lemma SoundKept(cfg: Config, s: State, s': State)
    requires Sound(cfg, s) && Later(s, s') && TtlsSound(s')
    requires forall p :: p in s'.pending ==> p in s.pending || PendingSound(s', p)
    requires forall w :: w in s'.stores ==> w in s.stores || StoreSound(cfg, s', w)
    requires forall r :: r in s'.requests ==> r in s.requests || RequestSound(cfg, s', r)
    requires forall k :: k in s'.cache.backend ==> SameEntry(s, s', k) || EntrySound(cfg, s', k)
    requires forall k :: k in s'.neg.backend ==> SameNegEntry(s, s', k) || NegSound(cfg, s', k)
    ensures Sound(cfg, s')
  {
    forall p | p in s'.pending ensures PendingSound(s', p) {
      assert p in s.pending ==> PendingSound(s, p);
    }
    forall w | w in s'.stores ensures StoreSound(cfg, s', w) {
      if w in s.stores {
        assert StoreSound(cfg, s, w);
        MadeFromLater(cfg, s, s', Key(cfg, s.answers[w.answer].question), w.entry, w.answer, w.at);
      }
    }
    forall r | r in s'.requests ensures RequestSound(cfg, s', r) {
      if r in s.requests {
        assert RequestSound(cfg, s, r);
        if r.Loaded? {
          MadeByLater(cfg, s, s', Key(cfg, r.question), r.entry, r.origin);
        }
      }
    }
    forall k ensures EntrySound(cfg, s', k) {
      EntryKept(cfg, s, s', k);
    }
    forall k ensures NegSound(cfg, s', k) {
      assert NegSound(cfg, s, k);
    }
  }

  lemma EntryKept(cfg: Config, s: State, s': State, k: string)
    requires EntrySound(cfg, s, k) && Later(s, s')
    requires k in s'.cache.backend ==> SameEntry(s, s', k) || EntrySound(cfg, s', k)
    ensures EntrySound(cfg, s', k)
  {
    if k in s'.cache.backend && SameEntry(s, s', k) {
      MadeByLater(cfg, s, s', k, s.cache.backend[k], s.source[k]);
    }
  }

  // -------- every step is sound --------

  /** The TTL that a hit writes is no larger than the upstream TTL of any record of the entry. */
  lemma HitTtlSound(cfg: Config, s: State, k: string, e: L.LEntry, i: nat, r: nat)
    requires MadeBy(cfg, s, k, e, i) && r in e.rrs && s.now <= e.expiresAt
    ensures r < |s.records| && L.NewTtl(e, s.now) <= s.records[r].ttl
  {
  }

  lemma HitKeepsTtls(cfg: Config, s: State, k: string, e: L.LEntry, i: nat)
    requires TtlsSound(s) && MadeBy(cfg, s, k, e, i) && s.now <= e.expiresAt
    ensures TtlsSound(s.(headers := L.Rewritten(s.headers, e.rrs, L.NewTtl(e, s.now))))
  {
    forall r | 0 <= r < |s.records| && r in e.rrs ensures L.NewTtl(e, s.now) <= s.records[r].ttl {
      HitTtlSound(cfg, s, k, e, i, r);
    }
  }

  /** A whole `Get` keeps every TTL sound, drops at most the key asked for and leaves all other entries as they are. */
  lemma CacheGetSound(cfg: Config, s: State, key: string)
    requires TtlsSound(s) && (forall k :: EntrySound(cfg, s, k))
    ensures var (cache, headers, r) := L.Got(s.cache, s.headers, key, s.now);
            && TtlsSound(s.(cache := cache, headers := headers))
            && (forall k :: k != Lower(key) ==> (k in cache.backend <==> k in s.cache.backend))
            && (forall k :: k in cache.backend ==> k in s.cache.backend && cache.backend[k] == s.cache.backend[k])
            && (r.Hit? ==> Lower(key) in s.cache.backend && r.rrs == s.cache.backend[Lower(key)].rrs
                           && s.now <= s.cache.backend[Lower(key)].expiresAt)
  {
    var k := Lower(key);
    assert EntrySound(cfg, s, k);
    if Live(s.cache, k, s.now) {
      HitKeepsTtls(cfg, s, k, s.cache.backend[k], s.source[k]);
    }
  }

  /** Only requests, lookups, TTLs and the two tables differ, and the tables have gained nothing. */
  predicate OnlyRequestsMove(s: State, s': State) {
    && s'.now == s.now && s'.records == s.records && s'.answers == s.answers && s'.inserts == s.inserts
    && s'.failures == s.failures && s'.pending == s.pending && s'.stores == s.stores && s'.source == s.source
    && (forall k :: k in s'.cache.backend ==> k in s.cache.backend && s'.cache.backend[k] == s.cache.backend[k])
    && (forall k :: k in s'.neg.backend ==> k in s.neg.backend && s'.neg.backend[k] == s.neg.backend[k])
  }

  /** At most one request is new. */
  predicate Moves(s: State, s': State, next: Request) {
    s'.requests <= s.requests + multiset{next}
  }

  lemma MovedRequest(s: State, s': State, next: Request, x: Request)
    requires Moves(s, s', next) && x in s'.requests
    ensures x in s.requests || x == next
  {
    assert s'.requests[x] <= (s.requests + multiset{next})[x];
  }

  lemma MoveSound(cfg: Config, s: State, s': State, next: Request)
    requires Sound(cfg, s) && OnlyRequestsMove(s, s') && TtlsSound(s') && Moves(s, s', next)
    requires RequestSound(cfg, s, next)
    ensures Sound(cfg, s')
  {
    forall x | x in s'.requests ensures x in s.requests || x == next {
      MovedRequest(s, s', next, x);
    }
    assert RequestSound(cfg, s', next);
    SoundKept(cfg, s, s');
  }

  /** What a request turns into, if it is not over. */
  function NextOf(cfg: Config, s: State, r: Request): Request {
    var q, k := r.question, Lower(Key(cfg, r.question));
    match r
    case Loaded(_, _, _) => FoundExpired(q)
    case FoundExpired(_) => Missed(q)
    case Missed(_) => if k in s.neg.backend then NegLoaded(q, s.neg.backend[k]) else Missed(q)
    case NegLoaded(_, _) => FoundNegExpired(q)
    case FoundNegExpired(_) => Missed(q)
  }

  lemma CompareMoves(cfg: Config, s: State, r: Request, s': State)
    requires s' == Proceeded(cfg, s, r) && (r.Loaded? || r.NegLoaded?)
    ensures OnlyRequestsMove(s, s') && Moves(s, s', NextOf(cfg, s, r)) && s'.lookups == s.lookups
    ensures s'.cache == s.cache && s'.neg == s.neg
  {
  }

  lemma MissMoves(cfg: Config, s: State, r: Request, s': State)
    requires s' == Proceeded(cfg, s, r) && r.Missed?
    ensures OnlyRequestsMove(s, s') && Moves(s, s', NextOf(cfg, s, r))
    ensures s'.lookups == s.lookups || s'.lookups == s.lookups + multiset{r.question}
    ensures s'.cache == s.cache && s'.neg == s.neg
  {
  }

  lemma RemoveMoves(cfg: Config, s: State, r: Request, s': State)
    requires s' == Proceeded(cfg, s, r) && (r.FoundExpired? || r.FoundNegExpired?)
    ensures OnlyRequestsMove(s, s') && Moves(s, s', NextOf(cfg, s, r))
    ensures s'.lookups == s.lookups || s'.lookups == s.lookups + multiset{r.question}
  {
  }

  lemma ProceedMoves(cfg: Config, s: State, r: Request, s': State)
    requires s' == Proceeded(cfg, s, r)
    ensures OnlyRequestsMove(s, s') && Moves(s, s', NextOf(cfg, s, r))
    ensures s'.lookups == s.lookups || s'.lookups == s.lookups + multiset{r.question}
  {
    if r.Loaded? || r.NegLoaded? {
      CompareMoves(cfg, s, r, s');
    } else if r.Missed? {
      MissMoves(cfg, s, r, s');
    } else {
      RemoveMoves(cfg, s, r, s');
    }
  }

  lemma ProceedKeepsTtls(cfg: Config, s: State, r: Request, s': State)
    requires TtlsSound(s) && RequestSound(cfg, s, r) && s' == Proceeded(cfg, s, r)
    ensures TtlsSound(s')
  {
    if r.Loaded? && s.now <= r.entry.expiresAt {
      HitKeepsTtls(cfg, s, Key(cfg, r.question), r.entry, r.origin);
    }
  }

  lemma ProceedSound(cfg: Config, s: State, r: Request, s': State)
    requires Sound(cfg, s) && r in s.requests && s' == Proceeded(cfg, s, r)
    ensures Sound(cfg, s')
  {
    assert RequestSound(cfg, s, r) && NegSound(cfg, s, Lower(Key(cfg, r.question)));
    ProceedMoves(cfg, s, r, s');
    ProceedKeepsTtls(cfg, s, r, s');
    MoveSound(cfg, s, s', NextOf(cfg, s, r));
  }

  lemma AskMoves(cfg: Config, s: State, q: WireQuestion, s': State) returns (next: Request)
    requires cfg.Valid() && (forall k :: EntrySound(cfg, s, k)) && s' == Began(cfg, s, q)
    ensures OnlyRequestsMove(s, s') && s'.headers == s.headers
    ensures s'.requests == s.requests || (Clean(cfg, q) && Moves(s, s', next) && next.question == q && RequestSound(cfg, s, next))
    ensures s'.lookups == s.lookups || (Clean(cfg, q) && s'.lookups == s.lookups + multiset{q})
  {
    var k := Key(cfg, q);
    assert Lower(k) == k && EntrySound(cfg, s, k);
    next := if k in s.cache.backend then Loaded(q, s.cache.backend[k], s.source[k]) else Missed(q);
  }

  lemma AskSound(cfg: Config, s: State, q: WireQuestion, s': State)
    requires cfg.Valid() && Sound(cfg, s) && s' == Began(cfg, s, q)
    ensures Sound(cfg, s')
  {
    var next := AskMoves(cfg, s, q, s');
    if s'.requests == s.requests {
      SoundKept(cfg, s, s');
    } else {
      MoveSound(cfg, s, s', next);
    }
  }

  lemma FailSound(cfg: Config, s: State, q: WireQuestion, s': State)
    requires cfg.Valid() && Sound(cfg, s) && s' == Failed(cfg, s, q)
    ensures Sound(cfg, s')
  {
    assert q in s'.failures;
    forall k | k in s'.neg.backend ensures SameNegEntry(s, s', k) || NegSound(cfg, s', k) {
      assert NegSound(cfg, s, k);
    }
    SoundKept(cfg, s, s');
  }

  lemma AnswerSound(cfg: Config, s: State, q: WireQuestion, rrs: seq<CF.RR>, s': State)
    requires Sound(cfg, s) && s' == Answered(s, q, rrs)
    ensures Sound(cfg, s')
  {
    var ids := NewIds(s, |rrs|);
    AnswerChanges(s, q, rrs, s');
    NewRecordsSound(s, rrs, s');
    AnswerAdded(cfg, s, s', Upstream(q, ids), Pending(|s.answers|, ids));
  }

  lemma NewRecordsSound(s: State, rrs: seq<CF.RR>, s': State)
    requires TtlsSound(s) && s'.records == s.records + rrs && s'.headers == s.headers + Ttls(rrs)
    ensures TtlsSound(s') && Known(s', NewIds(s, |rrs|))
  {
  }

  lemma AnswerAdded(cfg: Config, s: State, s': State, answer: Upstream, p: Pending)
    requires Sound(cfg, s) && s.records <= s'.records && TtlsSound(s') && Known(s', answer.rrs)
    requires s'.answers == s.answers + [answer] && p == Pending(|s.answers|, answer.rrs)
    requires s' == s.(records := s'.records, headers := s'.headers, answers := s'.answers, lookups := s'.lookups, pending := s'.pending)
    requires s'.pending == s.pending || (IsIPQuery(answer.question) > 0 && answer.rrs != [] && s'.pending == s.pending + multiset{p})
    ensures Sound(cfg, s')
  {
    assert s'.answers[|s.answers|] == answer;
    forall x | x in s'.pending ensures x in s.pending || PendingSound(s', x) {
      assert x != p ==> s'.pending[x] == s.pending[x];
    }
    SoundKept(cfg, s, s');
  }

  lemma AppendSound(cfg: Config, s: State, p: Pending, id: nat, s': State)
    requires Sound(cfg, s) && p in s.pending && id < |s.records| && s' == Appended(s, p, id)
    ensures Sound(cfg, s')
  {
    assert PendingSound(s, p);
    var longer := p.(rrs := p.rrs + [id]);
    forall x | x in s'.pending ensures x in s.pending || x == longer {
      assert x != longer ==> s'.pending[x] <= s.pending[x];
    }
    SoundKept(cfg, s, s');
  }

  /** The entry that an insert makes dies within the upstream TTL of each of its records. */
  lemma NewEntrySound(cfg: Config, s: State, p: Pending)
    requires TtlsSound(s) && PendingSound(s, p)
    ensures MadeFrom(cfg, s, Key(cfg, s.answers[p.answer].question), NewEntry(s, p), p.answer, s.now)
  {
    var m := L.MinTtl(s.headers, p.rrs);
    L.MinTtlIsLeast(s.headers, p.rrs);
    L.ExpiryExact(s.now, m);
    forall r | r in p.rrs ensures s.now + m * L.SECOND <= s.now + s.records[r].ttl * L.SECOND {
      assert m <= s.headers[r] <= s.records[r].ttl;
    }
  }

  lemma InsertSound(cfg: Config, s: State, p: Pending, s': State)
    requires Sound(cfg, s) && p in s.pending && p.answer < |s.answers| && s' == Prepared(cfg, s, p)
    ensures Sound(cfg, s')
  {
    assert PendingSound(s, p);
    var w := Store(p.answer, NewEntry(s, p), s.now);
    assert StoreSound(cfg, s, w) by {
      NewEntrySound(cfg, s, p);
    }
    StoreAdded(cfg, s, s', w);
  }

  lemma StoreAdded(cfg: Config, s: State, s': State, w: Store)
    requires Sound(cfg, s) && StoreSound(cfg, s, w)
    requires s' == s.(pending := s'.pending, stores := s'.stores) && s'.pending <= s.pending
    requires s'.stores == s.stores || s'.stores == s.stores + multiset{w}
    ensures Sound(cfg, s')
  {
    forall p | p in s'.pending ensures p in s.pending {
      assert s'.pending[p] <= s.pending[p];
    }
    forall x | x in s'.stores ensures x in s.stores || x == w {
      assert x != w ==> s'.stores[x] == s.stores[x];
    }
    assert StoreSound(cfg, s', w);
    SoundKept(cfg, s, s');
  }

  lemma SwapSound(cfg: Config, s: State, w: Store, s': State)
    requires cfg.Valid() && Sound(cfg, s) && w in s.stores && w.answer < |s.answers| && s' == Swapped(cfg, s, w)
    ensures Sound(cfg, s')
  {
    assert StoreSound(cfg, s, w);
    var key := Key(cfg, s.answers[w.answer].question);
    MadeFromLater(cfg, s, s', key, w.entry, w.answer, w.at);
    forall k | k in s'.cache.backend ensures SameEntry(s, s', k) || EntrySound(cfg, s', k) {
      assert EntrySound(cfg, s, k);
    }
    SoundKept(cfg, s, s');
  }

  lemma RecordSound(cfg: Config, s: State, rr: CF.RR, s': State)
    requires Sound(cfg, s) && s' == WithRecords(s, [rr])
    ensures Sound(cfg, s')
  {
    SoundKept(cfg, s, s');
  }

  lemma AdvanceSound(cfg: Config, s: State, elapsed: nat, s': State)
    requires Sound(cfg, s) && s' == s.(now := s.now + elapsed)
    ensures Sound(cfg, s')
  {
    SoundKept(cfg, s, s');
  }

  lemma StepSound(cfg: Config, sequential: bool, s: State, a: Action, s': State)
    requires cfg.Valid() && Sound(cfg, s) && Step(cfg, sequential, s, a) == Some(s')
    ensures Sound(cfg, s')
  {
    if a.Ask? {
      AskSound(cfg, s, a.question, s');
    } else if a.Proceed? {
      ProceedSound(cfg, s, a.request, s');
    } else if a.Insert? {
      InsertSound(cfg, s, a.insert, s');
    } else if a.Swap? {
      SwapSound(cfg, s, a.store, s');
    } else if a.LookupFails? {
      FailSound(cfg, s, a.question, s');
    } else if a.LookupAnswers? {
      AnswerSound(cfg, s, a.question, a.rrs, s');
    } else {
      OtherStepSound(cfg, sequential, s, a, s');
    }
  }

  lemma OtherStepSound(cfg: Config, sequential: bool, s: State, a: Action, s': State)
    requires Sound(cfg, s) && Step(cfg, sequential, s, a) == Some(s') && (a.Advance? || a.MakeRecord? || a.Append?)
    ensures Sound(cfg, s')
  {
    if a.Advance? {
      AdvanceSound(cfg, s, a.elapsed, s');
    } else if a.MakeRecord? {
      RecordSound(cfg, s, a.rr, s');
    } else {
      AppendSound(cfg, s, a.insert, a.id, s');
    }
  }

  // -------- runs under changing configurations --------

  /** Configurations that differ in custom records, block list, switches and sizes only. */
  ghost predicate SameKeys(cfg: Config, cfg': Config) {
    cfg'.mnemonics == cfg.mnemonics && cfg'.keyGen == cfg.keyGen
  }

  /** A run in which every step may find another configuration in force. */
  ghost function ExecUnder(cfgs: seq<Config>, start: int, run: seq<Action>): Option<State>
    requires |cfgs| == |run|
  {
    if run == [] then Some(Init(start))
    else
      var n := |run| - 1;
      match ExecUnder(cfgs[..n], start, run[..n])
      case None => None
      case Some(s) => Step(cfgs[n], false, s, run[n])
  }

  lemma SoundUnderSameKeys(cfg: Config, cfg': Config, s: State)
    requires SameKeys(cfg, cfg') && Sound(cfg, s)
    ensures Sound(cfg', s)
  {
    assert forall q :: Key(cfg', q) == Key(cfg, q);
    forall w | w in s.stores ensures StoreSound(cfg', s, w) {
      assert StoreSound(cfg, s, w);
    }
    forall r | r in s.requests ensures RequestSound(cfg', s, r) {
      assert RequestSound(cfg, s, r);
    }
    forall k ensures EntrySound(cfg', s, k) && NegSound(cfg', s, k) {
      assert EntrySound(cfg, s, k) && NegSound(cfg, s, k);
    }
  }

  lemma {:induction false} ReloadedRunsSound(cfg: Config, cfgs: seq<Config>, start: int, run: seq<Action>)
    requires cfg.Valid() && |cfgs| == |run| && (forall i :: 0 <= i < |cfgs| ==> SameKeys(cfg, cfgs[i]))
    requires ExecUnder(cfgs, start, run).Some?
    ensures Sound(cfg, ExecUnder(cfgs, start, run).value)
  {
    if run != [] {
      var n := |run| - 1;
      ReloadedRunsSound(cfg, cfgs[..n], start, run[..n]);
      var s := ExecUnder(cfgs[..n], start, run[..n]).value;
      var s' := ExecUnder(cfgs, start, run).value;
      SoundUnderSameKeys(cfg, cfgs[n], s);
      StepSound(cfgs[n], false, s, run[n], s');
      SoundUnderSameKeys(cfgs[n], cfg, s');
    }
  }

  /** A run under one configuration is such a run. */
  lemma {:induction false} FixedConfiguration(cfg: Config, cfgs: seq<Config>, start: int, run: seq<Action>)
    requires |cfgs| == |run| && (forall i :: 0 <= i < |cfgs| ==> cfgs[i] == cfg)
    ensures ExecUnder(cfgs, start, run) == Exec(cfg, false, start, run)
  {
    if run != [] {
      var n := |run| - 1;
      FixedConfiguration(cfg, cfgs[..n], start, run[..n]);
    }
  }

  // -------- provenance --------

  /**
   What a positive-cache reply is: it starts with the records, at least one, of an earlier upstream answer to the same
   name, type and class, which was inserted no longer ago than any of its upstream TTLs allows, and no
   record of the reply shows more than its upstream TTL.
   */
  ghost predicate HasProvenance(s: State, s': State, q: WireQuestion, ids: seq<nat>, i: nat) {
    && i < |s.inserts| && s.inserts[i].answer < |s.answers|
    && var answer := s.answers[s.inserts[i].answer];
    && SameQuestion(answer.question, q)
    && answer.rrs != [] && answer.rrs <= ids && Known(s, ids)
    && s.inserts[i].at <= s.now
    && (forall r :: r in answer.rrs ==> r < |s.records| && s.now - s.inserts[i].at <= s.records[r].ttl * L.SECOND)
    && s'.records == s.records && |s'.headers| == |s.records|
    && (forall r :: r in ids ==> s'.headers[r] <= s.records[r].ttl)
  }

  lemma HitHasProvenance(cfg: Config, s: State, q: WireQuestion, e: L.LEntry, i: nat, s': State)
    requires cfg.Valid() && TtlsSound(s) && MadeBy(cfg, s, Key(cfg, q), e, i) && s.now <= e.expiresAt
    requires s'.records == s.records && s'.headers == L.Rewritten(s.headers, e.rrs, L.NewTtl(e, s.now))
    ensures HasProvenance(s, s', q, e.rrs, i)
  {
    var answer := s.answers[s.inserts[i].answer];
    KeyInjective(cfg, answer.question, q);
    HitKeepsTtls(cfg, s, Key(cfg, q), e, i);
    forall r | r in answer.rrs ensures r in e.rrs {
      var j :| 0 <= j < |answer.rrs| && answer.rrs[j] == r;
      assert e.rrs[j] == r;
    }
  }

  /**
   Every positive-cache reply has a provenance, in every run, through any number of reloads of custom
   records and block lists, and however long ago the request loaded the entry it replies with.
   */
  lemma CachedRepliesHaveProvenance(cfg: Config, cfgs: seq<Config>, start: int, run: seq<Action>, s: State, r: Request)
    requires cfg.Valid() && |cfgs| == |run| && (forall i :: 0 <= i < |cfgs| ==> SameKeys(cfg, cfgs[i]))
    requires ExecUnder(cfgs, start, run) == Some(s)
    requires r in s.requests && r.Loaded? && s.now <= r.entry.expiresAt
    ensures HasProvenance(s, Proceeded(cfg, s, r), r.question, r.entry.rrs, r.origin)
  {
    ReloadedRunsSound(cfg, cfgs, start, run);
    assert RequestSound(cfg, s, r);
    HitHasProvenance(cfg, s, r.question, r.entry, r.origin, Proceeded(cfg, s, r));
  }

  /** And so has one given to a request that nothing interrupts. */
  lemma PromptRepliesHaveProvenance(cfg: Config, cfgs: seq<Config>, start: int, run: seq<Action>, s: State, q: WireQuestion)
    requires cfg.Valid() && |cfgs| == |run| && (forall i :: 0 <= i < |cfgs| ==> SameKeys(cfg, cfgs[i]))
    requires ExecUnder(cfgs, start, run) == Some(s) && Asked(cfg, s, q).1.CachedReply?
    ensures exists i :: HasProvenance(s, Asked(cfg, s, q).0, q, Asked(cfg, s, q).1.ids, i)
  {
    ReloadedRunsSound(cfg, cfgs, start, run);
    var k := Key(cfg, q);
    assert Lower(k) == k && EntrySound(cfg, s, k);
    HitHasProvenance(cfg, s, q, s.cache.backend[k], s.source[k], Asked(cfg, s, q).0);
  }

  // -------- blocked and custom names are never cached --------

  ghost predicate QuestionsClean(cfg: Config, s: State) {
    && (forall q :: q in s.lookups ==> Clean(cfg, q))
    && (forall r :: r in s.requests ==> Clean(cfg, r.question))
    && (forall i :: 0 <= i < |s.answers| ==> Clean(cfg, s.answers[i].question))
    && (forall q :: q in s.failures ==> Clean(cfg, q))
  }

  /** At most one request and one lookup are new, and they are clean. */
  lemma MoveClean(cfg: Config, s: State, s': State, next: Request)
    requires QuestionsClean(cfg, s) && s'.answers == s.answers && s'.failures == s.failures
    requires s'.requests == s.requests || (Moves(s, s', next) && Clean(cfg, next.question))
    requires s'.lookups == s.lookups || (s'.lookups == s.lookups + multiset{next.question} && Clean(cfg, next.question))
    ensures QuestionsClean(cfg, s')
  {
    forall x | x in s'.requests ensures Clean(cfg, x.question) {
      if s'.requests != s.requests {
        MovedRequest(s, s', next, x);
      }
    }
    forall q | q in s'.lookups ensures Clean(cfg, q) {
      assert q != next.question ==> s'.lookups[q] == s.lookups[q];
    }
  }

  lemma ProceedClean(cfg: Config, s: State, r: Request, s': State)
    requires QuestionsClean(cfg, s) && r in s.requests && s' == Proceeded(cfg, s, r)
    ensures QuestionsClean(cfg, s')
  {
    ProceedMoves(cfg, s, r, s');
    MoveClean(cfg, s, s', NextOf(cfg, s, r));
  }

  lemma AskClean(cfg: Config, s: State, q: WireQuestion, s': State)
    requires cfg.Valid() && Sound(cfg, s) && QuestionsClean(cfg, s) && s' == Began(cfg, s, q)
    ensures QuestionsClean(cfg, s')
  {
    var next := AskMoves(cfg, s, q, s');
    MoveClean(cfg, s, s', if s'.requests == s.requests then Missed(q) else next);
  }

  lemma EndClean(cfg: Config, s: State, q: WireQuestion, s': State)
    requires QuestionsClean(cfg, s) && q in s.lookups && s'.lookups == s.lookups - multiset{q} && s'.requests == s.requests
    requires forall i :: 0 <= i < |s'.answers| ==> (i < |s.answers| && s'.answers[i] == s.answers[i]) || s'.answers[i].question == q
    requires forall p :: p in s'.failures ==> p in s.failures || p == q
    ensures QuestionsClean(cfg, s')
  {
    forall p | p in s'.lookups ensures Clean(cfg, p) {
      assert s'.lookups[p] <= s.lookups[p];
    }
  }

  lemma StepClean(cfg: Config, s: State, a: Action, s': State)
    requires cfg.Valid() && Sound(cfg, s) && QuestionsClean(cfg, s) && Step(cfg, false, s, a) == Some(s')
    ensures QuestionsClean(cfg, s')
  {
    if a.Ask? {
      AskClean(cfg, s, a.question, s');
    } else if a.Proceed? {
      ProceedClean(cfg, s, a.request, s');
    } else if a.LookupFails? {
      EndClean(cfg, s, a.question, s');
    } else if a.LookupAnswers? {
      AnswerClean(cfg, s, a.question, a.rrs, s');
    } else {
      OthersAskNothing(cfg, s, a, s');
    }
  }

  lemma AnswerClean(cfg: Config, s: State, q: WireQuestion, rrs: seq<CF.RR>, s': State)
    requires QuestionsClean(cfg, s) && q in s.lookups && s' == Answered(s, q, rrs)
    ensures QuestionsClean(cfg, s')
  {
    AnswerChanges(s, q, rrs, s');
    EndClean(cfg, s, q, s');
  }

  lemma AnswerChanges(s: State, q: WireQuestion, rrs: seq<CF.RR>, s': State)
    requires s' == Answered(s, q, rrs)
    ensures s'.lookups == s.lookups - multiset{q} && s'.requests == s.requests && s'.failures == s.failures
    ensures s'.answers == s.answers + [Upstream(q, NewIds(s, |rrs|))]
    ensures s'.cache == s.cache && s'.neg == s.neg && s'.now == s.now
    ensures s'.records == s.records + rrs && s'.headers == s.headers + Ttls(rrs)
  {
  }

  lemma OthersAskNothing(cfg: Config, s: State, a: Action, s': State)
    requires Step(cfg, false, s, a) == Some(s') && !a.Ask? && !a.Proceed? && !a.LookupFails? && !a.LookupAnswers?
    ensures s'.lookups == s.lookups && s'.requests == s.requests && s'.answers == s.answers && s'.failures == s.failures
    ensures s'.neg == s.neg && (a.Advance? || s'.now == s.now)
  {
  }

  ghost predicate Invariant(cfg: Config, s: State) {
    Sound(cfg, s) && QuestionsClean(cfg, s)
  }

  lemma {:induction false} RunKeepsInvariant(cfg: Config, start: int, run: seq<Action>)
    requires cfg.Valid() && Exec(cfg, false, start, run).Some?
    ensures Invariant(cfg, Exec(cfg, false, start, run).value)
  {
    if run != [] {
      var init := run[..|run| - 1];
      RunKeepsInvariant(cfg, start, init);
      var s := Exec(cfg, false, start, init).value;
      var s' := Exec(cfg, false, start, run).value;
      StepSound(cfg, false, s, run[|run| - 1], s');
      StepClean(cfg, s, run[|run| - 1], s');
    }
  }

  /** In no run does either cache hold an entry for an address question whose name is blocked or custom. */
  lemma BlockedAndCustomNeverCached(cfg: Config, start: int, run: seq<Action>, s: State, q: WireQuestion)
    requires cfg.Valid() && Exec(cfg, false, start, run) == Some(s)
    requires IsIPQuery(q) > 0 && (IsCustom(cfg, q) || IsBlocked(cfg, q))
    ensures Key(cfg, q) !in s.cache.backend && Key(cfg, q) !in s.neg.backend
  {
    RunKeepsInvariant(cfg, start, run);
    var k := Key(cfg, q);
    assert EntrySound(cfg, s, k) && NegSound(cfg, s, k);
    if k in s.cache.backend {
      var p := s.answers[s.inserts[s.source[k]].answer].question;
      KeyInjective(cfg, q, p);
      SameQuestionSameSources(cfg, p, q);
    }
    if k in s.neg.backend {
      var p :| p in s.failures && Key(cfg, p) == k;
      KeyInjective(cfg, q, p);
      SameQuestionSameSources(cfg, p, q);
    }
  }
}
