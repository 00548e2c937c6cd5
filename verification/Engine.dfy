/**
 The request engine (`handler.go`, `responseFor`): custom records, block list, positive cache, negative
 cache and upstream, over whole runs. Any number of requests are under way at once, and each goes through
 the caches step by step: it loads an entry, compares it with the clock, removes the key if the entry it
 loaded has expired, and only then goes on. The upstream lookup fails or answers at a later step. A
 successful answer to an address question is put into the cache at a later step still, by which time CNAME
 following may have appended records to it; the insert reads the clock in one step and stores in another.
 Records are numbered objects, shared by every reply and entry they stand in; `headers` holds their
 current TTLs, which cache hits rewrite, and `records` their content and upstream TTL. `answers`,
 `failures`, `inserts`, `source` and the origin of a loaded entry record the history and influence nothing.
 */
module Engine {
  import opened Text
  import opened Questions
  import opened CnameFollowing
  import B = BlockList
  import L = Lcache

  datatype Config = Config(
    mnemonics: Mnemonics,
    keyGen: string -> string,                    // the hash of a printed question
    custom: (string, nat) -> Option<seq<RR>>,    // custom records by name, final dot aside, and type
    lib: B.RegexLibrary,
    blocklist: B.Table,
    active: bool,                                // whether blocking is switched on
    nxdomain: bool,
    nullroute: string,
    nullroutev6: string,
    ttl: L.uint32,
    maxcount: int)
  {
    /** Hashes are lower-case and do not collide. */
    ghost predicate Valid() {
      && mnemonics.Standard()
      && (forall a, b :: keyGen(a) == keyGen(b) ==> a == b)
      && (forall a :: Lower(keyGen(a)) == keyGen(a))
    }
  }

  function Key(cfg: Config, q: WireQuestion): string {
    cfg.keyGen(Printed(Named(cfg.mnemonics, q)))
  }

  predicate IsCustom(cfg: Config, q: WireQuestion) {
    cfg.custom(UnFqdn(q.name), q.qtype).Some?
  }

  ghost predicate IsBlocked(cfg: Config, q: WireQuestion) {
    IsIPQuery(q) > 0 && cfg.active && B.Blocks(cfg.lib, cfg.blocklist, UnFqdn(q.name))
  }

  /** Neither custom nor blocked. */
  ghost predicate Clean(cfg: Config, q: WireQuestion) {
    !IsCustom(cfg, q) && !IsBlocked(cfg, q)
  }

  /** The answer section for a blocked question. */
  function BlockedAnswer(cfg: Config, q: WireQuestion): seq<RR> {
    if cfg.nxdomain then []
    else if IsIPQuery(q) == 4 then [RR(q.name, A, cfg.ttl, cfg.nullroute)]
    else if IsIPQuery(q) == 6 then [RR(q.name, AAAA, cfg.ttl, cfg.nullroutev6)]
    else []
  }

  // -------- states and steps --------

  datatype Upstream = Upstream(question: WireQuestion, rrs: seq<nat>)

  /** A cache insert not yet run: the answer it came from, and the records of the reply so far. */
  datatype Pending = Pending(answer: nat, rrs: seq<nat>)

  /** An insert that has passed the capacity guard and read the clock, its entry not yet stored. */
  datatype Store = Store(answer: nat, entry: L.LEntry, at: int)

  datatype Insertion = Insertion(answer: nat, rrs: seq<nat>, at: int)

  /** How far a request has come. */
  datatype Request =
    | Loaded(question: WireQuestion, entry: L.LEntry, origin: nat)  // an entry of the cache, not yet compared with the clock
    | FoundExpired(question: WireQuestion)                          // about to remove its key from the cache
    | Missed(question: WireQuestion)                                // about to ask the negative cache
    | NegLoaded(question: WireQuestion, entry: L.LEntry)
    | FoundNegExpired(question: WireQuestion)                       // about to remove its key from the negative cache

  datatype State = State(
    now: int,
    records: seq<RR>,
    headers: seq<L.uint32>,
    cache: L.Table,
    neg: L.Table,
    requests: multiset<Request>,
    lookups: multiset<WireQuestion>,
    pending: multiset<Pending>,
    stores: multiset<Store>,
    answers: seq<Upstream>,
    failures: seq<WireQuestion>,
    inserts: seq<Insertion>,
    source: map<string, nat>)    // for a cached key, the insertion that made its entry

  function Init(start: int): State {
    State(start, [], [], L.EMPTY, L.EMPTY, multiset{}, multiset{}, multiset{}, multiset{}, [], [], [], map[])
  }

  datatype Reply =
    | CustomReply(rrs: seq<RR>)
    | BlockedReply(rrs: seq<RR>)
    | CachedReply(ids: seq<nat>)
    | NegativeReply
    | GoesUpstream

  /** `responseFor` up to the upstream lookup, if nothing comes between its steps (see `AskedIsItsSteps`). */
  ghost function Asked(cfg: Config, s: State, q: WireQuestion): (State, Reply) {
    var custom := cfg.custom(UnFqdn(q.name), q.qtype);
    if custom.Some? then (s, CustomReply(custom.value))
    else if IsBlocked(cfg, q) then (s, BlockedReply(BlockedAnswer(cfg, q)))
    else if IsIPQuery(q) == 0 then (s.(lookups := s.lookups + multiset{q}), GoesUpstream)
    else
      var (cache, headers, r) := L.Got(s.cache, s.headers, Key(cfg, q), s.now);
      var s1 := s.(cache := cache, headers := headers);
      if r.Hit? then (s1, CachedReply(r.rrs))
      else
        var (neg, headers', n) := L.Got(s1.neg, s1.headers, Key(cfg, q), s.now);
        var s2 := s1.(neg := neg, headers := headers');
        if n.Hit? then (s2, NegativeReply)
        else (s2.(lookups := s2.lookups + multiset{q}), GoesUpstream)
  }

  datatype Action =
    | Advance(elapsed: nat)                          // time passes
    | Ask(question: WireQuestion)                    // a request or a CNAME follow-up arrives
    | Proceed(request: Request)                      // a request takes its next step through the caches
    | LookupFails(question: WireQuestion)
    | LookupAnswers(question: WireQuestion, rrs: seq<RR>)
    | MakeRecord(rr: RR)                             // a custom or null-route record enters some reply
    | Append(insert: Pending, id: nat)               // following appends a record to a reply awaiting its insert
    | Insert(insert: Pending)
    | Swap(store: Store)

  function NewIds(s: State, n: nat): (ids: seq<nat>)
    ensures |ids| == n && forall i :: 0 <= i < n ==> ids[i] == |s.records| + i
  {
    seq(n, i requires 0 <= i < n => |s.records| + i)
  }

  function Ttls(rrs: seq<RR>): (ttls: seq<L.uint32>)
    ensures |ttls| == |rrs| && forall i :: 0 <= i < |rrs| ==> ttls[i] == rrs[i].ttl
  {
    seq(|rrs|, i requires 0 <= i < |rrs| => rrs[i].ttl)
  }

  function WithRecords(s: State, rrs: seq<RR>): State {
    s.(records := s.records + rrs, headers := s.headers + Ttls(rrs))
  }

  function Failed(cfg: Config, s: State, q: WireQuestion): State {
    s.(lookups := s.lookups - multiset{q}, failures := s.failures + [q],
       neg := L.WasSet(cfg.maxcount, s.neg, s.headers, Key(cfg, q), Some([]), s.now))
  }

  function Logged(s: State, q: WireQuestion, ids: seq<nat>): State {
    s.(lookups := s.lookups - multiset{q}, answers := s.answers + [Upstream(q, ids)])
  }

  function Answered(s: State, q: WireQuestion, rrs: seq<RR>): State {
    var ids := NewIds(s, |rrs|);
    var s1 := Logged(WithRecords(s, rrs), q, ids);
    if IsIPQuery(q) > 0 && |rrs| > 0
    then s1.(pending := s1.pending + multiset{Pending(|s.answers|, ids)})
    else s1
  }

  function Appended(s: State, p: Pending, id: nat): State {
    s.(pending := s.pending - multiset{p} + multiset{p.(rrs := p.rrs + [id])})
  }

  /** The first half of an insert: the capacity guard, the clock and the smallest TTL. */
  function Prepared(cfg: Config, s: State, p: Pending): State
    requires p.answer < |s.answers|
  {
    var key := Key(cfg, s.answers[p.answer].question);
    var s1 := s.(pending := s.pending - multiset{p});
    if L.Accepts(cfg.maxcount, s.cache, key)
    then s1.(stores := s1.stores + multiset{Store(p.answer, NewEntry(s, p), s.now)})
    else s1
  }

  /** The entry that an insert makes: it dies when the smallest current TTL of its records runs out. */
  function NewEntry(s: State, p: Pending): L.LEntry {
    L.LEntry(p.rrs, L.ExpiresAt(s.now, L.MinTtl(s.headers, p.rrs)))
  }

  /** The second half: the entry takes the place of whatever the key held. */
  function Swapped(cfg: Config, s: State, w: Store): State
    requires w.answer < |s.answers|
  {
    var key := Key(cfg, s.answers[w.answer].question);
    s.(cache := L.Inserted(s.cache, Lower(key), w.entry), stores := s.stores - multiset{w},
       inserts := s.inserts + [Insertion(w.answer, w.entry.rrs, w.at)], source := s.source[key := |s.inserts|])
  }

  function WithRequest(s: State, r: Request): State {
    s.(requests := s.requests + multiset{r})
  }

  function WithLookup(s: State, q: WireQuestion): State {
    s.(lookups := s.lookups + multiset{q})
  }

  /** The first step of a request: it is answered locally, goes upstream, or loads from the cache. */
  ghost function Began(cfg: Config, s: State, q: WireQuestion): State {
    if !Clean(cfg, q) then s
    else if IsIPQuery(q) == 0 then WithLookup(s, q)
    else
      var k := Lower(Key(cfg, q));
      if k in s.cache.backend
      then WithRequest(s, Loaded(q, s.cache.backend[k], if k in s.source then s.source[k] else 0))
      else WithRequest(s, Missed(q))
  }

  /** The next step of a request: a removal deletes whatever the key holds by then. */
  function Proceeded(cfg: Config, s: State, r: Request): State {
    var s1 := s.(requests := s.requests - multiset{r});
    var k := Lower(Key(cfg, r.question));
    match r
    case Loaded(q, e, _) =>
      if s.now > e.expiresAt then WithRequest(s1, FoundExpired(q))
      else s1.(headers := L.Rewritten(s.headers, e.rrs, L.NewTtl(e, s.now)))
    case FoundExpired(q) => WithRequest(s1.(cache := L.Removed(s.cache, k)), Missed(q))
    case Missed(q) =>
      if k in s.neg.backend then WithRequest(s1, NegLoaded(q, s.neg.backend[k])) else WithLookup(s1, q)
    case NegLoaded(q, e) =>
      if s.now > e.expiresAt then WithRequest(s1, FoundNegExpired(q))
      else s1.(headers := L.Rewritten(s.headers, e.rrs, L.NewTtl(e, s.now)))
    case FoundNegExpired(q) => WithLookup(s1.(neg := L.Removed(s.neg, k)), q)
  }

  /** One step; in a sequential run a request waits until no other is under way. */
  ghost function Step(cfg: Config, sequential: bool, s: State, a: Action): Option<State> {
    match a
    case Advance(elapsed) => Some(s.(now := s.now + elapsed))
    case Ask(q) =>
      if sequential && (s.lookups != multiset{} || s.requests != multiset{}) then None else Some(Began(cfg, s, q))
    case Proceed(r) => if r in s.requests then Some(Proceeded(cfg, s, r)) else None
    case LookupFails(q) => if q in s.lookups then Some(Failed(cfg, s, q)) else None
    case LookupAnswers(q, rrs) => if q in s.lookups then Some(Answered(s, q, rrs)) else None
    case MakeRecord(rr) => Some(WithRecords(s, [rr]))
    case Append(p, id) => if p in s.pending && id < |s.records| then Some(Appended(s, p, id)) else None
    case Insert(p) =>
      if p in s.pending && p.answer < |s.answers| then Some(Prepared(cfg, s, p)) else None
    case Swap(w) =>
      if w in s.stores && w.answer < |s.answers| then Some(Swapped(cfg, s, w)) else None
  }

  /** What a run leads to from a given state. */
  ghost function ExecFrom(cfg: Config, sequential: bool, s: State, run: seq<Action>): Option<State> {
    if run == [] then Some(s)
    else match ExecFrom(cfg, sequential, s, run[..|run| - 1])
      case None => None
      case Some(s') => Step(cfg, sequential, s', run[|run| - 1])
  }

  ghost function Exec(cfg: Config, sequential: bool, start: int, run: seq<Action>): Option<State> {
    ExecFrom(cfg, sequential, Init(start), run)
  }

  // -------- uninterrupted requests and inserts --------

  lemma {:induction false} ExecConcat(cfg: Config, s: State, a: seq<Action>, m: State, b: seq<Action>)
    requires ExecFrom(cfg, false, s, a) == Some(m)
    ensures ExecFrom(cfg, false, s, a + b) == ExecFrom(cfg, false, m, b)
    decreases |b|
  {
    if b == [] {
      assert a + b == a;
    } else {
      assert (a + b)[..|a + b| - 1] == a + b[..|b| - 1];
      ExecConcat(cfg, s, a, m, b[..|b| - 1]);
    }
  }

  lemma OneStep(cfg: Config, s: State, a: Action)
    ensures ExecFrom(cfg, false, s, [a]) == Step(cfg, false, s, a)
  {
    assert [a][..0] == [];
  }

  /** The request takes a step, and then others. */
  lemma OneMoreStep(cfg: Config, s: State, a: Action, s': State, rest: seq<Action>)
    requires Step(cfg, false, s, a) == Some(s')
    ensures ExecFrom(cfg, false, s, [a] + rest) == ExecFrom(cfg, false, s', rest)
  {
    OneStep(cfg, s, a);
    ExecConcat(cfg, s, [a], s', rest);
  }

  lemma TwoSteps(cfg: Config, s: State, a: Action, s1: State, b: Action, s2: State)
    requires Step(cfg, false, s, a) == Some(s1) && Step(cfg, false, s1, b) == Some(s2)
    ensures ExecFrom(cfg, false, s, [a] + [b]) == Some(s2)
  {
    OneStep(cfg, s1, b);
    OneMoreStep(cfg, s, a, s1, [b]);
  }

  lemma AddedThenTaken(m: multiset<Request>, r: Request)
    ensures m + multiset{r} - multiset{r} == m
  {
  }

  /** The steps of one request. */
  predicate StepsOf(q: WireQuestion, steps: seq<Action>) {
    forall i :: 0 <= i < |steps| ==> steps[i].Proceed? && steps[i].request.question == q
  }

  /** What the negative cache and then upstream make of a question. */
  function NegAsked(cfg: Config, s: State, q: WireQuestion): State {
    var (neg, headers, n) := L.Got(s.neg, s.headers, Key(cfg, q), s.now);
    var s1 := s.(neg := neg, headers := headers);
    if n.Hit? then s1 else WithLookup(s1, q)
  }

  /** One step of a request that has just been put among the others. */
  lemma OnlyStep(cfg: Config, s: State, r: Request)
    ensures Step(cfg, false, WithRequest(s, r), Proceed(r)) == Some(Proceeded(cfg, WithRequest(s, r), r))
    ensures WithRequest(s, r).requests - multiset{r} == s.requests
  {
    AddedThenTaken(s.requests, r);
  }

  lemma MissedStep(cfg: Config, s: State, q: WireQuestion, s': State)
    requires var k := Lower(Key(cfg, q));
             s' == if k in s.neg.backend then WithRequest(s, NegLoaded(q, s.neg.backend[k])) else NegAsked(cfg, s, q)
    ensures Step(cfg, false, WithRequest(s, Missed(q)), Proceed(Missed(q))) == Some(s')
  {
    OnlyStep(cfg, s, Missed(q));
  }

  lemma NegLoadedStep(cfg: Config, s: State, q: WireQuestion, e: L.LEntry, s': State)
    requires Lower(Key(cfg, q)) in s.neg.backend && e == s.neg.backend[Lower(Key(cfg, q))]
    requires s' == if s.now > e.expiresAt then WithRequest(s, FoundNegExpired(q)) else NegAsked(cfg, s, q)
    ensures Step(cfg, false, WithRequest(s, NegLoaded(q, e)), Proceed(NegLoaded(q, e))) == Some(s')
  {
    OnlyStep(cfg, s, NegLoaded(q, e));
  }

  lemma NegRemovalStep(cfg: Config, s: State, q: WireQuestion)
    requires Lower(Key(cfg, q)) in s.neg.backend && s.now > s.neg.backend[Lower(Key(cfg, q))].expiresAt
    ensures Step(cfg, false, WithRequest(s, FoundNegExpired(q)), Proceed(FoundNegExpired(q))) == Some(NegAsked(cfg, s, q))
  {
    OnlyStep(cfg, s, FoundNegExpired(q));
  }

  lemma MissedSteps(cfg: Config, s: State, q: WireQuestion, s0: State, end: State) returns (steps: seq<Action>)
    requires s0 == WithRequest(s, Missed(q)) && end == NegAsked(cfg, s, q)
    ensures StepsOf(q, steps) && ExecFrom(cfg, false, s0, steps) == Some(end)
  {
    var k := Lower(Key(cfg, q));
    if k in s.neg.backend {
      var s1 := WithRequest(s, NegLoaded(q, s.neg.backend[k]));
      MissedStep(cfg, s, q, s1);
      var rest := NegLoadedSteps(cfg, s, q, s.neg.backend[k], s1, end);
      steps := [Proceed(Missed(q))] + rest;
      OneMoreStep(cfg, s0, Proceed(Missed(q)), s1, rest);
    } else {
      steps := [Proceed(Missed(q))];
      MissedStep(cfg, s, q, end);
      OneStep(cfg, s0, Proceed(Missed(q)));
    }
  }

  lemma NegLoadedSteps(cfg: Config, s: State, q: WireQuestion, e: L.LEntry, s0: State, end: State) returns (steps: seq<Action>)
    requires Lower(Key(cfg, q)) in s.neg.backend && e == s.neg.backend[Lower(Key(cfg, q))]
    requires s0 == WithRequest(s, NegLoaded(q, e)) && end == NegAsked(cfg, s, q)
    ensures StepsOf(q, steps) && ExecFrom(cfg, false, s0, steps) == Some(end)
  {
    if s.now > e.expiresAt {
      var s1 := WithRequest(s, FoundNegExpired(q));
      NegLoadedStep(cfg, s, q, e, s1);
      var rest := NegExpiredSteps(cfg, s, q, s1, end);
      steps := [Proceed(NegLoaded(q, e))] + rest;
      OneMoreStep(cfg, s0, Proceed(NegLoaded(q, e)), s1, rest);
    } else {
      steps := [Proceed(NegLoaded(q, e))];
      NegLoadedStep(cfg, s, q, e, end);
      OneStep(cfg, s0, Proceed(NegLoaded(q, e)));
    }
  }

  lemma NegExpiredSteps(cfg: Config, s: State, q: WireQuestion, s0: State, end: State) returns (steps: seq<Action>)
    requires Lower(Key(cfg, q)) in s.neg.backend && s.now > s.neg.backend[Lower(Key(cfg, q))].expiresAt
    requires s0 == WithRequest(s, FoundNegExpired(q)) && end == NegAsked(cfg, s, q)
    ensures StepsOf(q, steps) && ExecFrom(cfg, false, s0, steps) == Some(end)
  {
    NegRemovalStep(cfg, s, q);
    steps := [Proceed(FoundNegExpired(q))];
    OneStep(cfg, s0, Proceed(FoundNegExpired(q)));
  }

  lemma LoadedStep(cfg: Config, s: State, q: WireQuestion, r: Request, s': State)
    requires Clean(cfg, q) && IsIPQuery(q) > 0 && Lower(Key(cfg, q)) in s.cache.backend
    requires r.Loaded? && r.question == q && r.entry == s.cache.backend[Lower(Key(cfg, q))]
    requires s' == if s.now > r.entry.expiresAt then WithRequest(s, FoundExpired(q)) else Asked(cfg, s, q).0
    ensures Step(cfg, false, WithRequest(s, r), Proceed(r)) == Some(s')
  {
    OnlyStep(cfg, s, r);
  }

  /** The state once the expired entry of the question is gone. */
  function WithoutEntry(cfg: Config, s: State, q: WireQuestion): State {
    s.(cache := L.Removed(s.cache, Lower(Key(cfg, q))))
  }

  lemma RemovalStep(cfg: Config, s: State, q: WireQuestion)
    ensures Step(cfg, false, WithRequest(s, FoundExpired(q)), Proceed(FoundExpired(q)))
            == Some(WithRequest(WithoutEntry(cfg, s, q), Missed(q)))
  {
    OnlyStep(cfg, s, FoundExpired(q));
  }

  lemma MissIsNegAsked(cfg: Config, s: State, q: WireQuestion)
    requires Clean(cfg, q) && IsIPQuery(q) > 0 && !Live(s.cache, Lower(Key(cfg, q)), s.now)
    ensures Asked(cfg, s, q).0 == NegAsked(cfg, WithoutEntry(cfg, s, q), q)
  {
  }

  lemma LoadedSteps(cfg: Config, s: State, q: WireQuestion, r: Request, s0: State, end: State) returns (steps: seq<Action>)
    requires Clean(cfg, q) && IsIPQuery(q) > 0 && Lower(Key(cfg, q)) in s.cache.backend
    requires r.Loaded? && r.question == q && r.entry == s.cache.backend[Lower(Key(cfg, q))]
    requires s0 == WithRequest(s, r) && end == Asked(cfg, s, q).0
    ensures StepsOf(q, steps) && ExecFrom(cfg, false, s0, steps) == Some(end)
  {
    if s.now > r.entry.expiresAt {
      var s1 := WithRequest(s, FoundExpired(q));
      LoadedStep(cfg, s, q, r, s1);
      var rest := ExpiredSteps(cfg, s, q, s1, end);
      steps := [Proceed(r)] + rest;
      OneMoreStep(cfg, s0, Proceed(r), s1, rest);
    } else {
      steps := [Proceed(r)];
      LoadedStep(cfg, s, q, r, end);
      OneStep(cfg, s0, Proceed(r));
    }
  }

  lemma ExpiredSteps(cfg: Config, s: State, q: WireQuestion, s0: State, end: State) returns (steps: seq<Action>)
    requires Clean(cfg, q) && IsIPQuery(q) > 0 && !Live(s.cache, Lower(Key(cfg, q)), s.now)
    requires s0 == WithRequest(s, FoundExpired(q)) && end == Asked(cfg, s, q).0
    ensures StepsOf(q, steps) && ExecFrom(cfg, false, s0, steps) == Some(end)
  {
    var s1 := WithoutEntry(cfg, s, q);
    MissIsNegAsked(cfg, s, q);
    RemovalStep(cfg, s, q);
    var rest := MissedSteps(cfg, s1, q, WithRequest(s1, Missed(q)), end);
    steps := [Proceed(FoundExpired(q))] + rest;
    OneMoreStep(cfg, s0, Proceed(FoundExpired(q)), WithRequest(s1, Missed(q)), rest);
  }

  /** `Asked` is what the steps of a request come to when nothing comes between them. */
  lemma AskedIsItsSteps(cfg: Config, s: State, q: WireQuestion) returns (steps: seq<Action>)
    ensures StepsOf(q, steps) && ExecFrom(cfg, false, s, [Ask(q)] + steps) == Some(Asked(cfg, s, q).0)
  {
    var s0, end := Began(cfg, s, q), Asked(cfg, s, q).0;
    steps := [];
    if Clean(cfg, q) && IsIPQuery(q) > 0 {
      var k := Lower(Key(cfg, q));
      if k in s.cache.backend {
        var r := Loaded(q, s.cache.backend[k], if k in s.source then s.source[k] else 0);
        steps := LoadedSteps(cfg, s, q, r, s0, end);
      } else {
        MissIsNegAsked(cfg, s, q);
        assert WithoutEntry(cfg, s, q) == s;
        steps := MissedSteps(cfg, s, q, s0, end);
      }
    }
    OneMoreStep(cfg, s, Ask(q), s0, steps);
  }

  /** An insert whose two halves come one after the other is one `Set`. */
  lemma InsertIsOneSet(cfg: Config, s: State, p: Pending)
    requires cfg.Valid() && p.answer < |s.answers|
    ensures var key := Key(cfg, s.answers[p.answer].question);
            var w := Store(p.answer, NewEntry(s, p), s.now);
            L.WasSet(cfg.maxcount, s.cache, s.headers, key, Some(p.rrs), s.now)
            == if L.Accepts(cfg.maxcount, s.cache, key) then Swapped(cfg, Prepared(cfg, s, p), w).cache else s.cache
  {
  }

  /** A record that following appends before the insert is cached with the rest, and the entry does not outlive it. */
  lemma AppendedRecordIsCached(cfg: Config, s: State, p: Pending, id: nat)
    requires p in s.pending && p.answer < |s.answers| && id < |s.records| && |s.headers| == |s.records|
    requires forall r :: r in p.rrs ==> r < |s.headers|
    ensures Step(cfg, false, s, Append(p, id)).Some?
    ensures var s1 := Step(cfg, false, s, Append(p, id)).value;
            var longer := Pending(p.answer, p.rrs + [id]);
            && s1.pending == s.pending - multiset{p} + multiset{longer}
            && Step(cfg, false, s1, Insert(longer)).Some?
            && NewEntry(s1, longer).rrs == p.rrs + [id]
            && NewEntry(s1, longer).expiresAt <= s.now + s.headers[id] * L.SECOND
  {
    var longer := Pending(p.answer, p.rrs + [id]);
    var m := L.MinTtl(s.headers, longer.rrs);
    L.MinTtlIsLeast(s.headers, longer.rrs);
    L.ExpiryExact(s.now, m);
    assert id in longer.rrs && m <= s.headers[id];
  }

  // -------- which source answers --------

  /** Keys identify address questions. */
  lemma KeyInjective(cfg: Config, p: WireQuestion, q: WireQuestion)
    requires cfg.Valid() && IsIPQuery(p) > 0
    ensures Key(cfg, p) == Key(cfg, q) <==> SameQuestion(p, q)
  {
    SameKeySameQuestion(cfg.mnemonics, p, q);
  }

  /** The table holds an entry for the key that has not expired. */
  predicate Live(t: L.Table, key: string, now: int) {
    key in t.backend && now <= t.backend[key].expiresAt
  }

  /** Which source answers: custom records, then the block list, then a live entry of either cache, else upstream. */
  lemma AskedDecides(cfg: Config, s: State, q: WireQuestion)
    requires cfg.Valid()
    ensures var reply, key, ip := Asked(cfg, s, q).1, Key(cfg, q), IsIPQuery(q) > 0;
            && (reply.CustomReply? <==> IsCustom(cfg, q))
            && (reply.BlockedReply? <==> !IsCustom(cfg, q) && IsBlocked(cfg, q))
            && (reply.CachedReply? <==> Clean(cfg, q) && ip && Live(s.cache, key, s.now))
            && (reply.NegativeReply? <==> Clean(cfg, q) && ip && !Live(s.cache, key, s.now) && Live(s.neg, key, s.now))
            && (reply.GoesUpstream? <==>
                Clean(cfg, q) && (ip ==> !Live(s.cache, key, s.now) && !Live(s.neg, key, s.now)))
  {
  }

  /**
   What blocking means, spelled out: a question is answered by the block list exactly when it has no custom
   records, is an A or AAAA question (types 1 and 28) of class IN (1), blocking is switched on and the list
   blocks its name without the final dot. The answer is empty in NXDOMAIN mode, and otherwise one record of
   the question's own name and type, with the configured TTL and the null route for that type.
   */
  lemma BlockedQuestionsGetTheNullRoute(cfg: Config, s: State, q: WireQuestion)
    ensures Asked(cfg, s, q).1.BlockedReply? <==>
              && cfg.custom(UnFqdn(q.name), q.qtype).None? && q.qclass == 1 && (q.qtype == 1 || q.qtype == 28)
              && cfg.active && B.Blocks(cfg.lib, cfg.blocklist, UnFqdn(q.name))
    ensures Asked(cfg, s, q).1.BlockedReply? ==>
              && Asked(cfg, s, q).0 == s
              && Asked(cfg, s, q).1.rrs ==
                 if cfg.nxdomain then []
                 else if q.qtype == 1 then [RR(q.name, A, cfg.ttl, cfg.nullroute)]
                 else [RR(q.name, AAAA, cfg.ttl, cfg.nullroutev6)]
  {
  }

  /** A live entry is what the question is answered with. */
  lemma LiveEntryIsServed(cfg: Config, s: State, q: WireQuestion)
    requires cfg.Valid() && Clean(cfg, q) && IsIPQuery(q) > 0 && Live(s.cache, Key(cfg, q), s.now)
    ensures Asked(cfg, s, q).1 == CachedReply(s.cache.backend[Key(cfg, q)].rrs)
  {
  }

  /** The clock and what the two caches hold for the question are the same. */
  predicate SameEntries(cfg: Config, s: State, s': State, q: WireQuestion) {
    var key := Key(cfg, q);
    && s'.now == s.now
    && (Live(s.cache, key, s.now) <==> Live(s'.cache, key, s.now))
    && (Live(s.cache, key, s.now) ==> s'.cache.backend[key] == s.cache.backend[key])
    && (Live(s.neg, key, s.now) <==> Live(s'.neg, key, s.now))
  }

  lemma SameEntriesSameReply(cfg: Config, s: State, s': State, q: WireQuestion)
    requires cfg.Valid() && (IsIPQuery(q) > 0 ==> SameEntries(cfg, s, s', q))
    ensures Asked(cfg, s', q).1 == Asked(cfg, s, q).1
  {
    AskedDecides(cfg, s, q);
    AskedDecides(cfg, s', q);
  }

  lemma AskKeepsOtherEntries(cfg: Config, s: State, p: WireQuestion, q: WireQuestion)
    ensures SameEntries(cfg, s, Asked(cfg, s, p).0, q)
  {
  }

  lemma SameQuestionSameSources(cfg: Config, p: WireQuestion, q: WireQuestion)
    requires SameQuestion(p, q)
    ensures Clean(cfg, p) <==> Clean(cfg, q)
  {
  }

  // -------- blocked and custom targets --------

  /** What a follow-up of the given type gets from the configuration alone, in any state; None if it must look further. */
  ghost function LocalAnswer(cfg: Config, qtype: nat, target: string): Option<seq<RR>> {
    var q := WireQuestion(target, qtype, CLASS_INET);
    if IsCustom(cfg, q) then cfg.custom(UnFqdn(target), qtype)
    else if IsBlocked(cfg, q) then Some(BlockedAnswer(cfg, q))
    else None
  }

  /** It is what the engine replies, whatever the caches hold and whenever it is asked. */
  lemma LocalAnswerInEveryState(cfg: Config, s: State, qtype: nat, target: string)
    requires LocalAnswer(cfg, qtype, target).Some?
    ensures var (s', reply) := Asked(cfg, s, WireQuestion(target, qtype, CLASS_INET));
            s' == s && (reply == CustomReply(LocalAnswer(cfg, qtype, target).value)
                        || reply == BlockedReply(LocalAnswer(cfg, qtype, target).value))
  {
  }

  /** The lookups answer from the configuration wherever it decides. */
  ghost predicate AsConfigured(cfg: Config, ask: Lookup, qtype: nat) {
    forall t :: LocalAnswer(cfg, qtype, t).Some? ==> ask(t) == LocalAnswer(cfg, qtype, t)
  }

  ghost predicate BlockedTarget(cfg: Config, qtype: nat, target: string) {
    var q := WireQuestion(target, qtype, CLASS_INET);
    IsBlocked(cfg, q) && !IsCustom(cfg, q)
  }

  /** The follow-up of a CNAME yields the record: the null route if its target is blocked, else what its lookup gives. */
  ghost predicate FollowUpYields(cfg: Config, ask: Lookup, qtype: nat, c: RR, rr: RR) {
    && IsCname(c)
    && if BlockedTarget(cfg, qtype, c.data) then !cfg.nxdomain && rr == NullRoute(cfg, qtype, c.data)
       else ask(c.data).Some? && rr in ask(c.data).value
  }

  /** The record that stands for a blocked name of type A or AAAA. */
  function NullRoute(cfg: Config, qtype: nat, name: string): RR {
    if qtype == 1 then RR(name, A, cfg.ttl, cfg.nullroute) else RR(name, AAAA, cfg.ttl, cfg.nullroutev6)
  }

  /** The record is what the follow-up of some CNAME within reach yields. */
  ghost predicate Followed(cfg: Config, ask: Lookup, qtype: nat, original: seq<RR>, hops: nat, rr: RR) {
    exists c :: Reachable(ask, original, hops, c) && FollowUpYields(cfg, ask, qtype, c, rr)
  }

  /**
   What a whole request ends with, whatever the other lookups hold: the records of the original answer,
   those found behind a CNAME within reach whose target is not blocked, and the null routes (none in
   NXDOMAIN mode) of the blocked targets within reach. Nothing from behind a blocked name gets in.
   */
  lemma FollowingBlockedTarget(cfg: Config, ask: Lookup, rtype: RRType, qtype: nat, original: seq<RR>, depth: nat, r: Result, rr: RR)
    requires AsConfigured(cfg, ask, qtype) && r == Run(ask, rtype, original, depth)
    ensures rr in r.answer <==> rr in original || (r.rounds > 0 && Followed(cfg, ask, qtype, original, r.rounds - 1, rr))
  {
    ReplyByHops(ask, rtype, original, depth, r, rr);
    if r.rounds > 0 {
      FollowedIsHop(cfg, ask, qtype, original, r.rounds - 1, rr);
    }
  }

  lemma FollowedIsHop(cfg: Config, ask: Lookup, qtype: nat, original: seq<RR>, hops: nat, rr: RR)
    requires AsConfigured(cfg, ask, qtype)
    ensures Followed(cfg, ask, qtype, original, hops, rr) <==> OneHopAway(ask, original, hops, rr)
  {
    if c :| Reachable(ask, original, hops, c) && FollowUpYields(cfg, ask, qtype, c, rr) {
      FollowUpIsHop(cfg, ask, qtype, c, rr);
      assert OneHopOn(ask, original, hops, c, rr);
    }
    if c :| OneHopOn(ask, original, hops, c, rr) {
      FollowUpIsHop(cfg, ask, qtype, c, rr);
    }
  }

  lemma FollowUpIsHop(cfg: Config, ask: Lookup, qtype: nat, c: RR, rr: RR)
    requires LocalAnswer(cfg, qtype, c.data).Some? ==> ask(c.data) == LocalAnswer(cfg, qtype, c.data)
    ensures FollowUpYields(cfg, ask, qtype, c, rr) <==> IsCname(c) && ask(c.data).Some? && rr in ask(c.data).value
  {
  }

  /** A chain of custom CNAMEs, each custom record set leading to the next, the last to a blocked name. */
  ghost predicate CustomChain(cfg: Config, qtype: nat, chain: seq<RR>) {
    && |chain| >= 1
    && (forall i :: 0 <= i < |chain| ==> IsCname(chain[i]))
    && (forall i, j :: 0 <= i < j < |chain| ==> chain[i] != chain[j])
    && (forall i :: 0 <= i < |chain| - 1 ==> CustomLeadsToNext(cfg, qtype, chain, i))
    && var last := WireQuestion(chain[|chain| - 1].data, qtype, CLASS_INET);
    && IsBlocked(cfg, last) && !IsCustom(cfg, last)
  }

  predicate CustomLeadsToNext(cfg: Config, qtype: nat, chain: seq<RR>, i: int)
    requires 0 <= i < |chain| - 1
  {
    cfg.custom(UnFqdn(chain[i].data), qtype) == Some([chain[i + 1]])
  }

  /**
   An address question answered by a chain of custom CNAMEs that ends in a blocked name gets the whole
   chain and then the null route, or nothing more in NXDOMAIN mode, whatever else the lookups hold.
   */
  lemma CustomChainEndsInNullRoute(cfg: Config, ask: Lookup, rtype: RRType, qtype: nat, chain: seq<RR>, depth: nat)
    requires (rtype.A? && qtype == TYPE_A) || (rtype.AAAA? && qtype == TYPE_AAAA)
    requires CustomChain(cfg, qtype, chain) && |chain| <= depth
    requires AsConfigured(cfg, ask, qtype)
    ensures var last := WireQuestion(chain[|chain| - 1].data, qtype, CLASS_INET);
            var r := Run(ask, rtype, [chain[0]], depth);
            r.answer == chain + (if cfg.nxdomain then [] else [NullRoute(cfg, qtype, last.name)]) && !r.faulted
  {
    var last := WireQuestion(chain[|chain| - 1].data, qtype, CLASS_INET);
    var route := BlockedAnswer(cfg, last);
    forall i | 0 <= i < |chain| - 1 ensures LeadsToNext(ask, chain, i) {
      assert CustomLeadsToNext(cfg, qtype, chain, i);
      assert LocalAnswer(cfg, qtype, chain[i].data) == Some([chain[i + 1]]);
    }
    assert LocalAnswer(cfg, qtype, last.name) == Some(route);
    assert IsChain(ask, chain, route);
    ChainIsFollowed(ask, rtype, chain, route, depth);
  }
}
