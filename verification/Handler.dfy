/**
 The event loop object (`handler.go`, `EventLoop`): the code of `responseFor` over the cache and block
 list objects, tied to the steps of the engine. The upstream lookups of a request are parameters.
 */
module Handler {
  import opened Text
  import opened Questions
  import opened CnameFollowing
  import B = BlockList
  import L = Lcache
  import E = Engine

  /** How one upstream lookup ends; an answer names its records in the shared memory. */
  datatype LookupResult = LookupError | LookupOk(ids: seq<nat>, truncated: bool)

  /** What a request ends with; `insert` says whether the answer is to be cached. */
  datatype Response =
    | Local(reply: E.Reply)
    | UpstreamFailed
    | UpstreamAnswered(ids: seq<nat>, insert: bool)

  /** The outcome of the lookups: a truncated answer over UDP is replaced by that of a second lookup over TCP. */
  function Final(net: string, first: LookupResult, second: LookupResult): LookupResult {
    if first.LookupOk? && first.truncated && net == "udp" then second else first
  }

  /** How the lookups of each question end, first over the given network and then over TCP. */
  type Upstreams = WireQuestion -> (LookupResult, LookupResult)

  /** What the client gets; a fault is the nil message read after a failed follow-up. */
  datatype Outcome = ServerFailure | Fault | Replied(answer: seq<RR>)

  const TYPE_CNAME := 5

  function TypeOf(code: nat): RRType {
    if code == TYPE_A then A else if code == TYPE_AAAA then AAAA else if code == TYPE_CNAME then CNAME else OtherType(code)
  }

  /** Numbered records as their content. */
  function Rendered(render: nat -> RR, ids: seq<nat>): (rrs: seq<RR>)
    ensures |rrs| == |ids| && forall i :: 0 <= i < |ids| ==> rrs[i] == render(ids[i])
  {
    seq(|ids|, i requires 0 <= i < |ids| => render(ids[i]))
  }

  /** The records that a question is answered with in a state, None for a failure. */
  ghost function AnswerIn(cfg: E.Config, s: E.State, net: string, upstream: Upstreams, render: nat -> RR, q: WireQuestion): Option<seq<RR>> {
    match E.Asked(cfg, s, q).1
    case CustomReply(rrs) => Some(rrs)
    case BlockedReply(rrs) => Some(rrs)
    case CachedReply(ids) => Some(Rendered(render, ids))
    case NegativeReply => None
    case GoesUpstream =>
      match Final(net, upstream(q).0, upstream(q).1)
      case LookupError => None
      case LookupOk(ids, _) => Some(Rendered(render, ids))
  }

  /** The follow-ups of a request as one function of the target, read off the state at its start. */
  ghost function FollowUps(cfg: E.Config, s: E.State, net: string, upstream: Upstreams, render: nat -> RR, qtype: nat): Lookup {
    target => AnswerIn(cfg, s, net, upstream, render, WireQuestion(target, qtype, CLASS_INET))
  }

  /** What a request ends with if it takes one instant, as a function of the state it starts in. */
  ghost function OutcomeIn(cfg: E.Config, s: E.State, net: string, upstream: Upstreams, render: nat -> RR, q: WireQuestion, depth: nat): Outcome {
    match AnswerIn(cfg, s, net, upstream, render, q)
    case None => ServerFailure
    case Some(original) =>
      var r := Run(FollowUps(cfg, s, net, upstream, render, q.qtype), TypeOf(q.qtype), original, depth);
      if r.faulted then Fault else Replied(r.answer)
  }

  /** The first lookup failed, or was truncated over UDP and so replaced by a second that failed. */
  predicate LookupsFail(net: string, first: LookupResult, second: LookupResult) {
    first.LookupError? || (first.truncated && net == "udp" && second.LookupError?)
  }

  /**
   The client gets a server failure exactly when no local source answers the question and its failure is
   in the negative cache or its lookups fail.
   */
  lemma ServerFailureIff(cfg: E.Config, s: E.State, net: string, upstream: Upstreams, render: nat -> RR, q: WireQuestion, depth: nat)
    requires cfg.Valid()
    ensures var ip, key := IsIPQuery(q) > 0, E.Key(cfg, q);
            OutcomeIn(cfg, s, net, upstream, render, q, depth) == ServerFailure <==>
              && E.Clean(cfg, q) && !(ip && E.Live(s.cache, key, s.now))
              && ((ip && E.Live(s.neg, key, s.now)) || LookupsFail(net, upstream(q).0, upstream(q).1))
  {
    E.AskedDecides(cfg, s, q);
  }

  /**
   And what it is answered with otherwise: a live entry's records; or those of the first lookup, unless it
   was truncated over UDP; or then those of the second. Custom and blocked questions are Engine's matter.
   */
  lemma AnsweredFrom(cfg: E.Config, s: E.State, net: string, upstream: Upstreams, render: nat -> RR, q: WireQuestion)
    requires cfg.Valid() && E.Clean(cfg, q)
    ensures var ip, key := IsIPQuery(q) > 0, E.Key(cfg, q);
            var (first, second) := upstream(q);
            var answer := AnswerIn(cfg, s, net, upstream, render, q);
            if ip && E.Live(s.cache, key, s.now) then answer == Some(Rendered(render, s.cache.backend[key].rrs))
            else if (ip && E.Live(s.neg, key, s.now)) || LookupsFail(net, first, second) then answer == None
            else if first.truncated && net == "udp" then answer == Some(Rendered(render, second.ids))
            else answer == Some(Rendered(render, first.ids))
  {
    E.AskedDecides(cfg, s, q);
    if IsIPQuery(q) > 0 && E.Live(s.cache, E.Key(cfg, q), s.now) {
      E.LiveEntryIsServed(cfg, s, q);
    }
  }

  /**
   A request faults exactly when it has an answer of its own, does not ask for CNAMEs (type 5), and before
   any address a CNAME comes within reach, below the depth limit, whose follow-up is a server failure.
   */
  lemma RequestFaultsIff(cfg: E.Config, s: E.State, net: string, upstream: Upstreams, render: nat -> RR, q: WireQuestion, depth: nat)
    ensures var answer, ask := AnswerIn(cfg, s, net, upstream, render, q), FollowUps(cfg, s, net, upstream, render, q.qtype);
            OutcomeIn(cfg, s, net, upstream, render, q, depth) == Fault <==>
              && answer.Some? && q.qtype != 5
              && exists m: nat, c :: m < depth && Reachable(ask, answer.value, m, c) && IsCname(c) && ask(c.data).None?
                                     && forall rr :: Reachable(ask, answer.value, m, rr) ==> !IsAddress(rr)
  {
    var answer := AnswerIn(cfg, s, net, upstream, render, q);
    if answer.Some? {
      FaultIffLookupFails(FollowUps(cfg, s, net, upstream, render, q.qtype), TypeOf(q.qtype), answer.value, depth);
    }
  }

  /** A request for CNAMEs is answered as it is. */
  lemma CnameRequestsAreNotFollowed(cfg: E.Config, s: E.State, net: string, upstream: Upstreams, render: nat -> RR, q: WireQuestion, depth: nat)
    requires q.qtype == 5 && AnswerIn(cfg, s, net, upstream, render, q).Some?
    ensures OutcomeIn(cfg, s, net, upstream, render, q, depth) == Replied(AnswerIn(cfg, s, net, upstream, render, q).value)
  {
  }

  /** The follow-ups answer from the configuration wherever it decides, in every state of the caches. */
  lemma FollowUpsAsConfigured(cfg: E.Config, s: E.State, net: string, upstream: Upstreams, render: nat -> RR, qtype: nat)
    ensures E.AsConfigured(cfg, FollowUps(cfg, s, net, upstream, render, qtype), qtype)
  {
    var ask := FollowUps(cfg, s, net, upstream, render, qtype);
    forall t | E.LocalAnswer(cfg, qtype, t).Some? ensures ask(t) == E.LocalAnswer(cfg, qtype, t) {
      E.LocalAnswerInEveryState(cfg, s, qtype, t);
    }
  }

  /**
   What a request through the event loop is answered with: its own answer, what lies behind the CNAMEs
   within reach whose targets are not blocked, and the null routes of those that are.
   */
  lemma BlockedTargetsInReply(cfg: E.Config, s: E.State, net: string, upstream: Upstreams, render: nat -> RR, q: WireQuestion, depth: nat,
                              original: seq<RR>, r: Result, rr: RR)
    requires AnswerIn(cfg, s, net, upstream, render, q) == Some(original)
    requires r == Run(FollowUps(cfg, s, net, upstream, render, q.qtype), TypeOf(q.qtype), original, depth) && !r.faulted
    ensures OutcomeIn(cfg, s, net, upstream, render, q, depth) == Replied(r.answer)
    ensures rr in r.answer <==>
              || rr in original
              || (r.rounds > 0 && E.Followed(cfg, FollowUps(cfg, s, net, upstream, render, q.qtype), q.qtype, original, r.rounds - 1, rr))
  {
    FollowUpsAsConfigured(cfg, s, net, upstream, render, q.qtype);
    E.FollowingBlockedTarget(cfg, FollowUps(cfg, s, net, upstream, render, q.qtype), TypeOf(q.qtype), q.qtype, original, depth, r, rr);
  }

  /**
   An address question answered by a chain of custom CNAMEs that ends in a blocked name gets the chain and
   then the null route, whatever the caches hold and whatever upstream would answer.
   */
  lemma CustomChainInReply(cfg: E.Config, s: E.State, net: string, upstream: Upstreams, render: nat -> RR, q: WireQuestion, depth: nat, chain: seq<RR>)
    requires q.qtype == TYPE_A || q.qtype == TYPE_AAAA
    requires E.CustomChain(cfg, q.qtype, chain) && |chain| <= depth
    requires cfg.custom(UnFqdn(q.name), q.qtype) == Some([chain[0]])
    ensures OutcomeIn(cfg, s, net, upstream, render, q, depth)
            == Replied(chain + (if cfg.nxdomain then [] else [E.NullRoute(cfg, q.qtype, chain[|chain| - 1].data)]))
  {
    FollowUpsAsConfigured(cfg, s, net, upstream, render, q.qtype);
    E.CustomChainEndsInNullRoute(cfg, FollowUps(cfg, s, net, upstream, render, q.qtype), TypeOf(q.qtype), q.qtype, chain, depth);
  }

  /** Every question gets the same reply in both states. */
  ghost predicate SameReplies(cfg: E.Config, s: E.State, s': E.State) {
    forall q :: E.Asked(cfg, s', q).1 == E.Asked(cfg, s, q).1
  }

  /** A request changes no reply at the same instant. */
  lemma AskKeepsReplies(cfg: E.Config, s: E.State, q: WireQuestion, s': E.State)
    requires cfg.Valid() && s' == E.Asked(cfg, s, q).0.(lookups := s'.lookups)
    ensures SameReplies(cfg, s, s')
  {
    forall p ensures E.Asked(cfg, s', p).1 == E.Asked(cfg, s, p).1 {
      E.AskKeepsOtherEntries(cfg, s, q, p);
      E.SameEntriesSameReply(cfg, s, s', p);
    }
  }

  class EventLoop {
    const cfg: E.Config
    const headers: L.Headers
    const cache: L.LengCache
    const negCache: L.LengCache
    const blockCache: B.MemoryBlockCache

    ghost predicate Valid()
      reads this, headers, cache, negCache, blockCache
    {
      && cache.headers == headers && negCache.headers == headers && cache != negCache
      && cache.maxSize == cfg.maxcount && negCache.maxSize == cfg.maxcount
      && cache.Valid() && negCache.Valid()
      && blockCache.lib == cfg.lib && blockCache.Contents() == cfg.blocklist
    }

    /** The engine state that this object shows at a given time; it carries no history. */
    ghost function View(now: int): E.State
      reads this, headers, cache, negCache
    {
      E.Init(now).(cache := cache.Contents(), neg := negCache.Contents(), headers := headers.ttl)
    }

    constructor (cfg: E.Config, headers: L.Headers, blockCache: B.MemoryBlockCache)
      requires blockCache.lib == cfg.lib && blockCache.Contents() == cfg.blocklist
      ensures Valid() && fresh(cache) && fresh(negCache)
      ensures this.cfg == cfg && this.headers == headers && this.blockCache == blockCache
      ensures cache.Contents() == L.EMPTY && negCache.Contents() == L.EMPTY
    {
      this.cfg, this.headers, this.blockCache := cfg, headers, blockCache;
      var c := new L.LengCache(cfg.maxcount, headers);
      var n := new L.LengCache(cfg.maxcount, headers);
      this.cache, this.negCache := c, n;
    }

    method BlockedResponseFor(q: WireQuestion, ipQuery: nat) returns (answer: seq<RR>)
      requires ipQuery == IsIPQuery(q)
      ensures answer == E.BlockedAnswer(cfg, q)
    {
      answer := [];
      if !cfg.nxdomain {
        if ipQuery == 4 {
          answer := answer + [RR(q.name, A, cfg.ttl, cfg.nullroute)];
        } else if ipQuery == 6 {
          answer := answer + [RR(q.name, AAAA, cfg.ttl, cfg.nullroutev6)];
        }
      }
    }

    /** The part of `responseFor` before the upstream lookup. */
    method AskLocal(q: WireQuestion, now: int) returns (reply: E.Reply)
      requires Valid()
      modifies headers, cache, negCache
      ensures Valid()
      ensures var (s, r) := E.Asked(cfg, old(View(now)), q);
              reply == r && View(now) == s.(lookups := multiset{})
    {
      var custom := cfg.custom(UnFqdn(q.name), q.qtype);
      if custom.Some? {
        return E.CustomReply(custom.value);
      }
      var name := UnFqdn(q.name);
      var ipQuery := IsIPQuery(q);
      var listed := blockCache.Exists(name);
      var blocked := ipQuery > 0 && cfg.active && listed;
      if blocked {
        var answer := BlockedResponseFor(q, ipQuery);
        return E.BlockedReply(answer);
      }
      var key := E.Key(cfg, q);
      if ipQuery > 0 {
        var hit := cache.Get(key, now);
        if hit.Hit? {
          return E.CachedReply(hit.rrs);
        }
        var negHit := negCache.Get(key, now);
        if negHit.Hit? {
          return E.NegativeReply;
        }
      }
      return E.GoesUpstream;
    }

    /** A failed lookup is put into the negative cache. */
    method CacheFailure(q: WireQuestion, now: int)
      requires Valid()
      modifies negCache
      ensures Valid()
      ensures negCache.Contents() == L.WasSet(cfg.maxcount, old(negCache.Contents()), headers.ttl, E.Key(cfg, q), Some([]), now)
    {
      var _ := negCache.Set(E.Key(cfg, q), Some([]), now);
    }

    /**
     `responseFor`: the local sources, then the lookup started at `now` and ended at `after`, retried
     over TCP if it was truncated. A failure is cached; an answer is handed on for a delayed insert.
     */
    method ResponseFor(net: string, q: WireQuestion, now: int, after: int, first: LookupResult, second: LookupResult)
      returns (resp: Response)
      requires Valid()
      modifies headers, cache, negCache
      ensures Valid()
      ensures var (s, r) := E.Asked(cfg, old(View(now)), q);
              if !r.GoesUpstream? then resp == Local(r) && View(now) == s
              else match Final(net, first, second)
                case LookupError =>
                  resp == UpstreamFailed
                  && View(after) == E.Failed(cfg, s.(now := after), q).(failures := [])
                case LookupOk(ids, _) =>
                  resp == UpstreamAnswered(ids, IsIPQuery(q) > 0 && |ids| > 0)
                  && View(now) == s.(lookups := multiset{})
    {
      var reply := AskLocal(q, now);
      if !reply.GoesUpstream? {
        return Local(reply);
      }
      var result := first;
      if result.LookupError? {
        CacheFailure(q, after);
        return UpstreamFailed;
      }
      if result.truncated && net == "udp" {
        result := second;
        if result.LookupError? {
          CacheFailure(q, after);
          return UpstreamFailed;
        }
      }
      return UpstreamAnswered(result.ids, IsIPQuery(q) > 0 && |result.ids| > 0);
    }

    /** `responseFor` with its records read; an answer leaves every other reply of this instant as it was. */
    method Respond(net: string, q: WireQuestion, now: int, upstream: Upstreams, render: nat -> RR) returns (answer: Option<seq<RR>>)
      requires Valid() && cfg.Valid()
      modifies headers, cache, negCache
      ensures Valid()
      ensures answer == AnswerIn(cfg, old(View(now)), net, upstream, render, q)
      ensures answer.Some? ==> SameReplies(cfg, old(View(now)), View(now))
    {
      var resp := ResponseFor(net, q, now, now, upstream(q).0, upstream(q).1);
      if !(resp.UpstreamFailed? || (resp.Local? && resp.reply.NegativeReply?)) {
        AskKeepsReplies(cfg, old(View(now)), q, View(now));
      }
      match resp {
        case Local(CustomReply(rrs)) => answer := Some(rrs);
        case Local(BlockedReply(rrs)) => answer := Some(rrs);
        case Local(CachedReply(ids)) => answer := Some(Rendered(render, ids));
        case UpstreamAnswered(ids, _) => answer := Some(Rendered(render, ids));
        case _ => answer := None;
      }
    }

    /** One round of follow-ups through the event loop itself. */
    method FollowRoundHere(net: string, qtype: nat, cnames: seq<RR>, start: seq<RR>, now: int, upstream: Upstreams, render: nat -> RR,
                           ghost s0: E.State)
      returns (answer: seq<RR>, faulted: bool)
      requires Valid() && cfg.Valid() && SameReplies(cfg, s0, View(now))
      modifies headers, cache, negCache
      ensures Valid()
      ensures Round(FollowUps(cfg, s0, net, upstream, render, qtype), cnames, start) == if faulted then None else Some(answer)
      ensures !faulted ==> SameReplies(cfg, s0, View(now))
    {
      ghost var ask := FollowUps(cfg, s0, net, upstream, render, qtype);
      answer, faulted := start, false;
      for i := 0 to |cnames|
        invariant Valid() && SameReplies(cfg, s0, View(now))
        invariant Round(ask, cnames[..i], start) == Some(answer)
      {
        var followed := Respond(net, WireQuestion(cnames[i].data, qtype, CLASS_INET), now, upstream, render);
        assert followed == ask(cnames[i].data);
        assert cnames[..i + 1][..i] == cnames[..i];
        if followed.None? {
          RoundFails(ask, cnames, i, start);
          return answer, true;
        }
        answer := Append(answer, followed.value);
      }
      assert cnames[..|cnames|] == cnames;
    }

    /**
     `doRequest` at one instant: the caches change with every follow-up, yet the reply is that of following
     with one fixed answer function, the one the event loop's state at the start of the request gives.
     */
    method DoRequest(net: string, q: WireQuestion, depth: nat, now: int, upstream: Upstreams, render: nat -> RR) returns (outcome: Outcome)
      requires Valid() && cfg.Valid()
      modifies headers, cache, negCache
      ensures Valid()
      ensures outcome == OutcomeIn(cfg, old(View(now)), net, upstream, render, q, depth)
    {
      ghost var s0 := View(now);
      var first := Respond(net, q, now, upstream, render);
      if first.None? {
        return ServerFailure;
      }
      ghost var ask := FollowUps(cfg, s0, net, upstream, render, q.qtype);
      var qtype := TypeOf(q.qtype);
      ghost var full := Run(ask, qtype, first.value, depth);
      var answer, depthSoFar := first.value, 0;
      while depth > depthSoFar
        invariant 0 <= depthSoFar <= depth
        invariant Valid() && SameReplies(cfg, s0, View(now))
        invariant Run(ask, qtype, answer, depth - depthSoFar).answer == full.answer
        invariant Run(ask, qtype, answer, depth - depthSoFar).faulted == full.faulted
      {
        var cnames, ok := FindCnames(qtype, answer);
        depthSoFar := depthSoFar + 1;
        if !ok {
          break;
        }
        var next, faulted := FollowRoundHere(net, q.qtype, cnames, answer, now, upstream, render, s0);
        if faulted {
          return Fault;
        }
        answer := next;
      }
      return Replied(answer);
    }

    /** The delayed insert: whatever the reply holds by then goes into the cache. */
    method InsertAnswer(q: WireQuestion, ids: seq<nat>, now: int)
      requires Valid() && forall r :: r in ids ==> r < |headers.ttl|
      modifies cache
      ensures Valid()
      ensures cache.Contents()
              == L.WasSet(cfg.maxcount, old(cache.Contents()), headers.ttl, E.Key(cfg, q), Some(ids), now)
    {
      var _ := cache.Set(E.Key(cfg, q), Some(ids), now);
    }
  }
}
