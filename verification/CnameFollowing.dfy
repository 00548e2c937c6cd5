/**
 CNAME following (`handler.go`, `doRequest` and `canFollow`; section 3.6.2 of RFC 1034). Each round
 asks the target of every CNAME in the reply and appends the records not yet there, until the reply
 holds an address, a round limit is reached, or there is nothing to follow. Two records are the same
 when their texts are; a record stands for its text. The follow-up lookups are a function from target
 to answer, None where the lookup fails: the code then reads a nil message, which is a fault.
 */
module CnameFollowing {
  import opened Text
  import L = Lcache

  datatype RRType = A | AAAA | CNAME | OtherType(code: nat)

  /** A record; `data` is the target of a CNAME. */
  datatype RR = RR(name: string, rtype: RRType, ttl: L.uint32, data: string)

  type Lookup = string -> Option<seq<RR>>

  predicate IsAddress(rr: RR) { rr.rtype.A? || rr.rtype.AAAA? }

  predicate IsCname(rr: RR) { rr.rtype.CNAME? }

  function Cnames(answer: seq<RR>): seq<RR> {
    if answer == [] then []
    else
      var last := answer[|answer| - 1];
      Cnames(answer[..|answer| - 1]) + (if IsCname(last) then [last] else [])
  }

  predicate CanFollow(qtype: RRType, answer: seq<RR>) {
    && !qtype.CNAME?
    && (forall i :: 0 <= i < |answer| ==> !IsAddress(answer[i]))
    && (exists i :: 0 <= i < |answer| && IsCname(answer[i]))
  }

  /** Append the records that are not there yet. */
  function Merged(answer: seq<RR>, extra: seq<RR>): seq<RR> {
    if extra == [] then answer
    else
      var a := Merged(answer, extra[..|extra| - 1]);
      var rr := extra[|extra| - 1];
      if rr in a then a else a + [rr]
  }

  /** One round over the CNAMEs collected at its start; None if a lookup fails. */
  function Round(ask: Lookup, cnames: seq<RR>, answer: seq<RR>): Option<seq<RR>> {
    if cnames == [] then Some(answer)
    else
      match Round(ask, cnames[..|cnames| - 1], answer)
      case None => None
      case Some(a) =>
        match ask(cnames[|cnames| - 1].data)
        case None => None
        case Some(extra) => Some(Merged(a, extra))
  }

  /** The reply so far, the rounds executed, and whether a failed lookup stopped the request. */
  datatype Result = Result(answer: seq<RR>, rounds: nat, faulted: bool)

  function Run(ask: Lookup, qtype: RRType, answer: seq<RR>, depth: nat): Result
    decreases depth
  {
    if depth == 0 || !CanFollow(qtype, answer) then Result(answer, 0, false)
    else match Round(ask, Cnames(answer), answer)
      case None => Result(answer, 0, true)
      case Some(a) => var r := Run(ask, qtype, a, depth - 1); r.(rounds := r.rounds + 1)
  }

  // -------- the code --------

  method FindCnames(qtype: RRType, answer: seq<RR>) returns (cnames: seq<RR>, ok: bool)
    ensures ok == CanFollow(qtype, answer)
    ensures !qtype.CNAME? ==> cnames == Cnames(answer)
  {
    if qtype.CNAME? {
      return [], false;
    }
    var hasAddress := exists i :: 0 <= i < |answer| && IsAddress(answer[i]);
    ok := !hasAddress && exists i :: 0 <= i < |answer| && IsCname(answer[i]);
    cnames := [];
    for i := 0 to |answer|
      invariant cnames == Cnames(answer[..i])
    {
      assert answer[..i + 1][..i] == answer[..i];
      if IsCname(answer[i]) {
        cnames := cnames + [answer[i]];
      }
    }
    assert answer[..|answer|] == answer;
    CnamesExact(answer);
    ok := ok && |cnames| != 0;
  }

  method Append(answer: seq<RR>, extra: seq<RR>) returns (merged: seq<RR>)
    ensures merged == Merged(answer, extra)
  {
    merged := answer;
    for j := 0 to |extra|
      invariant merged == Merged(answer, extra[..j])
    {
      assert extra[..j + 1][..j] == extra[..j];
      if extra[j] !in merged {
        merged := merged + [extra[j]];
      }
    }
    assert extra[..|extra|] == extra;
  }

  method FollowRound(ask: Lookup, cnames: seq<RR>, start: seq<RR>) returns (answer: seq<RR>, faulted: bool)
    ensures Round(ask, cnames, start) == if faulted then None else Some(answer)
  {
    answer, faulted := start, false;
    for i := 0 to |cnames|
      invariant Round(ask, cnames[..i], start) == Some(answer)
    {
      var followed := ask(cnames[i].data);
      assert cnames[..i + 1][..i] == cnames[..i];
      if followed.None? {
        RoundFails(ask, cnames, i, start);
        return answer, true;
      }
      answer := Append(answer, followed.value);
    }
    assert cnames[..|cnames|] == cnames;
  }

  method Follow(ask: Lookup, qtype: RRType, original: seq<RR>, depth: nat) returns (answer: seq<RR>, faulted: bool)
    ensures var r := Run(ask, qtype, original, depth); faulted == r.faulted && (!faulted ==> answer == r.answer)
  {
    answer, faulted := original, false;
    var depthSoFar := 0;
    while depth > depthSoFar
      invariant 0 <= depthSoFar <= depth
      invariant Run(ask, qtype, answer, depth - depthSoFar).answer == Run(ask, qtype, original, depth).answer
      invariant Run(ask, qtype, answer, depth - depthSoFar).faulted == Run(ask, qtype, original, depth).faulted
    {
      var cnames, ok := FindCnames(qtype, answer);
      depthSoFar := depthSoFar + 1;
      if !ok {
        return;
      }
      answer, faulted := FollowRound(ask, cnames, answer);
      if faulted {
        return;
      }
    }
  }

  lemma {:induction false} RoundFails(ask: Lookup, cnames: seq<RR>, i: nat, answer: seq<RR>)
    requires i < |cnames| && ask(cnames[i].data).None?
    ensures Round(ask, cnames, answer).None?
    decreases |cnames|
  {
    if i < |cnames| - 1 {
      RoundFails(ask, cnames[..|cnames| - 1], i, answer);
    }
  }

  // -------- rounds --------

  lemma {:induction false} CnamesExact(answer: seq<RR>)
    ensures forall rr :: rr in Cnames(answer) <==> rr in answer && IsCname(rr)
    ensures Cnames(answer) == [] <==> forall i :: 0 <= i < |answer| ==> !IsCname(answer[i])
  {
    if answer != [] {
      CnamesExact(answer[..|answer| - 1]);
      assert answer == answer[..|answer| - 1] + [answer[|answer| - 1]];
    }
  }

  /** CNAMEs are asked in the order in which they stand, one after the other, */
  lemma {:induction false} RoundInOrder(ask: Lookup, a: seq<RR>, b: seq<RR>, answer: seq<RR>)
    ensures Round(ask, a + b, answer)
            == match Round(ask, a, answer) { case None => None case Some(next) => Round(ask, b, next) }
    decreases |b|
  {
    if b == [] {
      assert a + b == a;
    } else {
      assert (a + b)[..|a + b| - 1] == a + b[..|b| - 1];
      RoundInOrder(ask, a, b[..|b| - 1], answer);
    }
  }

  lemma {:induction false} CnamesInOrder(a: seq<RR>, b: seq<RR>)
    ensures Cnames(a + b) == Cnames(a) + Cnames(b)
    decreases |b|
  {
    if b == [] {
      assert a + b == a;
    } else {
      assert (a + b)[..|a + b| - 1] == a + b[..|b| - 1];
      CnamesInOrder(a, b[..|b| - 1]);
    }
  }

  /** and the records of an answer are appended in its order. */
  lemma {:induction false} MergedInOrder(answer: seq<RR>, a: seq<RR>, b: seq<RR>)
    ensures Merged(answer, a + b) == Merged(Merged(answer, a), b)
    decreases |b|
  {
    if b == [] {
      assert a + b == a;
    } else {
      assert (a + b)[..|a + b| - 1] == a + b[..|b| - 1];
      MergedInOrder(answer, a, b[..|b| - 1]);
    }
  }

  /** `more` continues `base` with records that were not there before, one by one. */
  predicate Extends(base: seq<RR>, more: seq<RR>) {
    || more == base
    || (|base| < |more| && more[|more| - 1] !in more[..|more| - 1] && Extends(base, more[..|more| - 1]))
  }

  /** So the base is a prefix, and no record is appended that stands earlier. */
  lemma {:induction false} ExtendsMeans(base: seq<RR>, more: seq<RR>)
    requires Extends(base, more)
    ensures base <= more
    ensures forall i, j :: 0 <= i < j && |base| <= j < |more| ==> more[i] != more[j]
  {
    if more != base {
      ExtendsMeans(base, more[..|more| - 1]);
    }
  }

  lemma {:induction false} ExtendsTransitive(a: seq<RR>, b: seq<RR>, c: seq<RR>)
    requires Extends(a, b) && Extends(b, c)
    ensures Extends(a, c)
    decreases |c|
  {
    if c != b {
      ExtendsTransitive(a, b, c[..|c| - 1]);
      ExtendsMeans(a, c[..|c| - 1]);
    }
  }

  lemma {:induction false} MergedFacts(answer: seq<RR>, extra: seq<RR>)
    ensures Extends(answer, Merged(answer, extra))
    ensures forall rr :: rr in Merged(answer, extra) <==> rr in answer || rr in extra
  {
    if extra != [] {
      var n := |extra| - 1;
      MergedFacts(answer, extra[..n]);
      assert extra == extra[..n] + [extra[n]];
      var a := Merged(answer, extra[..n]);
      ExtendsMeans(answer, a);
      assert (a + [extra[n]])[..|a|] == a;
    }
  }

  /** A round that succeeds adds exactly the answers of the targets asked. */
  lemma {:induction false} RoundFacts(ask: Lookup, cnames: seq<RR>, answer: seq<RR>)
    ensures Round(ask, cnames, answer).Some? <==> forall c :: c in cnames ==> ask(c.data).Some?
    ensures Round(ask, cnames, answer).Some? ==>
              && Extends(answer, Round(ask, cnames, answer).value)
              && forall rr :: rr in Round(ask, cnames, answer).value <==>
                   rr in answer || exists c :: c in cnames && rr in ask(c.data).value
  {
    if cnames != [] {
      var n := |cnames| - 1;
      RoundFacts(ask, cnames[..n], answer);
      assert cnames == cnames[..n] + [cnames[n]];
      if Round(ask, cnames, answer).Some? {
        var a := Round(ask, cnames[..n], answer).value;
        MergedFacts(a, ask(cnames[n].data).value);
        ExtendsTransitive(answer, a, Round(ask, cnames, answer).value);
      }
    }
  }

  // -------- reachability --------

  /** A chain of records, each in the answer to the CNAME before it, the first in the original answer. */
  predicate IsPath(ask: Lookup, original: seq<RR>, path: seq<RR>) {
    && |path| >= 1 && path[0] in original
    && forall i :: 0 <= i < |path| - 1 ==> Linked(ask, path, i)
  }

  predicate Linked(ask: Lookup, path: seq<RR>, i: int)
    requires 0 <= i < |path| - 1
  {
    IsCname(path[i]) && ask(path[i].data).Some? && path[i + 1] in ask(path[i].data).value
  }

  /** The record is reached from the original answer in at most `hops` CNAME hops. */
  ghost predicate Reachable(ask: Lookup, original: seq<RR>, hops: nat, rr: RR) {
    exists path :: IsPath(ask, original, path) && |path| <= hops + 1 && path[|path| - 1] == rr
  }

  lemma ReachableNow(ask: Lookup, original: seq<RR>, rr: RR)
    ensures Reachable(ask, original, 0, rr) <==> rr in original
  {
    if rr in original {
      assert IsPath(ask, original, [rr]);
    }
  }

  /** The record stands in the answer to a CNAME reached in `hops` hops. */
  ghost predicate OneHopOn(ask: Lookup, original: seq<RR>, hops: nat, c: RR, rr: RR) {
    Reachable(ask, original, hops, c) && IsCname(c) && ask(c.data).Some? && rr in ask(c.data).value
  }

  ghost predicate OneHopAway(ask: Lookup, original: seq<RR>, hops: nat, rr: RR) {
    exists c :: OneHopOn(ask, original, hops, c, rr)
  }

  lemma HopForward(ask: Lookup, original: seq<RR>, hops: nat, c: RR, rr: RR)
    requires OneHopOn(ask, original, hops, c, rr)
    ensures Reachable(ask, original, hops + 1, rr)
  {
    var path :| IsPath(ask, original, path) && |path| <= hops + 1 && path[|path| - 1] == c;
    var longer := path + [rr];
    forall i | 0 <= i < |longer| - 1 ensures Linked(ask, longer, i) {
      assert i < |path| - 1 ==> Linked(ask, path, i);
    }
    assert IsPath(ask, original, longer);
    assert longer[|longer| - 1] == rr;
  }

  lemma HopBack(ask: Lookup, original: seq<RR>, hops: nat, rr: RR)
    requires Reachable(ask, original, hops + 1, rr) && !Reachable(ask, original, hops, rr)
    ensures exists c :: OneHopOn(ask, original, hops, c, rr)
  {
    var path :| IsPath(ask, original, path) && |path| <= hops + 2 && path[|path| - 1] == rr;
    var shorter := path[..|path| - 1];
    assert Linked(ask, path, |path| - 2);
    forall i | 0 <= i < |shorter| - 1 ensures Linked(ask, shorter, i) {
      assert Linked(ask, path, i);
    }
    assert IsPath(ask, original, shorter);
    var c := shorter[|shorter| - 1];
    assert Reachable(ask, original, hops, c);
    assert OneHopOn(ask, original, hops, c, rr);
  }

  lemma ReachableWeaken(ask: Lookup, original: seq<RR>, hops: nat, more: nat, rr: RR)
    requires Reachable(ask, original, hops, rr) && hops <= more
    ensures Reachable(ask, original, more, rr)
  {
  }

  /** One more hop. */
  lemma ReachableStep(ask: Lookup, original: seq<RR>, hops: nat, rr: RR)
    ensures Reachable(ask, original, hops + 1, rr) <==>
              Reachable(ask, original, hops, rr) || exists c :: OneHopOn(ask, original, hops, c, rr)
  {
    if Reachable(ask, original, hops, rr) {
      ReachableWeaken(ask, original, hops, hops + 1, rr);
    } else if c :| OneHopOn(ask, original, hops, c, rr) {
      HopForward(ask, original, hops, c, rr);
    } else if Reachable(ask, original, hops + 1, rr) {
      HopBack(ask, original, hops, rr);
    }
  }

  /** What is reached stands in the original answer or in that to a CNAME reached one hop earlier. */
  lemma {:induction false} ReachedByHop(ask: Lookup, original: seq<RR>, hops: nat, rr: RR)
    ensures Reachable(ask, original, hops + 1, rr) <==> rr in original || OneHopAway(ask, original, hops, rr)
  {
    ReachableStep(ask, original, hops, rr);
    ReachableNow(ask, original, rr);
    if rr in original {
      ReachableWeaken(ask, original, 0, hops, rr);
    } else if hops > 0 && Reachable(ask, original, hops, rr) {
      ReachedByHop(ask, original, hops - 1, rr);
      var c :| OneHopOn(ask, original, hops - 1, c, rr);
      ReachableWeaken(ask, original, hops - 1, hops, c);
      assert OneHopOn(ask, original, hops, c, rr);
    }
  }

  /** The answer holds exactly what is reachable in `hops` hops. */
  ghost predicate IsClosure(ask: Lookup, original: seq<RR>, hops: nat, answer: seq<RR>) {
    forall rr :: rr in answer <==> Reachable(ask, original, hops, rr)
  }

  lemma RoundExtendsClosure(ask: Lookup, original: seq<RR>, hops: nat, answer: seq<RR>)
    requires IsClosure(ask, original, hops, answer) && Round(ask, Cnames(answer), answer).Some?
    ensures IsClosure(ask, original, hops + 1, Round(ask, Cnames(answer), answer).value)
  {
    RoundFacts(ask, Cnames(answer), answer);
    CnamesExact(answer);
    var next := Round(ask, Cnames(answer), answer).value;
    forall rr ensures rr in next <==> Reachable(ask, original, hops + 1, rr) {
      ReachableStep(ask, original, hops, rr);
      if c :| c in Cnames(answer) && rr in ask(c.data).value {
        assert OneHopOn(ask, original, hops, c, rr);
      }
      if c :| OneHopOn(ask, original, hops, c, rr) {
        assert c in Cnames(answer);
      }
    }
  }

  lemma {:induction false} RunCloses(ask: Lookup, qtype: RRType, original: seq<RR>, hops: nat, answer: seq<RR>, depth: nat)
    requires IsClosure(ask, original, hops, answer)
    ensures IsClosure(ask, original, hops + Run(ask, qtype, answer, depth).rounds, Run(ask, qtype, answer, depth).answer)
    decreases depth
  {
    if depth > 0 && CanFollow(qtype, answer) && Round(ask, Cnames(answer), answer).Some? {
      RoundExtendsClosure(ask, original, hops, answer);
      RunCloses(ask, qtype, original, hops + 1, Round(ask, Cnames(answer), answer).value, depth - 1);
    }
  }

  lemma {:induction false} RunExtends(ask: Lookup, qtype: RRType, answer: seq<RR>, depth: nat)
    ensures Extends(answer, Run(ask, qtype, answer, depth).answer)
    decreases depth
  {
    if depth > 0 && CanFollow(qtype, answer) && Round(ask, Cnames(answer), answer).Some? {
      var a := Round(ask, Cnames(answer), answer).value;
      RoundFacts(ask, Cnames(answer), answer);
      RunExtends(ask, qtype, a, depth - 1);
      ExtendsTransitive(answer, a, Run(ask, qtype, a, depth - 1).answer);
    }
  }

  /** Why a run ends. */
  lemma {:induction false} RunStops(ask: Lookup, qtype: RRType, answer: seq<RR>, depth: nat)
    ensures var r := Run(ask, qtype, answer, depth);
            && r.rounds <= depth
            && (r.faulted <==> r.rounds < depth && CanFollow(qtype, r.answer))
            && (r.faulted ==> exists c :: c in r.answer && IsCname(c) && ask(c.data).None?)
    decreases depth
  {
    if depth > 0 && CanFollow(qtype, answer) {
      match Round(ask, Cnames(answer), answer) {
        case None =>
          RoundFacts(ask, Cnames(answer), answer);
          CnamesExact(answer);
        case Some(a) =>
          RunStops(ask, qtype, a, depth - 1);
      }
    }
  }

  lemma OriginalIsClosure(ask: Lookup, original: seq<RR>)
    ensures IsClosure(ask, original, 0, original)
  {
    forall rr ensures rr in original <==> Reachable(ask, original, 0, rr) {
      ReachableNow(ask, original, rr);
    }
  }

  // -------- the main results --------

  /**
   Following computes bounded reachability. After the rounds it executes, the reply holds exactly the
   records within that many CNAME hops of the original answer; it keeps the original answer as a prefix
   and appends no record twice. It stops only at the depth limit, when there is nothing to follow, or
   at a failed lookup of a CNAME it has reached.
   */
  lemma FollowIsReachability(ask: Lookup, qtype: RRType, original: seq<RR>, depth: nat)
    ensures var r := Run(ask, qtype, original, depth);
            && (forall rr :: rr in r.answer <==> Reachable(ask, original, r.rounds, rr))
            && original <= r.answer
            && (forall i, j :: 0 <= i < j && |original| <= j < |r.answer| ==> r.answer[i] != r.answer[j])
            && r.rounds <= depth
            && (r.faulted <==> r.rounds < depth && CanFollow(qtype, r.answer))
  {
    OriginalIsClosure(ask, original);
    RunCloses(ask, qtype, original, 0, original, depth);
    RunExtends(ask, qtype, original, depth);
    ExtendsMeans(original, Run(ask, qtype, original, depth).answer);
    RunStops(ask, qtype, original, depth);
  }

  /** Every record of the reply was there from the start or stands in the answer to a CNAME reached before the last round. */
  lemma ReplyByHops(ask: Lookup, qtype: RRType, original: seq<RR>, depth: nat, r: Result, rr: RR)
    requires r == Run(ask, qtype, original, depth)
    ensures rr in r.answer <==> rr in original || (r.rounds > 0 && OneHopAway(ask, original, r.rounds - 1, rr))
  {
    FollowIsReachability(ask, qtype, original, depth);
    if r.rounds == 0 {
      ReachableNow(ask, original, rr);
    } else {
      ReachedByHop(ask, original, r.rounds - 1, rr);
    }
  }

  /** Within `hops` hops there is a CNAME whose lookup fails, and no address to stop at. */
  ghost predicate DeadEndWithin(ask: Lookup, original: seq<RR>, hops: nat) {
    && (exists c :: Reachable(ask, original, hops, c) && IsCname(c) && ask(c.data).None?)
    && (forall rr :: Reachable(ask, original, hops, rr) ==> !IsAddress(rr))
  }

  /** The next round fails exactly at a dead end. */
  lemma DeadEndStopsRound(ask: Lookup, original: seq<RR>, hops: nat, answer: seq<RR>)
    requires IsClosure(ask, original, hops, answer)
    requires forall rr :: rr in answer ==> !IsAddress(rr)
    ensures DeadEndWithin(ask, original, hops) <==> Round(ask, Cnames(answer), answer).None?
  {
    RoundFacts(ask, Cnames(answer), answer);
    CnamesExact(answer);
  }

  /** An address reached by now rules out a dead end later. */
  lemma AddressPreventsDeadEnd(ask: Lookup, original: seq<RR>, hops: nat, rr: RR, more: nat)
    requires Reachable(ask, original, hops, rr) && IsAddress(rr) && hops <= more
    ensures !DeadEndWithin(ask, original, more)
  {
    ReachableWeaken(ask, original, hops, more, rr);
  }

  /** Without a CNAME within reach, nothing more is ever reached. */
  lemma {:induction false} NoCnameNoHop(ask: Lookup, original: seq<RR>, hops: nat, more: nat)
    requires forall c :: Reachable(ask, original, hops, c) ==> !IsCname(c)
    requires hops <= more
    ensures forall c :: Reachable(ask, original, more, c) ==> !IsCname(c)
    decreases more
  {
    if hops < more {
      NoCnameNoHop(ask, original, hops, more - 1);
      forall c | Reachable(ask, original, more, c) ensures !IsCname(c) {
        ReachableStep(ask, original, more - 1, c);
      }
    }
  }

  /** Where a run stops without a fault there is no dead end at any number of hops it had left. */
  lemma NothingToFollow(ask: Lookup, qtype: RRType, original: seq<RR>, hops: nat, answer: seq<RR>, more: nat)
    requires IsClosure(ask, original, hops, answer) && !CanFollow(qtype, answer) && !qtype.CNAME? && hops <= more
    ensures !DeadEndWithin(ask, original, more)
  {
    if i :| 0 <= i < |answer| && IsAddress(answer[i]) {
      AddressPreventsDeadEnd(ask, original, hops, answer[i], more);
    } else {
      NoCnameNoHop(ask, original, hops, more);
    }
  }

  lemma {:induction false} FaultAtDeadEnd(ask: Lookup, qtype: RRType, original: seq<RR>, hops: nat, answer: seq<RR>, depth: nat)
    requires IsClosure(ask, original, hops, answer) && !qtype.CNAME?
    ensures Run(ask, qtype, answer, depth).faulted <==>
              exists m :: hops <= m < hops + depth && DeadEndWithin(ask, original, m)
    decreases depth
  {
    if depth > 0 && !CanFollow(qtype, answer) {
      forall m | hops <= m < hops + depth ensures !DeadEndWithin(ask, original, m) {
        NothingToFollow(ask, qtype, original, hops, answer, m);
      }
    } else if depth > 0 {
      DeadEndStopsRound(ask, original, hops, answer);
      if Round(ask, Cnames(answer), answer).Some? {
        RoundExtendsClosure(ask, original, hops, answer);
        FaultAtDeadEnd(ask, qtype, original, hops + 1, Round(ask, Cnames(answer), answer).value, depth - 1);
      }
    }
  }

  /**
   A request faults exactly when CNAMEs were not asked for and, at some number of hops below the depth
   limit, a CNAME is within reach whose lookup fails while no address is.
   */
  lemma FaultIffLookupFails(ask: Lookup, qtype: RRType, original: seq<RR>, depth: nat)
    ensures Run(ask, qtype, original, depth).faulted <==>
              && !qtype.CNAME?
              && exists m: nat, c :: m < depth && Reachable(ask, original, m, c) && IsCname(c) && ask(c.data).None?
                                     && forall rr :: Reachable(ask, original, m, rr) ==> !IsAddress(rr)
  {
    if !qtype.CNAME? {
      OriginalIsClosure(ask, original);
      FaultAtDeadEnd(ask, qtype, original, 0, original, depth);
      if m: nat, c :| m < depth && Reachable(ask, original, m, c) && IsCname(c) && ask(c.data).None?
                      && forall rr :: Reachable(ask, original, m, rr) ==> !IsAddress(rr) {
        assert DeadEndWithin(ask, original, m);
      }
    }
  }

  /** Such requests exist: any CNAME alone in an answer whose lookup fails. */
  lemma LoneCnameFaults(ask: Lookup, qtype: RRType, c: RR, depth: nat)
    requires IsCname(c) && !qtype.CNAME? && depth > 0 && ask(c.data).None?
    ensures Run(ask, qtype, [c], depth).faulted
  {
    RoundFails(ask, [c], 0, [c]);
    CnamesOfCnames([c]);
    assert IsCname([c][0]);
  }

  /** If every CNAME within reach resolves, no request faults. */
  lemma ResolvedNeverFaults(ask: Lookup, qtype: RRType, original: seq<RR>, depth: nat)
    requires forall c :: Reachable(ask, original, depth, c) && IsCname(c) ==> ask(c.data).Some?
    ensures !Run(ask, qtype, original, depth).faulted
  {
    FaultIffLookupFails(ask, qtype, original, depth);
    if m: nat, c :| m < depth && Reachable(ask, original, m, c) && IsCname(c) && ask(c.data).None? {
      ReachableWeaken(ask, original, m, depth, c);
    }
  }

  /** Following starts exactly when the limit allows it, CNAMEs were not asked for, and the reply holds a CNAME but no address. */
  lemma WhenFollowingStarts(ask: Lookup, qtype: RRType, original: seq<RR>, depth: nat)
    ensures var r := Run(ask, qtype, original, depth);
            r.rounds > 0 || r.faulted <==>
              && depth > 0 && !qtype.CNAME?
              && (forall rr :: rr in original ==> !rr.rtype.A? && !rr.rtype.AAAA?)
              && (exists rr :: rr in original && rr.rtype.CNAME?)
  {
  }

  /** A shallower limit stops the same computation earlier: its reply is a prefix, and so it followed at every earlier round. */
  lemma {:induction false} RoundsAreNested(ask: Lookup, qtype: RRType, answer: seq<RR>, depth: nat, m: nat)
    requires m <= Run(ask, qtype, answer, depth).rounds
    ensures var r := Run(ask, qtype, answer, m);
            && r.rounds == m && !r.faulted
            && Extends(r.answer, Run(ask, qtype, answer, depth).answer)
            && (m < Run(ask, qtype, answer, depth).rounds ==> CanFollow(qtype, r.answer))
    decreases m
  {
    if m == 0 {
      RunExtends(ask, qtype, answer, depth);
    } else {
      RoundsAreNested(ask, qtype, Round(ask, Cnames(answer), answer).value, depth - 1, m - 1);
    }
  }

  /** On a cycle: once a round adds nothing, no later round adds anything. */
  lemma {:induction false} FixpointIsFinal(ask: Lookup, qtype: RRType, answer: seq<RR>, depth: nat)
    requires Round(ask, Cnames(answer), answer) == Some(answer)
    ensures Run(ask, qtype, answer, depth).answer == answer && !Run(ask, qtype, answer, depth).faulted
  {
    if depth > 0 && CanFollow(qtype, answer) {
      FixpointIsFinal(ask, qtype, answer, depth - 1);
    }
  }

  function Elements(s: seq<RR>): set<RR> {
    if s == [] then {} else Elements(s[..|s| - 1]) + {s[|s| - 1]}
  }

  lemma {:induction false} ElementsExact(s: seq<RR>, rr: RR)
    ensures rr in Elements(s) <==> rr in s
  {
    if s != [] {
      ElementsExact(s[..|s| - 1], rr);
      assert s == s[..|s| - 1] + [s[|s| - 1]];
    }
  }

  lemma {:induction false} ExtensionLength(base: seq<RR>, more: seq<RR>)
    requires Extends(base, more)
    ensures |more| == |base| + |Elements(more) - Elements(base)|
  {
    if more == base {
      assert Elements(base) - Elements(base) == {};
    } else {
      var init, rr := more[..|more| - 1], more[|more| - 1];
      ExtensionLength(base, init);
      assert rr !in base by {
        ExtendsMeans(base, init);
        assert forall i :: 0 <= i < |base| ==> base[i] == init[i];
      }
      ElementsExact(init, rr);
      ElementsExact(base, rr);
      AddOne(Elements(base), Elements(init), rr);
    }
  }

  lemma AddOne(base: set<RR>, all: set<RR>, rr: RR)
    requires rr !in base && rr !in all
    ensures |(all + {rr}) - base| == |all - base| + 1
  {
    assert (all + {rr}) - base == (all - base) + {rr};
  }

  /** However many rounds run, the reply is no longer than the original plus the distinct records within reach. */
  lemma ReplyLengthBounded(ask: Lookup, qtype: RRType, original: seq<RR>, depth: nat, within: set<RR>)
    requires forall rr :: Reachable(ask, original, depth, rr) ==> rr in within
    ensures |Run(ask, qtype, original, depth).answer| <= |original| + |within - Elements(original)|
  {
    var r := Run(ask, qtype, original, depth);
    FollowIsReachability(ask, qtype, original, depth);
    RunExtends(ask, qtype, original, depth);
    ExtensionLength(original, r.answer);
    var added := Elements(r.answer) - Elements(original);
    forall rr | rr in added ensures rr in within {
      ElementsExact(r.answer, rr);
      ReachableWeaken(ask, original, r.rounds, depth, rr);
    }
    SubsetSmaller(added, within - Elements(original));
  }

  // -------- chains --------

  /** Different CNAMEs, each leading to the next alone, the last leading to `addresses`. */
  predicate IsChain(ask: Lookup, chain: seq<RR>, addresses: seq<RR>) {
    && |chain| >= 1
    && (forall i :: 0 <= i < |chain| ==> IsCname(chain[i]))
    && (forall i, j :: 0 <= i < j < |chain| ==> chain[i] != chain[j])
    && (forall i :: 0 <= i < |chain| - 1 ==> LeadsToNext(ask, chain, i))
    && ask(chain[|chain| - 1].data) == Some(addresses)
    && (forall i :: 0 <= i < |addresses| ==> !IsCname(addresses[i]))
    && (forall i, j :: 0 <= i < j < |addresses| ==> addresses[i] != addresses[j])
  }

  predicate LeadsToNext(ask: Lookup, chain: seq<RR>, i: int)
    requires 0 <= i < |chain| - 1
  {
    ask(chain[i].data) == Some([chain[i + 1]])
  }

  lemma {:induction false} CnamesOfCnames(chain: seq<RR>)
    requires forall i :: 0 <= i < |chain| ==> IsCname(chain[i])
    ensures Cnames(chain) == chain
  {
    if chain != [] {
      CnamesOfCnames(chain[..|chain| - 1]);
    }
  }

  lemma {:induction false} CnamesOfChain(chain: seq<RR>, rest: seq<RR>)
    requires forall i :: 0 <= i < |chain| ==> IsCname(chain[i])
    requires forall i :: 0 <= i < |rest| ==> !IsCname(rest[i])
    ensures Cnames(chain + rest) == chain
    decreases |rest|
  {
    if rest == [] {
      assert chain + rest == chain;
      CnamesOfCnames(chain);
    } else {
      assert (chain + rest)[..|chain + rest| - 1] == chain + rest[..|rest| - 1];
      CnamesOfChain(chain, rest[..|rest| - 1]);
    }
  }

  lemma {:induction false} MergedKnown(answer: seq<RR>, extra: seq<RR>)
    requires forall i :: 0 <= i < |extra| ==> extra[i] in answer
    ensures Merged(answer, extra) == answer
  {
    if extra != [] {
      MergedKnown(answer, extra[..|extra| - 1]);
    }
  }

  lemma {:induction false} MergedNew(answer: seq<RR>, extra: seq<RR>)
    requires forall i :: 0 <= i < |extra| ==> extra[i] !in answer
    requires forall i, j :: 0 <= i < j < |extra| ==> extra[i] != extra[j]
    ensures Merged(answer, extra) == answer + extra
  {
    if extra != [] {
      var n := |extra| - 1;
      MergedNew(answer, extra[..n]);
      assert extra == extra[..n] + [extra[n]];
      assert extra[n] !in extra[..n];
    }
  }

  /** Asking again the CNAMEs whose successors are already there adds nothing. */
  lemma {:induction false} RoundKnown(ask: Lookup, cnames: seq<RR>, answer: seq<RR>)
    requires forall i :: 0 <= i < |cnames| ==> ask(cnames[i].data).Some?
    requires forall i, rr :: 0 <= i < |cnames| && rr in ask(cnames[i].data).value ==> rr in answer
    ensures Round(ask, cnames, answer) == Some(answer)
  {
    if cnames != [] {
      RoundKnown(ask, cnames[..|cnames| - 1], answer);
      MergedKnown(answer, ask(cnames[|cnames| - 1].data).value);
    }
  }

  lemma CnamesOfLinks(ask: Lookup, chain: seq<RR>, addresses: seq<RR>, n: nat)
    requires IsChain(ask, chain, addresses) && n <= |chain|
    ensures Cnames(chain[..n]) == chain[..n]
  {
    CnamesOfCnames(chain[..n]);
  }

  /** The links before the last one seen lead nowhere new. */
  lemma KnownLinks(ask: Lookup, chain: seq<RR>, addresses: seq<RR>, i: nat)
    requires IsChain(ask, chain, addresses) && i < |chain|
    ensures Round(ask, chain[..i], chain[..i + 1]) == Some(chain[..i + 1])
  {
    var known, seen := chain[..i], chain[..i + 1];
    forall j | 0 <= j < |known|
      ensures ask(known[j].data).Some? && forall rr :: rr in ask(known[j].data).value ==> rr in seen
    {
      assert LeadsToNext(ask, chain, j);
      assert seen[j + 1] == chain[j + 1];
    }
    RoundKnown(ask, known, seen);
  }

  /** A round over the first i+1 links finds the next one, or the addresses. */
  lemma RoundOnChain(ask: Lookup, chain: seq<RR>, addresses: seq<RR>, i: nat)
    requires IsChain(ask, chain, addresses) && i < |chain|
    ensures Round(ask, chain[..i + 1], chain[..i + 1])
            == Some(if i + 1 < |chain| then chain[..i + 2] else chain + addresses)
  {
    var seen := chain[..i + 1];
    KnownLinks(ask, chain, addresses, i);
    assert seen[..i] == chain[..i] && seen[i] == chain[i];
    if i + 1 < |chain| {
      assert LeadsToNext(ask, chain, i);
      MergedNew(seen, [chain[i + 1]]);
      assert chain[..i + 2] == seen + [chain[i + 1]];
    } else {
      MergedNew(seen, addresses);
      assert seen == chain;
    }
  }

  lemma ChainCanBeFollowed(ask: Lookup, qtype: RRType, chain: seq<RR>, addresses: seq<RR>, i: nat)
    requires IsChain(ask, chain, addresses) && !qtype.CNAME? && i < |chain|
    ensures CanFollow(qtype, chain[..i + 1])
  {
    assert IsCname(chain[..i + 1][0]);
  }

  /** Unfolds one round of a run. */
  lemma OneRound(ask: Lookup, qtype: RRType, answer: seq<RR>, depth: nat)
    requires depth > 0 && CanFollow(qtype, answer) && Round(ask, Cnames(answer), answer).Some?
    ensures var rest := Run(ask, qtype, Round(ask, Cnames(answer), answer).value, depth - 1);
            Run(ask, qtype, answer, depth) == rest.(rounds := rest.rounds + 1)
  {
  }

  /** From any link on, with enough rounds left, the whole chain and the addresses are found. */
  lemma {:induction false} RunOnChain(ask: Lookup, qtype: RRType, chain: seq<RR>, addresses: seq<RR>, i: nat, depth: nat, seen: seq<RR>, r: Result)
    requires IsChain(ask, chain, addresses) && !qtype.CNAME? && i < |chain| <= i + depth
    requires seen == chain[..i + 1] && r == Run(ask, qtype, seen, depth)
    ensures r.answer == chain + addresses && !r.faulted
    decreases depth
  {
    if i + 1 < |chain| {
      var next := chain[..i + 2];
      var rest := Run(ask, qtype, next, depth - 1);
      OneLink(ask, qtype, chain, addresses, i, depth, seen, next, r, rest);
      RunOnChain(ask, qtype, chain, addresses, i + 1, depth - 1, next, rest);
    } else {
      LastLink(ask, qtype, chain, addresses, depth, seen, r);
    }
  }

  lemma LastLink(ask: Lookup, qtype: RRType, chain: seq<RR>, addresses: seq<RR>, depth: nat, seen: seq<RR>, r: Result)
    requires IsChain(ask, chain, addresses) && !qtype.CNAME? && depth > 0
    requires seen == chain[..|chain|] && r == Run(ask, qtype, seen, depth)
    ensures r.answer == chain + addresses && !r.faulted
  {
    var full := chain + addresses;
    OneLink(ask, qtype, chain, addresses, |chain| - 1, depth, seen, full, r, Run(ask, qtype, full, depth - 1));
    WholeChainStays(ask, qtype, chain, addresses, full, depth - 1);
  }

  lemma WholeChainStays(ask: Lookup, qtype: RRType, chain: seq<RR>, addresses: seq<RR>, full: seq<RR>, depth: nat)
    requires IsChain(ask, chain, addresses) && full == chain + addresses
    ensures Run(ask, qtype, full, depth).answer == full && !Run(ask, qtype, full, depth).faulted
  {
    ChainIsFixpoint(ask, chain, addresses);
    FixpointIsFinal(ask, qtype, full, depth);
  }

  lemma OneLink(ask: Lookup, qtype: RRType, chain: seq<RR>, addresses: seq<RR>, i: nat, depth: nat,
                seen: seq<RR>, next: seq<RR>, r: Result, rest: Result)
    requires IsChain(ask, chain, addresses) && !qtype.CNAME? && i < |chain| && depth > 0
    requires seen == chain[..i + 1] && next == (if i + 1 < |chain| then chain[..i + 2] else chain + addresses)
    requires r == Run(ask, qtype, seen, depth) && rest == Run(ask, qtype, next, depth - 1)
    ensures r.answer == rest.answer && r.faulted == rest.faulted
  {
    RoundOnChain(ask, chain, addresses, i);
    CnamesOfLinks(ask, chain, addresses, i + 1);
    ChainCanBeFollowed(ask, qtype, chain, addresses, i);
    OneRound(ask, qtype, seen, depth);
  }

  lemma ChainIsFixpoint(ask: Lookup, chain: seq<RR>, addresses: seq<RR>)
    requires IsChain(ask, chain, addresses)
    ensures Round(ask, Cnames(chain + addresses), chain + addresses) == Some(chain + addresses)
  {
    CnamesOfChain(chain, addresses);
    forall j | 0 <= j < |chain|
      ensures ask(chain[j].data).Some? && forall rr :: rr in ask(chain[j].data).value ==> rr in chain + addresses
    {
      if j + 1 < |chain| {
        assert LeadsToNext(ask, chain, j);
        assert (chain + addresses)[j + 1] == chain[j + 1];
      }
    }
    RoundKnown(ask, chain, chain + addresses);
  }

  /** A chain of k CNAMEs within the depth limit yields those CNAMEs in order, followed by the addresses. */
  lemma ChainIsFollowed(ask: Lookup, qtype: RRType, chain: seq<RR>, addresses: seq<RR>, depth: nat)
    requires IsChain(ask, chain, addresses) && !qtype.CNAME? && |chain| <= depth
    ensures Run(ask, qtype, [chain[0]], depth).answer == chain + addresses
    ensures !Run(ask, qtype, [chain[0]], depth).faulted
  {
    assert chain[..1] == [chain[0]];
    RunOnChain(ask, qtype, chain, addresses, 0, depth, [chain[0]], Run(ask, qtype, [chain[0]], depth));
  }
}
