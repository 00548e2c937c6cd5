/**
 The upstream lookup (`resolver.go`, `Lookup`): DoH first if configured, then a race of nameserver
 workers. Workers are started in order, one per tick; each offers its answer to a one-slot channel
 without blocking; the caller takes the first answer it sees, or polls once after all have finished.
 A run is any sequence of enabled actions: every interleaving, every outcome of every exchange.
 */
module UpstreamRace {
  import opened Text

  const SERVFAIL: nat := 2

  datatype Msg = Msg(rcode: nat, body: string)

  /** How one exchange with a nameserver ends. */
  datatype Exchange = SocketError | Reply(msg: Msg)

  predicate Failed(x: Exchange) {
    x.SocketError? || x.msg.rcode == SERVFAIL
  }

  datatype Worker = NotStarted | Asking | Offering(msg: Msg) | Done(exchange: Exchange)

  datatype Source = FromDoh | FromServer(index: nat)

  datatype Outcome = Answer(msg: Msg, source: Source) | ResolveError

  datatype Caller =
    | AskingDoh
    | Starting(next: nat)   // at the head of the loop
    | Selecting(last: nat)  // in the select, after starting worker `last`
    | Waiting               // in wg.Wait
    | Polling               // at the final select
    | Returned(outcome: Outcome)

  datatype State = State(
    caller: Caller,
    workers: seq<Worker>,
    asked: nat,                        // how many workers were started
    slot: Option<(Msg, nat)>,          // the channel: an answer and the server it came from
    doh: Option<Msg>)                  // the answer of the DoH lookup, if it gave one

  function Init(n: nat, useDoh: bool): State {
    State(if useDoh then AskingDoh else Starting(0), seq(n, _ => NotStarted), 0, None, None)
  }

  datatype Action =
    | DohEnds(reply: Option<Msg>)
    | Start
    | EndLoop
    | Receive
    | Tick
    | WaitEnds
    | Poll
    | ExchangeEnds(worker: nat, exchange: Exchange)
    | Offer(worker: nat)

  predicate AllDone(s: State) {
    forall j :: 0 <= j < |s.workers| && j < s.asked ==> s.workers[j].Done?
  }

  function Take(s: State): State
    requires s.slot.Some?
  {
    s.(caller := Returned(Answer(s.slot.value.0, FromServer(s.slot.value.1))), slot := None)
  }

  function Step(s: State, a: Action): Option<State> {
    match a
    case DohEnds(reply) =>
      if !s.caller.AskingDoh? then None
      else if reply.Some? then Some(s.(caller := Returned(Answer(reply.value, FromDoh)), doh := reply))
      else Some(s.(caller := Starting(0)))
    case Start =>
      if s.caller.Starting? && s.caller.next < |s.workers| then
        var i := s.caller.next;
        Some(s.(caller := Selecting(i), workers := s.workers[i := Asking], asked := i + 1))
      else None
    case EndLoop =>
      if s.caller.Starting? && s.caller.next >= |s.workers| then Some(s.(caller := Waiting)) else None
    case Receive =>
      if s.caller.Selecting? && s.slot.Some? then Some(Take(s)) else None
    case Tick =>
      if s.caller.Selecting? then Some(s.(caller := Starting(s.caller.last + 1))) else None
    case WaitEnds =>
      if s.caller.Waiting? && AllDone(s) then Some(s.(caller := Polling)) else None
    case Poll =>
      if !s.caller.Polling? then None
      else if s.slot.Some? then Some(Take(s))
      else Some(s.(caller := Returned(ResolveError)))
    case ExchangeEnds(j, x) =>
      if j >= |s.workers| || !s.workers[j].Asking? then None
      else if Failed(x) then Some(s.(workers := s.workers[j := Done(x)]))
      else Some(s.(workers := s.workers[j := Offering(x.msg)]))
    case Offer(j) =>
      if j >= |s.workers| || !s.workers[j].Offering? then None
      else
        var m := s.workers[j].msg;
        var s' := s.(workers := s.workers[j := Done(Reply(m))]);
        if s.slot.None? then Some(s'.(slot := Some((m, j)))) else Some(s')
  }

  function Exec(s: State, run: seq<Action>): Option<State>
    decreases run
  {
    if run == [] then Some(s)
    else match Step(s, run[0])
      case None => None
      case Some(next) => Exec(next, run[1..])
  }

  // -------- invariant --------

  /** Server j answered with m, and m is not a server failure. */
  predicate Answered(s: State, j: nat, m: Msg) {
    j < |s.workers| && s.workers[j] == Done(Reply(m)) && !Failed(Reply(m))
  }

  predicate AskedInOrder(s: State) {
    && s.asked <= |s.workers|
    && (forall j :: 0 <= j < |s.workers| ==> (s.workers[j].NotStarted? <==> j >= s.asked))
    && match s.caller {
      case AskingDoh => s.asked == 0
      case Starting(i) => s.asked == i
      case Selecting(i) => s.asked == i + 1
      case Waiting => s.asked == |s.workers|
      case Polling => s.asked == |s.workers| && AllDone(s)
      case Returned(_) => true
    }
  }

  predicate SlotHonest(s: State) {
    && (s.slot.Some? ==> Answered(s, s.slot.value.1, s.slot.value.0))
    && (forall j :: 0 <= j < |s.workers| && s.workers[j].Offering? ==> !Failed(Reply(s.workers[j].msg)))
    // an answer that was offered is still in the slot unless the caller took one
    && (forall j :: 0 <= j < |s.workers| && s.workers[j].Done? && !Failed(s.workers[j].exchange)
          ==> s.slot.Some? || s.caller.Returned?)
  }

  predicate EveryServerFailed(s: State) {
    s.asked == |s.workers| && forall j :: 0 <= j < |s.workers| ==> s.workers[j].Done? && Failed(s.workers[j].exchange)
  }

  predicate OutcomeHonest(s: State) {
    && (s.doh.Some? ==> s.caller == Returned(Answer(s.doh.value, FromDoh)))
    && match s.caller {
      case Returned(ResolveError) => EveryServerFailed(s)
      case Returned(Answer(m, FromServer(j))) => Answered(s, j, m)
      case Returned(Answer(m, FromDoh)) => s.doh == Some(m)
      case _ => true
    }
  }

  predicate Invariant(s: State) {
    AskedInOrder(s) && SlotHonest(s) && OutcomeHonest(s)
  }

  lemma StepKeepsOrder(s: State, a: Action)
    requires AskedInOrder(s) && Step(s, a).Some?
    ensures AskedInOrder(Step(s, a).value) && |Step(s, a).value.workers| == |s.workers|
  {
  }

  lemma StepKeepsSlot(s: State, a: Action)
    requires AskedInOrder(s) && SlotHonest(s) && Step(s, a).Some?
    ensures SlotHonest(Step(s, a).value)
  {
  }

  lemma StepKeepsOutcome(s: State, a: Action)
    requires Invariant(s) && Step(s, a).Some?
    ensures OutcomeHonest(Step(s, a).value)
  {
  }

  lemma StepKeepsInvariant(s: State, a: Action)
    requires Invariant(s) && Step(s, a).Some?
    ensures Invariant(Step(s, a).value) && |Step(s, a).value.workers| == |s.workers|
  {
    StepKeepsOrder(s, a);
    StepKeepsSlot(s, a);
    StepKeepsOutcome(s, a);
  }

  lemma {:induction false} RunKeepsInvariant(s: State, run: seq<Action>)
    requires Invariant(s) && Exec(s, run).Some?
    ensures Invariant(Exec(s, run).value) && |Exec(s, run).value.workers| == |s.workers|
    decreases run
  {
    if run != [] {
      StepKeepsInvariant(s, run[0]);
      RunKeepsInvariant(Step(s, run[0]).value, run[1..]);
    }
  }

  // -------- the main results --------

  /** The exchange broke, or was answered with response code 2. */
  predicate Useless(w: Worker) {
    w.Done? && (w.exchange.SocketError? || w.exchange.msg.rcode == 2)
  }

  /** The lookup fails exactly when DoH gave no answer and every listed server was asked and failed. */
  lemma ErrorIffEveryServerFailed(n: nat, useDoh: bool, run: seq<Action>)
    requires Exec(Init(n, useDoh), run).Some?
    ensures var s := Exec(Init(n, useDoh), run).value;
            s.caller.Returned? ==>
              (s.caller.outcome == ResolveError <==>
                s.doh.None? && s.asked == n && |s.workers| == n && forall j :: 0 <= j < n ==> Useless(s.workers[j]))
  {
    RunKeepsInvariant(Init(n, useDoh), run);
  }

  /** What a DoH answer leads to: the caller has returned it and no server was asked. */
  predicate DohAnswered(s: State, m: Msg) {
    s.caller == Returned(Answer(m, FromDoh)) && s.asked == 0 && s.doh == Some(m) && forall j :: 0 <= j < |s.workers| ==> s.workers[j].NotStarted?
  }

  lemma DohAnswerEndsTheRun(s: State, run: seq<Action>, m: Msg)
    requires DohAnswered(s, m) && Exec(s, run).Some?
    ensures run == []
  {
  }

  lemma {:induction false} DohStaysAway(s: State, run: seq<Action>)
    requires !s.caller.AskingDoh? && Exec(s, run).Some?
    ensures !Exec(s, run).value.caller.AskingDoh? && Exec(s, run).value.doh == s.doh
    decreases run
  {
    if run != [] {
      DohStaysAway(Step(s, run[0]).value, run[1..]);
    }
  }

  /**
   DoH is asked first exactly when it is configured. If it answers, the lookup is over with that answer
   and no server is asked; if not, or if it is not configured, no answer comes from it.
   */
  lemma DohComesFirst(n: nat, useDoh: bool, run: seq<Action>)
    requires run != [] && Exec(Init(n, useDoh), run).Some?
    ensures run[0].DohEnds? <==> useDoh
    ensures var s := Exec(Init(n, useDoh), run).value;
            if useDoh && run[0].reply.Some? then run == [run[0]] && s.asked == 0 && s.caller == Returned(Answer(run[0].reply.value, FromDoh))
            else s.doh.None? && (s.caller.Returned? && s.caller.outcome.Answer? ==> s.caller.outcome.source.FromServer?)
  {
    var s0 := Init(n, useDoh);
    var s1 := Step(s0, run[0]).value;
    if useDoh && run[0].reply.Some? {
      DohAnswerEndsTheRun(s1, run[1..], run[0].reply.value);
      assert run == [run[0]] + run[1..];
    } else {
      DohStaysAway(s1, run[1..]);
      RunKeepsInvariant(s0, run);
    }
  }

  /** Any answer is the DoH answer, or came from a listed server whose exchange neither broke nor ended in SERVFAIL. */
  lemma AnswerCameFromAServer(n: nat, useDoh: bool, run: seq<Action>)
    requires Exec(Init(n, useDoh), run).Some?
    ensures var s := Exec(Init(n, useDoh), run).value;
            s.caller.Returned? && s.caller.outcome.Answer? ==>
              match s.caller.outcome.source {
                case FromDoh => s.doh == Some(s.caller.outcome.msg) && s.asked == 0
                case FromServer(j) => j < s.asked && j < n && Answered(s, j, s.caller.outcome.msg) && s.caller.outcome.msg.rcode != 2
              }
  {
    RunKeepsInvariant(Init(n, useDoh), run);
    DohAsksNobody(Init(n, useDoh), run);
  }

  lemma {:induction false} DohAsksNobody(s: State, run: seq<Action>)
    requires Invariant(s) && (s.doh.Some? ==> s.asked == 0) && Exec(s, run).Some?
    ensures Exec(s, run).value.doh.Some? ==> Exec(s, run).value.asked == 0
    decreases run
  {
    if run != [] {
      StepKeepsInvariant(s, run[0]);
      DohAsksNobody(Step(s, run[0]).value, run[1..]);
    }
  }

  /** At every moment the servers asked are the first `asked` of the list. */
  lemma ServersAskedInOrder(n: nat, useDoh: bool, run: seq<Action>)
    requires Exec(Init(n, useDoh), run).Some?
    ensures var s := Exec(Init(n, useDoh), run).value;
            && |s.workers| == n && s.asked <= n
            && (forall j :: 0 <= j < n ==> (s.workers[j].NotStarted? <==> j >= s.asked))
  {
    RunKeepsInvariant(Init(n, useDoh), run);
  }

  /** The answer is in the slot or has been returned. */
  predicate Won(s: State, m: Msg, j: nat) {
    if s.caller.Returned? then s.caller.outcome == Answer(m, FromServer(j)) else s.slot == Some((m, j))
  }

  lemma StepKeepsWinner(s: State, a: Action, m: Msg, j: nat)
    requires Won(s, m, j) && AskedInOrder(s) && SlotHonest(s) && Step(s, a).Some?
    requires s.caller.AskingDoh? ==> s.slot.None?
    ensures Won(Step(s, a).value, m, j)
  {
  }

  /** No worker runs while DoH is asked, so nothing is offered. */
  lemma NothingOfferedBeforeDoh(s: State)
    requires AskedInOrder(s) && SlotHonest(s) && s.caller.AskingDoh?
    ensures s.slot.None?
  {
  }

  lemma {:induction false} WinnerStays(s: State, run: seq<Action>, m: Msg, j: nat)
    requires Invariant(s) && Won(s, m, j) && Exec(s, run).Some?
    ensures Won(Exec(s, run).value, m, j)
    decreases run
  {
    if run != [] {
      if s.caller.AskingDoh? {
        NothingOfferedBeforeDoh(s);
      }
      StepKeepsInvariant(s, run[0]);
      StepKeepsWinner(s, run[0], m, j);
      WinnerStays(Step(s, run[0]).value, run[1..], m, j);
    }
  }

  /**
   Once the slot holds an answer and the caller has not returned, then after every continuation the slot
   still holds it, or the caller has returned exactly that answer.
   */
  lemma FirstOfferWins(n: nat, useDoh: bool, run: seq<Action>, s: State, more: seq<Action>, m: Msg, j: nat)
    requires Exec(Init(n, useDoh), run) == Some(s) && s.slot == Some((m, j)) && !s.caller.Returned?
    requires Exec(s, more).Some?
    ensures var later := Exec(s, more).value;
            if later.caller.Returned? then later.caller.outcome == Answer(m, FromServer(j)) else later.slot == Some((m, j))
  {
    RunKeepsInvariant(Init(n, useDoh), run);
    WinnerStays(s, more, m, j);
  }

  // -------- termination --------

  function Left(w: Worker): nat {
    match w
    case Asking => 2
    case Offering(_) => 1
    case _ => 0
  }

  function LeftIn(ws: seq<Worker>): nat {
    if ws == [] then 0 else Left(ws[0]) + LeftIn(ws[1..])
  }

  lemma {:induction false} LeftAfterUpdate(ws: seq<Worker>, i: nat, w: Worker)
    requires i < |ws|
    ensures LeftIn(ws[i := w]) == LeftIn(ws) - Left(ws[i]) + Left(w)
  {
    if i == 0 {
      assert ws[0 := w][1..] == ws[1..];
    } else {
      assert ws[i := w][1..] == ws[1..][i - 1 := w];
      LeftAfterUpdate(ws[1..], i - 1, w);
    }
  }

  /** Steps that can still be taken: by the caller, and by the workers that run. */
  function Measure(s: State): int {
    var n := |s.workers|;
    LeftIn(s.workers) + match s.caller {
      case AskingDoh => 4 * n + 4
      case Starting(i) => 4 * (n - i) + 3
      case Selecting(i) => 4 * (n - i - 1) + 4
      case Waiting => 2
      case Polling => 1
      case Returned(_) => 0
    }
  }

  lemma StepDecreases(s: State, a: Action)
    requires Invariant(s) && Step(s, a).Some?
    ensures 0 <= Measure(Step(s, a).value) < Measure(s)
  {
    match a {
      case Start => LeftAfterUpdate(s.workers, s.caller.next, Asking);
      case ExchangeEnds(j, x) =>
        LeftAfterUpdate(s.workers, j, if Failed(x) then Done(x) else Offering(x.msg));
      case Offer(j) => LeftAfterUpdate(s.workers, j, Done(Reply(s.workers[j].msg)));
      case _ =>
    }
  }

  lemma {:induction false} RunShorterThanMeasure(s: State, run: seq<Action>)
    requires Invariant(s) && Exec(s, run).Some? && Measure(s) >= 0
    ensures |run| <= Measure(s)
    decreases run
  {
    if run != [] {
      StepKeepsInvariant(s, run[0]);
      StepDecreases(s, run[0]);
      RunShorterThanMeasure(Step(s, run[0]).value, run[1..]);
    }
  }

  lemma {:induction false} NothingLeftInitially(ws: seq<Worker>)
    requires forall j :: 0 <= j < |ws| ==> ws[j].NotStarted?
    ensures LeftIn(ws) == 0
  {
    if ws != [] {
      NothingLeftInitially(ws[1..]);
    }
  }

  /** Every run, whatever the interleaving, has at most 4n + 4 steps. */
  lemma RunsAreShort(n: nat, useDoh: bool, run: seq<Action>)
    requires Exec(Init(n, useDoh), run).Some?
    ensures |run| <= 4 * n + 4
  {
    NothingLeftInitially(Init(n, useDoh).workers);
    RunShorterThanMeasure(Init(n, useDoh), run);
  }

  /** No worker ever blocks on its send, whether or not the caller has returned. */
  lemma OfferNeverBlocks(s: State, j: nat)
    requires j < |s.workers| && s.workers[j].Offering?
    ensures Step(s, Offer(j)).Some? && Step(s, Offer(j)).value.workers[j].Done?
  {
  }

  /** A reachable state with no enabled action is one where the caller has returned and every started worker has finished. */
  lemma StuckOnlyWhenFinished(n: nat, useDoh: bool, run: seq<Action>)
    requires Exec(Init(n, useDoh), run).Some?
    requires forall a :: Step(Exec(Init(n, useDoh), run).value, a).None?
    ensures var s := Exec(Init(n, useDoh), run).value; s.caller.Returned? && AllDone(s)
  {
    RunKeepsInvariant(Init(n, useDoh), run);
    var s := Exec(Init(n, useDoh), run).value;
    forall j: nat | j < s.asked
      ensures s.workers[j].Done?
    {
      assert Step(s, ExchangeEnds(j, SocketError)).None?;
      assert Step(s, Offer(j)).None?;
    }
    assert Step(s, DohEnds(None)).None?;
    assert Step(s, Start).None?;
    assert Step(s, EndLoop).None?;
    assert Step(s, Tick).None?;
    assert Step(s, WaitEnds).None?;
    assert Step(s, Poll).None?;
  }
}
