/**
 Retirement (go/pfb_dns_gateway/decider.go): `markRetired`, then wait for `drained`, then `Close`.
 Nothing registered before is lost.
 */
module GatewayRetirement {
  import opened Common
  import opened FrameCodec
  import opened DecisionSession
  import opened GatewayProtocol
  import opened GatewayInvariant

  lemma {:induction false} RunKeepsDraining(g: Gateway, steps: seq<Step>, end: Gateway)
    requires Inv(g) && Runs(g, steps, end) && Draining(g.session)
    ensures Inv(end) && Draining(end.session)
    ensures g.session.idle == Some(Closed) ==> end.session.idle == Some(Closed)
    decreases |steps|
  {
    hide Apply, Enabled, Inv;
    if steps != [] {
      StepKeepsInv(g, steps[0]);
      StepMoves(g, steps[0]);
      RunKeepsDraining(Apply(g, steps[0]), steps[1..], end);
    }
  }

  /**
   A decider retired before anyone asked for `drained`: when that channel is closed the table is empty, it
   stays empty for ever, and every query ever registered already has its final frame.
   */
  lemma DrainedMeansFinished(start: Gateway, steps: seq<Step>, mid: Gateway, more: seq<Step>, end: Gateway)
    requires Inv(start) && start.session.retired && start.session.idle.None?
    requires Runs(start, steps, mid) && mid.session.idle == Some(Closed) && Runs(mid, more, end)
    ensures mid.session.calls == map[] && end.session.calls == map[]
    ensures forall q :: 0 <= q < |mid.queries| && mid.queries[q].id != 0 ==> mid.queries[q].given.Some?
  {
    RunKeepsDraining(start, steps, mid);
    RunKeepsDraining(mid, more, end);
    forall q | 0 <= q < |mid.queries| && mid.queries[q].id != 0
      ensures mid.queries[q].given.Some?
    {
      assert PlaceOk(mid.session, mid.reader, q, mid.queries[q]);
    }
  }

  /** Who waits for `drained` waits for some query. */
  predicate WaitsForSomeone(s: Session<nat>) {
    s.idle == Some(Open) ==> s.calls != map[]
  }

  lemma FinishKeepsWaiting(s: Session<nat>, id: U32)
    requires WaitsForSomeone(s)
    ensures WaitsForSomeone(Finish(s, id))
  {
    if s.idle == Some(Open) && Finish(s, id).calls == map[] {
      assert Finish(s, id).idle != Some(Open);
    }
  }

  lemma StepKeepsWaiting(g: Gateway, step: Step)
    requires Enabled(g, step) && WaitsForSomeone(g.session)
    ensures WaitsForSomeone(Apply(g, step).session)
  {
    hide QueryStep, Receiving, Deliver, Started, HandleFrame, Finish, DecisionSession.Drained;
    match step
    case Start => StartKeepsWaiting(g);
    case Read(f) =>
      ReadSession(g, f);
      FinishKeepsWaiting(g.session, f.id);
    case Drain => DrainKeepsWaiting(g.session);
    case _ => QuietStep(g, step);
  }

  lemma StartKeepsWaiting(g: Gateway)
    requires Enabled(g, Start) && WaitsForSomeone(g.session)
    ensures WaitsForSomeone(Started(g).session)
  {
    hide Register;
    var r := Register(g.session, |g.queries|);
    assert Started(g).session == r.0;
  }

  lemma DrainKeepsWaiting(s: Session<nat>)
    requires WaitsForSomeone(s)
    ensures WaitsForSomeone(DecisionSession.Drained(s))
    ensures s.calls == map[] && s.idle != Some(ClosedTwice) ==> DecisionSession.Drained(s).idle == Some(Closed)
  {
    assert |s.calls| == 0 <==> s.calls == map[];
    match s.idle
    case Some(Closed) =>
    case _ =>
  }

  lemma {:induction false} RunKeepsWaiting(g: Gateway, steps: seq<Step>, end: Gateway)
    requires Runs(g, steps, end) && WaitsForSomeone(g.session)
    ensures WaitsForSomeone(end.session)
    decreases |steps|
  {
    hide Apply, Enabled;
    if steps != [] {
      StepKeepsWaiting(g, steps[0]);
      RunKeepsWaiting(Apply(g, steps[0]), steps[1..], end);
    }
  }

  /**
   The order matters: from every reachable live state with an empty table whose decider is not retired, asking
   for `drained` before `markRetired` can end retired, with the channel closed and a query in the table: the
   closed channel then says nothing.
   */
  lemma DrainedBeforeRetiredSaysNothing(before: seq<Step>, g: Gateway) returns (steps: seq<Step>, end: Gateway)
    requires Runs(INITIAL, before, g)
    requires g.session.err.None? && !g.session.retired && g.session.calls == map[]
    ensures steps == [Drain, Start, Retire] && Runs(g, steps, end)
    ensures end.session.retired && end.session.idle == Some(Closed) && |end.session.calls| == 1
  {
    RunKeepsInv(INITIAL, before, g);
    RunKeepsWaiting(INITIAL, before, g);
    hide Apply, Enabled;
    end := LateRegistration(g);
    var a := Apply(g, Drain);
    var b := Apply(a, Start);
    steps := [];
    assert Runs(end, steps, end);
    steps := Before(b, Retire, steps, end);
    steps := Before(a, Start, steps, end);
    steps := Before(g, Drain, steps, end);
  }

  lemma LateRegistration(g: Gateway) returns (end: Gateway)
    requires SessionOk(g.session) && WaitsForSomeone(g.session)
    requires g.session.err.None? && !g.session.retired && g.session.calls == map[]
    ensures Enabled(g, Drain)
    ensures var a := Apply(g, Drain);
            Enabled(a, Start) && Enabled(Apply(a, Start), Retire) && end == Apply(Apply(a, Start), Retire)
    ensures end.session.retired && end.session.idle == Some(Closed) && |end.session.calls| == 1
  {
    DrainKeepsWaiting(g.session);
    var a := Apply(g, Drain);
    var b := Apply(a, Start);
    assert |a.session.calls| == 0 && |b.session.calls| == 1;
    end := Apply(b, Retire);
  }

  // ----- what a query with its final frame returns -----

  /** A step of anyone else changes a query only in its call, its tally and its final frame. */
  lemma OthersUntouched(g: Gateway, step: Step, q: nat)
    requires TableOk(g.session.calls, g.queries) && Enabled(g, step) && q < |g.queries|
    ensures var g' := Apply(g, step);
            && q < |g'.queries|
            && (Queries(step) == Some(q) ==> g'.queries[q] == QueryStep(g.queries[q], step))
            && (Queries(step) != Some(q) ==>
                  g'.queries[q].pc == g.queries[q].pc && g'.queries[q].id == g.queries[q].id)
            && (Queries(step) != Some(q) && g.queries[q].given.Some? ==>
                  g'.queries[q].given == g.queries[q].given && g'.queries[q].call.final == g.queries[q].call.final)
            && (Queries(step) != Some(q) && !step.HandOver? ==> g'.queries[q].call.forward == g.queries[q].call.forward)
  {
    hide Apply, Enabled, QueryStep, TableOk;
    if Queries(step).Some? {
      OwnStepShape(g, step, Queries(step).value);
    } else {
      SharedStepTouches(g, step, q);
    }
  }

  lemma SharedStepTouches(g: Gateway, step: Step, q: nat)
    requires TableOk(g.session.calls, g.queries) && Enabled(g, step) && q < |g.queries| && Queries(step).None?
    ensures var g' := Apply(g, step);
            && q < |g'.queries| && g'.queries[q].pc == g.queries[q].pc && g'.queries[q].id == g.queries[q].id
            && (g.queries[q].given.Some? ==>
                  g'.queries[q].given == g.queries[q].given && g'.queries[q].call.final == g.queries[q].call.final)
            && (!step.HandOver? ==> g'.queries[q].call.forward == g.queries[q].call.forward)
  {
    hide QueryStep, Register, HandleFrame, Fail, MarkRetired, DecisionSession.Drained;
    match step
    case Read(f) => ReadTouches(g, f, q);
    case _ =>
  }

  lemma ReadTouches(g: Gateway, f: Frame, q: nat)
    requires q < |g.queries|
    requires f.id in g.session.calls && g.session.calls[f.id] == q ==> g.queries[q].given.None?
    ensures var x, g' := g.queries[q], HandleFrame(g, f);
            && q < |g'.queries|
            && g'.queries[q].pc == x.pc && g'.queries[q].id == x.id && g'.queries[q].call.forward == x.call.forward
            && (x.given.Some? ==> g'.queries[q].given == x.given && g'.queries[q].call.final == x.call.final)
  {
    hide Finish, Fail;
  }

  /** The query has been given a, is past its QUERY write, and can no longer return anything else of its own. */
  predicate Holds(x: Query, a: Answer) {
    && x.given == Some(a)
    && match x.pc
       case Sending => false
       case Returned(o) => o == Answered(a) || o == ContextEnded
       case _ => x.call.final == Full(a) && x.id != 0
  }

  /** The query is on its way out because its context ended. */
  predicate ContextGone(x: Query) {
    x.pc == GivingUp || x.pc == ReplyingEmpty || x.pc == Returned(ContextEnded)
  }

  lemma OwnStepKeepsHolds(x: Query, step: Step, a: Answer)
    requires QueryOk(x) && AtStep(x, step) && Holds(x, a)
    ensures Holds(QueryStep(x, step), a)
    ensures !ContextGone(x) && !step.ContextEnds? ==> !ContextGone(QueryStep(x, step))
  {
  }

  lemma OthersKeepHolds(x: Query, x': Query, a: Answer)
    requires Holds(x, a) && x'.pc == x.pc && x'.id == x.id && x'.given == x.given && x'.call.final == x.call.final
    ensures Holds(x', a) && (ContextGone(x') <==> ContextGone(x))
  {
  }

  lemma StepKeepsHolds(g: Gateway, step: Step, q: nat, a: Answer)
    requires Inv(g) && Enabled(g, step) && q < |g.queries| && Holds(g.queries[q], a)
    ensures q < |Apply(g, step).queries| && Holds(Apply(g, step).queries[q], a)
    ensures !ContextGone(g.queries[q]) && step != ContextEnds(q) ==> !ContextGone(Apply(g, step).queries[q])
  {
    hide Apply, Enabled, QueryStep, QueryOk, PlaceOk;
    var x := g.queries[q];
    assert QueryOk(x);
    OthersUntouched(g, step, q);
    if Queries(step) == Some(q) {
      EnabledIsAtStep(g, step, q);
      OwnStepKeepsHolds(x, step, a);
    } else {
      OthersKeepHolds(x, Apply(g, step).queries[q], a);
    }
  }

  /**
   A query that has its final frame returns that answer and never a session error, however the run goes on
   and whenever the session ends; only its own context ending can make it return something else.
   */
  lemma {:induction false} FinalFrameIsReturned(g: Gateway, steps: seq<Step>, end: Gateway, q: nat, a: Answer)
    requires Inv(g) && Runs(g, steps, end) && q < |g.queries| && Holds(g.queries[q], a)
    ensures q < |end.queries| && Holds(end.queries[q], a)
    ensures !ContextGone(g.queries[q]) && ContextEnds(q) !in steps && end.queries[q].pc.Returned? ==>
              end.queries[q].pc.outcome == Answered(a)
    decreases |steps|
  {
    hide Apply, Enabled, Inv;
    if steps != [] {
      StepKeepsInv(g, steps[0]);
      StepKeepsHolds(g, steps[0], q, a);
      FinalFrameIsReturned(Apply(g, steps[0]), steps[1..], end, q, a);
    }
  }

  /** A query that has not returned holds its final frame once it is past its QUERY write. */
  lemma GivenIsHeld(x: Query, a: Answer)
    requires QueryOk(x) && x.given == Some(a) && !x.pc.Returned? && x.pc != Sending
    ensures Holds(x, a)
  {
  }

  /** Before that, its QUERY write can still fail, and `Decide` then returns the session's error. */
  lemma UnwrittenFails(g: Gateway, q: nat)
    requires q < |g.queries| && g.queries[q].pc == Sending
    ensures Enabled(g, SendQuery(q, false)) && Runs(g, [SendQuery(q, false)], Apply(g, SendQuery(q, false)))
    ensures Apply(g, SendQuery(q, false)).queries[q].pc == Returned(SessionFailed)
  {
    var end := Apply(g, SendQuery(q, false));
    assert Runs(end, [], end);
    var steps := Before(g, SendQuery(q, false), [], end);
  }

  /** Whatever everyone does, q returns nothing but a while its context lives. */
  ghost predicate SureOf(g: Gateway, q: nat, a: Answer) {
    forall steps: seq<Step>, end: Gateway | Runs(g, steps, end) && ContextEnds(q) !in steps ::
      q < |end.queries| && (end.queries[q].pc.Returned? ==> end.queries[q].pc.outcome == Answered(a))
  }

  /** A live query that was given its final frame is sure of it exactly when its QUERY was written. */
  lemma SureExactlyOnceWritten(g: Gateway, q: nat, a: Answer)
    requires Inv(g) && q < |g.queries| && g.queries[q].given == Some(a)
    requires !g.queries[q].pc.Returned? && !ContextGone(g.queries[q])
    ensures SureOf(g, q, a) <==> g.queries[q].pc != Sending
  {
    hide Apply, Enabled, Runs;
    if g.queries[q].pc == Sending {
      UnwrittenFails(g, q);
      assert ContextEnds(q) !in [SendQuery(q, false)];
    } else {
      assert QueryOk(g.queries[q]);
      GivenIsHeld(g.queries[q], a);
      forall steps: seq<Step>, end: Gateway | Runs(g, steps, end) && ContextEnds(q) !in steps
        ensures q < |end.queries| && (end.queries[q].pc.Returned? ==> end.queries[q].pc.outcome == Answered(a))
      {
        FinalFrameIsReturned(g, steps, end, q, a);
      }
    }
  }

  /**
   Retirement with an arbitrary decider: once the drain has completed every live query was given its final frame,
   and is sure of it exactly when its QUERY was written.
   */
  lemma DrainedLeavesOnlyUnwritten(start: Gateway, steps: seq<Step>, mid: Gateway, q: nat)
    requires Inv(start) && start.session.retired && start.session.idle.None?
    requires Runs(start, steps, mid) && mid.session.idle == Some(Closed)
    requires q < |mid.queries| && !mid.queries[q].pc.Returned? && !ContextGone(mid.queries[q])
    ensures mid.queries[q].given.Some?
    ensures SureOf(mid, q, mid.queries[q].given.value) <==> mid.queries[q].pc != Sending
  {
    RunKeepsInv(start, steps, mid);
    assert QueryOk(mid.queries[q]);
    assert Runs(mid, [], mid);
    DrainedMeansFinished(start, steps, mid, [], mid);
    SureExactlyOnceWritten(mid, q, mid.queries[q].given.value);
  }

  /** How many steps of its own a query has left once the reader hands it nothing more. */
  function Rank(x: Query): nat {
    var f := if x.call.forward.Full? then 4 else 0;
    match x.pc
    case Sending => 3 + f
    case Waiting => 2 + f
    case Serving(_) => 5
    case Replying(_) => 4 + f
    case GivingUp => 1 + f
    case ReplyingEmpty => 1
    case Ending => 1 + f
    case Returned(_) => 0
  }

  lemma OwnStepCounts(x: Query, step: Step)
    requires QueryOk(x) && AtStep(x, step)
    ensures Rank(QueryStep(x, step)) < Rank(x)
  {
  }

  lemma SameRank(x: Query, x': Query)
    requires x'.pc == x.pc && x'.call.forward == x.call.forward
    ensures Rank(x') == Rank(x)
  {
  }

  /** A query's own step brings it closer to its return, and no step but the reader's delivery sets it back. */
  lemma OwnStepsCount(g: Gateway, step: Step, q: nat)
    requires Inv(g) && Enabled(g, step) && q < |g.queries|
    ensures q < |Apply(g, step).queries|
    ensures Queries(step) == Some(q) ==> Rank(Apply(g, step).queries[q]) < Rank(g.queries[q])
    ensures Queries(step) != Some(q) && !step.HandOver? ==> Rank(Apply(g, step).queries[q]) == Rank(g.queries[q])
  {
    hide Apply, Enabled, QueryStep, Rank, QueryOk, PlaceOk;
    assert QueryOk(g.queries[q]);
    OthersUntouched(g, step, q);
    if Queries(step) == Some(q) {
      EnabledIsAtStep(g, step, q);
      OwnStepCounts(g.queries[q], step);
    } else if !step.HandOver? {
      SameRank(g.queries[q], Apply(g, step).queries[q]);
    }
  }

  /** After the session ended no query is stuck: until it has returned it has a step to take, other than giving up. */
  lemma EndedSessionReleases(g: Gateway, q: nat) returns (step: Step)
    requires Inv(g) && g.session.err.Some? && q < |g.queries| && !g.queries[q].pc.Returned?
    ensures Enabled(g, step) && Queries(step) == Some(q) && step != ContextEnds(q)
  {
    match g.queries[q].pc
    case Sending => step := SendQuery(q, false);
    case Waiting => step := SeeDone(q);
    case Serving(_) => step := Served(q, []);
    case Replying(_) => step := SendReply(q, false);
    case GivingUp => step := MarkAbandoned(q);
    case ReplyingEmpty => step := SendEmpty(q, false);
    case Ending => step := Conclude(q);
  }
}
