/** Every step of the gateway keeps the invariant, whatever the decider sends; and what follows for all runs. */
module GatewayInvariant {
  import opened Common
  import opened FrameCodec
  import opened DecisionSession
  import opened GatewayProtocol

  // ----- what a change of one query, of the reader and of the session's signals keeps -----

  lemma PlaceStays(s: Session<nat>, s': Session<nat>, r: Reader, r': Reader, q: nat, x: Query)
    requires PlaceOk(s, r, q, x)
    requires s'.calls == s.calls && (s.err.Some? ==> s'.err.Some?) && ReaderHolds(r', q) == ReaderHolds(r, q)
    ensures PlaceOk(s', r', q, x)
  {
  }

  lemma SessionMoves(g: Gateway, s: Session<nat>, r: Reader)
    requires Inv(g) && SessionOk(s) && s.calls == g.session.calls && (g.session.err.Some? ==> s.err.Some?)
    requires r == g.reader || (g.reader == Reading && r == Stopped)
    ensures Inv(g.(session := s, reader := r))
  {
    hide QueryOk, PlaceOk, TableOk;
    forall p | 0 <= p < |g.queries|
      ensures QueryOk(g.queries[p]) && PlaceOk(s, r, p, g.queries[p])
    {
      assert QueryOk(g.queries[p]) && PlaceOk(g.session, g.reader, p, g.queries[p]);
      PlaceStays(g.session, s, g.reader, r, p, g.queries[p]);
    }
  }

  /** x takes the place of a query with its id and final frame. */
  predicate Succeeds(x: Query, before: Query) {
    x.id == before.id && x.given == before.given && (before.call.abandoned ==> x.call.abandoned)
  }

  lemma TableStays(calls: map<U32, nat>, queries: seq<Query>, q: nat, x: Query)
    requires TableOk(calls, queries) && q < |queries| && Succeeds(x, queries[q])
    ensures TableOk(calls, queries[q := x])
  {
  }

  lemma ReaderStays(r: Reader, calls: map<U32, nat>, queries: seq<Query>, q: nat, x: Query)
    requires ReaderOk(r, calls, queries) && q < |queries| && Succeeds(x, queries[q])
    ensures ReaderOk(r, calls, queries[q := x])
  {
  }

  /** Only the query q, the reader's hold on q and the session's error change. */
  lemma MoveKeeps(g: Gateway, s: Session<nat>, r: Reader, q: nat, x: Query)
    requires Inv(g) && q < |g.queries| && Succeeds(x, g.queries[q])
    requires SessionOk(s) && s.calls == g.session.calls && (g.session.err.Some? ==> s.err.Some?)
    requires ReaderOk(r, s.calls, g.queries) && forall p :: p != q ==> ReaderHolds(r, p) == ReaderHolds(g.reader, p)
    requires QueryOk(x) && PlaceOk(s, r, q, x)
    ensures Inv(g.(session := s, reader := r, queries := g.queries[q := x]))
  {
    hide QueryOk, PlaceOk, TableOk, ReaderOk, ReaderHolds, Succeeds;
    TableStays(s.calls, g.queries, q, x);
    ReaderStays(r, s.calls, g.queries, q, x);
    var queries := g.queries[q := x];
    forall p | 0 <= p < |queries|
      ensures QueryOk(queries[p]) && PlaceOk(s, r, p, queries[p])
    {
      assert QueryOk(g.queries[p]) && PlaceOk(g.session, g.reader, p, g.queries[p]);
      if p != q {
        assert ReaderHolds(r, p) == ReaderHolds(g.reader, p);
        PlaceStays(g.session, s, g.reader, r, p, g.queries[p]);
      }
    }
  }

  // ----- every step -----

  lemma StartedPlace(g: Gateway, p: nat)
    requires Inv(g) && p < |Started(g).queries|
    ensures var g' := Started(g);
            QueryOk(g'.queries[p]) && PlaceOk(g'.session, g'.reader, p, g'.queries[p])
  {
    if p < |g.queries| {
      assert QueryOk(g.queries[p]) && PlaceOk(g.session, g.reader, p, g.queries[p]);
    }
  }

  lemma TableGrows(calls: map<U32, nat>, queries: seq<Query>, id: U32, x: Query)
    requires TableOk(calls, queries) && id != 0 && id !in calls && x.id == id && x.given.None?
    ensures TableOk(calls[id := |queries|], queries + [x])
  {
  }

  lemma TableExtends(r: Reader, calls: map<U32, nat>, queries: seq<Query>, x: Query)
    requires TableOk(calls, queries) && ReaderOk(r, calls, queries)
    ensures TableOk(calls, queries + [x]) && ReaderOk(r, calls, queries + [x])
  {
  }

  lemma ReaderGrows(r: Reader, calls: map<U32, nat>, queries: seq<Query>, id: U32, q: nat)
    requires ReaderOk(r, calls, queries) && id !in calls
    ensures ReaderOk(r, calls[id := q], queries)
  {
  }

  /** What Start does to the parts of the state that are not one query's. */
  lemma StartedTable(g: Gateway)
    requires Inv(g)
    ensures var g' := Started(g);
            && TableOk(g'.session.calls, g'.queries) && ReaderOk(g'.reader, g'.session.calls, g'.queries)
            && SessionOk(g'.session) && g'.ready == g.ready && g'.readySeen == g.readySeen
  {
    hide TableOk, ReaderOk, Register, QueriesOk;
    var id, x := Register(g.session, |g.queries|).1, Started(g).queries[|g.queries|];
    TableExtends(g.reader, g.session.calls, g.queries, x);
    if id.Id? {
      ReaderGrows(g.reader, g.session.calls, g.queries + [x], id.id, |g.queries|);
      TableGrows(g.session.calls, g.queries, id.id, x);
    }
  }

  lemma StartKeeps(g: Gateway)
    requires Inv(g)
    ensures Inv(Started(g))
  {
    StartedTable(g);
    hide QueryOk, PlaceOk, TableOk, ReaderOk, Register, Started;
    var g' := Started(g);
    forall p | 0 <= p < |g'.queries|
      ensures QueryOk(g'.queries[p]) && PlaceOk(g'.session, g'.reader, p, g'.queries[p])
    {
      StartedPlace(g, p);
    }
  }

  predicate AtStep(x: Query, step: Step) {
    match step
    case SendQuery(_, _) => x.pc == Sending
    case PickUp(_) => x.pc == Waiting && x.call.forward.Full?
    case Served(_, _) => x.pc.Serving?
    case SendReply(_, _) => x.pc.Replying?
    case TakeFinal(_) => x.pc == Waiting && x.call.final.Full?
    case ContextEnds(_) => x.pc == Waiting
    case MarkAbandoned(_) => x.pc == GivingUp
    case SendEmpty(_, _) => x.pc == ReplyingEmpty
    case SeeDone(_) => x.pc == Waiting
    case Conclude(_) => x.pc == Ending
    case _ => false
  }

  lemma EnabledIsAtStep(g: Gateway, step: Step, q: nat)
    requires Enabled(g, step) && Queries(step) == Some(q)
    ensures q < |g.queries| && AtStep(g.queries[q], step)
  {
  }

  lemma QueryStepIsOk(x: Query, step: Step)
    requires QueryOk(x) && AtStep(x, step)
    ensures QueryOk(QueryStep(x, step))
    ensures Succeeds(QueryStep(x, step), x)
  {
  }

  /** What a query replied to and what it has not replied to change together, unless a REPLY was not written. */
  lemma QueryStepBalance(x: Query, step: Step)
    requires QueryOk(x) && AtStep(x, step)
    ensures var x' := QueryStep(x, step);
            && x'.tally == x.tally
            && |x'.log.replies| + Unreplied(x') <= |x.log.replies| + Unreplied(x)
            && (!WriteFails(step) ==> |x'.log.replies| + Unreplied(x') == |x.log.replies| + Unreplied(x))
  {
  }

  lemma QueryStepEnds(x: Query, step: Step)
    requires AtStep(x, step)
    ensures var pc := QueryStep(x, step).pc;
            pc == Ending || pc == Returned(SessionFailed) ==> WriteFails(step) || step.SeeDone? || x.pc == Ending
  {
  }

  lemma QueryStepPlace(s: Session<nat>, s': Session<nat>, r: Reader, q: nat, x: Query, step: Step)
    requires QueryOk(x) && AtStep(x, step) && PlaceOk(s, r, q, x)
    requires s'.calls == s.calls && (s.err.Some? ==> s'.err.Some?)
    requires step.SeeDone? || WriteFails(step) ==> s'.err.Some?
    ensures PlaceOk(s', r, q, QueryStep(x, step))
  {
    hide QueryOk, AtStep, QueryStep, Unreplied, ReaderHolds, WriteFails;
    QueryStepIsOk(x, step);
    QueryStepBalance(x, step);
    QueryStepEnds(x, step);
  }

  /** A query's own step changes that query, and the session when its write fails. */
  lemma OwnStepShape(g: Gateway, step: Step, q: nat)
    requires Enabled(g, step) && Queries(step) == Some(q)
    ensures q < |g.queries|
    ensures Apply(g, step) ==
            g.(session := if WriteFails(step) then Fail(g.session, WriteFailed) else g.session,
               queries := g.queries[q := QueryStep(g.queries[q], step)])
  {
    hide QueryStep, Fail, WriteFails;
  }

  lemma QueryStepKeeps(g: Gateway, step: Step)
    requires Inv(g) && Enabled(g, step) && Queries(step).Some?
    ensures Inv(Apply(g, step))
  {
    hide QueryOk, PlaceOk, QueryStep, AtStep, TableOk, ReaderOk, ReaderHolds, Apply, WriteFails;
    var q := Queries(step).value;
    OwnStepShape(g, step, q);
    var x := g.queries[q];
    var s := if WriteFails(step) then Fail(g.session, WriteFailed) else g.session;
    assert QueryOk(x) && PlaceOk(g.session, g.reader, q, x);
    EnabledIsAtStep(g, step, q);
    QueryStepIsOk(x, step);
    QueryStepPlace(g.session, s, g.reader, q, x, step);
    MoveKeeps(g, s, g.reader, q, QueryStep(x, step));
  }

  lemma FinishedPlace(g: Gateway, id: U32, answer: Answer, p: nat)
    requires TableOk(g.session.calls, g.queries) && g.reader == Reading && p < |g.queries|
    requires QueryOk(g.queries[p]) && PlaceOk(g.session, g.reader, p, g.queries[p])
    ensures var g' := Finished(g, id, answer);
            QueryOk(g'.queries[p]) && PlaceOk(g'.session, g'.reader, p, g'.queries[p])
  {
    hide Finish;
  }

  lemma FinishedTable(g: Gateway, id: U32, answer: Answer)
    requires Inv(g)
    ensures var g' := Finished(g, id, answer);
            TableOk(g'.session.calls, g'.queries) && SessionOk(g'.session)
  {
    hide Finish, Put, QueriesOk, TableOk, ReaderOk;
    FinishShrinks(g.session, id);
    TableShrinks(g.session.calls, g.queries, id, Finished(g, id, answer).queries);
  }

  lemma TableShrinks(calls: map<U32, nat>, queries: seq<Query>, id: U32, queries': seq<Query>)
    requires TableOk(calls, queries) && |queries'| == |queries|
    requires forall q :: 0 <= q < |queries| && !(id in calls && calls[id] == q) ==> queries'[q] == queries[q]
    ensures TableOk(calls - {id}, queries')
  {
  }

  lemma FinishKeeps(g: Gateway, id: U32, answer: Answer)
    requires Inv(g) && g.reader == Reading
    ensures Inv(Finished(g, id, answer))
  {
    var g' := Finished(g, id, answer);
    FinishedTable(g, id, answer);
    forall p | 0 <= p < |g'.queries|
      ensures QueryOk(g'.queries[p]) && PlaceOk(g'.session, g'.reader, p, g'.queries[p])
    {
      FinishedPlace(g, id, answer, p);
    }
  }

  lemma ForwardPlace(g: Gateway, f: Frame, p: nat)
    requires g.reader == Reading && f.typ == FORWARD && |f.payload| <= MAX_WIRE && p < |g.queries|
    requires TableOk(g.session.calls, g.queries)
    requires QueryOk(g.queries[p]) && PlaceOk(g.session, g.reader, p, g.queries[p])
    ensures var g' := HandleFrame(g, f);
            |g'.queries| == |g.queries| && QueryOk(g'.queries[p]) && PlaceOk(g'.session, g'.reader, p, g'.queries[p])
  {
  }

  lemma ForwardKeeps(g: Gateway, f: Frame)
    requires Inv(g) && g.reader == Reading && f.typ == FORWARD && |f.payload| <= MAX_WIRE
    ensures Inv(HandleFrame(g, f))
  {
    var g' := HandleFrame(g, f);
    forall p | 0 <= p < |g'.queries|
      ensures QueryOk(g'.queries[p]) && PlaceOk(g'.session, g'.reader, p, g'.queries[p])
    {
      ForwardPlace(g, f, p);
    }
  }

  lemma ReadKeeps(g: Gateway, f: Frame)
    requires Inv(g) && g.reader == Reading
    ensures Inv(HandleFrame(g, f))
  {
    hide Inv, Finished, Failing;
    if f.typ == FORWARD && |f.payload| <= MAX_WIRE {
      ForwardKeeps(g, f);
    } else if f.typ == DROP {
      FinishKeeps(g, f.id, Dropped);
    } else if f.typ == ANSWER && f.payload != [] && |f.payload| <= MAX_WIRE {
      FinishKeeps(g, f.id, Wire(f.payload));
    } else if f.typ == FORWARD || f.typ != READY || g.readySeen || f.id != 0 || f.payload != [] {
      StopKeeps(g, ProtocolError);
    } else {
      ReadyKeeps(g);
    }
  }

  lemma ReadyKeeps(g: Gateway)
    requires Inv(g) && !g.readySeen
    ensures Inv(g.(readySeen := true, ready := CloseSignal(g.ready)))
  {
    hide QueryOk, PlaceOk, TableOk, ReaderOk;
  }

  lemma StopKeeps(g: Gateway, e: SessionError)
    requires Inv(g) && g.reader == Reading
    ensures Inv(Failing(g, e).(reader := Stopped))
  {
    hide Inv;
    FailIsOk(g, e);
    SessionMoves(g, Fail(g.session, e), Stopped);
  }

  lemma FailIsOk(g: Gateway, e: SessionError)
    requires Inv(g)
    ensures var s := Fail(g.session, e); SessionOk(s) && s.calls == g.session.calls && s.err.Some?
  {
    hide QueriesOk, TableOk, ReaderOk;
  }

  lemma ReceivingPlace(s: Session<nat>, id: U32, q: nat, x: Query, wire: Bytes)
    requires QueryOk(x) && PlaceOk(s, Delivering(id, q, wire), q, x)
    ensures var gone := Deliver(x.call, wire).1;
            && QueryOk(Receiving(x, wire)) && Succeeds(Receiving(x, wire), x) && (gone ==> x.call.abandoned)
            && PlaceOk(s, if gone then AnsweringFor(id, q) else Reading, q, Receiving(x, wire))
  {
  }

  lemma HandOverKeeps(g: Gateway)
    requires Inv(g) && Enabled(g, HandOver)
    ensures Inv(Apply(g, HandOver))
  {
    hide QueryOk, PlaceOk, Receiving, Deliver, TableOk;
    var q, x, wire := g.reader.q, g.queries[g.reader.q], g.reader.wire;
    var r := if Deliver(x.call, wire).1 then AnsweringFor(g.reader.id, q) else Reading;
    assert QueryOk(x) && PlaceOk(g.session, g.reader, q, x);
    ReceivingPlace(g.session, g.reader.id, q, x, wire);
    MoveKeeps(g, g.session, r, q, Receiving(x, wire));
  }

  lemma ReaderReplyPlace(s: Session<nat>, id: U32, q: nat, x: Query, ok: bool)
    requires QueryOk(x) && PlaceOk(s, AnsweringFor(id, q), q, x)
    ensures var x' := if ok then Counted(x, []) else x;
            && QueryOk(x') && Succeeds(x', x)
            && (ok ==> PlaceOk(s, Reading, q, x'))
            && (!ok ==> PlaceOk(Fail(s, WriteFailed), Reading, q, x'))
  {
  }

  lemma ReaderReplyKeeps(g: Gateway, ok: bool)
    requires Inv(g) && Enabled(g, ReaderReply(ok))
    ensures Inv(Apply(g, ReaderReply(ok)))
  {
    hide QueryOk, PlaceOk, TableOk, Counted, Fail;
    var q, x := g.reader.q, g.queries[g.reader.q];
    var s := if ok then g.session else Fail(g.session, WriteFailed);
    var x' := if ok then Counted(x, []) else x;
    assert QueryOk(x) && PlaceOk(g.session, g.reader, q, x);
    FailIsOk(g, WriteFailed);
    ReaderReplyPlace(g.session, g.reader.id, q, x, ok);
    MoveKeeps(g, s, Reading, q, x');
    assert g.queries[q := x] == g.queries;
  }

  lemma SignalKeeps(g: Gateway, step: Step)
    requires Inv(g) && (step == Retire || step == Drain || step == Close)
    ensures Inv(Apply(g, step))
  {
    SignalsAreOk(g.session);
    hide Inv, SessionOk, MarkRetired, DecisionSession.Drained;
    SessionMoves(g, Apply(g, step).session, g.reader);
  }

  lemma SignalsAreOk(s: Session<nat>)
    requires SessionOk(s)
    ensures SessionOk(MarkRetired(s)) && MarkRetired(s).calls == s.calls && MarkRetired(s).err == s.err
    ensures SessionOk(DecisionSession.Drained(s)) && DecisionSession.Drained(s).calls == s.calls
    ensures DecisionSession.Drained(s).err == s.err && SessionOk(s.(closing := true))
  {
  }

  /** The invariant is inductive for arbitrary frames and any interleaving. */
  lemma StepKeepsInv(g: Gateway, step: Step)
    requires Inv(g) && Enabled(g, step)
    ensures Inv(Apply(g, step))
  {
    hide Inv, Started, HandleFrame, QueryStep, Delivered;
    match step
    case Start => StartKeeps(g);
    case Read(f) => ReadKeeps(g, f);
    case ReadFails => StopKeeps(g, ReadFailed);
    case HandOver => HandOverKeeps(g);
    case ReaderReply(ok) => ReaderReplyKeeps(g, ok);
    case Retire => SignalKeeps(g, step);
    case Drain => SignalKeeps(g, step);
    case Close => SignalKeeps(g, step);
    case _ => QueryStepKeeps(g, step);
  }

  lemma {:induction false} RunKeepsInv(g: Gateway, steps: seq<Step>, end: Gateway)
    requires Inv(g) && Runs(g, steps, end)
    ensures Inv(end)
    decreases |steps|
  {
    hide Inv, Apply, Enabled;
    if steps != [] {
      StepKeepsInv(g, steps[0]);
      RunKeepsInv(Apply(g, steps[0]), steps[1..], end);
    }
  }

  /** One more step in front of a run. */
  lemma Before(g: Gateway, step: Step, steps: seq<Step>, end: Gateway) returns (all: seq<Step>)
    requires Enabled(g, step) && Runs(Apply(g, step), steps, end)
    ensures all == [step] + steps && Runs(g, all, end)
  {
    hide Apply, Enabled;
    all := [step] + steps;
    assert all[1..] == steps;
  }

  /** Runs compose. */
  lemma {:induction false} RunsOn(g: Gateway, steps: seq<Step>, mid: Gateway, more: seq<Step>, end: Gateway)
    requires Runs(g, steps, mid) && Runs(mid, more, end)
    ensures Runs(g, steps + more, end)
    decreases |steps|
  {
    hide Apply, Enabled;
    if steps == [] {
      assert steps + more == more;
    } else {
      RunsOn(Apply(g, steps[0]), steps[1..], mid, more, end);
      assert (steps + more)[1..] == steps[1..] + more;
    }
  }

  // ----- what follows for every run from the start -----

  lemma InitialInv()
    ensures Inv(INITIAL)
  {
  }

  /**
   The reader never blocks and nothing is closed twice: in no reachable state has a send found its
   one-slot channel full or a close found its channel closed, and done is closed exactly when err is set.
   */
  lemma NeverBlocksNeverPanics(steps: seq<Step>, end: Gateway)
    requires Runs(INITIAL, steps, end)
    ensures forall q :: 0 <= q < |end.queries| ==>
              !end.queries[q].call.forward.Overrun? && !end.queries[q].call.final.Overrun?
    ensures end.ready == (if end.readySeen then Closed else Open)
    ensures end.session.done == (if end.session.err.Some? then Closed else Open)
    ensures end.session.idle != Some(ClosedTwice)
  {
    RunKeepsInv(INITIAL, steps, end);
  }

  /** What no critical section undoes: the first error, a closed idle, and a retired decider's table only shrinks. */
  predicate Moves(s: Session<nat>, s': Session<nat>) {
    && (s.err.Some? ==> s'.err == s.err)
    && (s.idle == Some(Closed) ==> s'.idle == Some(Closed))
    && (s.retired ==> s'.retired && s'.calls.Keys <= s.calls.Keys)
    && (Draining(s) ==> Draining(s'))
  }

  /** A retired decider whose idle channel is closed has an empty table. */
  predicate Draining(s: Session<nat>) {
    s.retired && (s.idle == Some(Closed) ==> s.calls == map[])
  }

  /** What one frame does to the session: nothing, an error, or the end of one id. */
  lemma ReadSession(g: Gateway, f: Frame)
    ensures var s := HandleFrame(g, f).session;
            s == g.session || s == Fail(g.session, ProtocolError) || s == Finish(g.session, f.id)
    ensures |HandleFrame(g, f).queries| == |g.queries|
  {
    hide Fail, Finish, Put;
  }

  lemma ReadMoves(g: Gateway, f: Frame)
    ensures Moves(g.session, HandleFrame(g, f).session)
    ensures |HandleFrame(g, f).queries| == |g.queries|
  {
    hide HandleFrame, Finish;
    ReadSession(g, f);
    FinishMoves(g.session, f.id);
  }

  lemma FinishMoves(s: Session<nat>, id: U32)
    ensures Moves(s, Finish(s, id))
  {
    if s.calls == map[] {
      assert s.calls - {id} == map[];
    }
  }

  /** The steps that neither fill nor empty the table and do not ask for `drained`. */
  lemma QuietStep(g: Gateway, step: Step)
    requires Enabled(g, step) && !step.Start? && !step.Read? && !step.Drain?
    ensures var s, s' := g.session, Apply(g, step).session;
            && s'.calls == s.calls && s'.idle == s.idle && (s.err.Some? ==> s'.err == s.err)
            && (s.retired ==> s'.retired) && (s'.retired ==> s.retired || step == Retire)
    ensures |Apply(g, step).queries| == |g.queries|
  {
    hide QueryStep, Receiving, Deliver;
    if Queries(step).Some? {
      OwnStepShape(g, step, Queries(step).value);
    }
  }

  lemma StepMoves(g: Gateway, step: Step)
    requires Enabled(g, step)
    ensures Moves(g.session, Apply(g, step).session)
    ensures |g.queries| <= |Apply(g, step).queries|
    ensures g.session.retired ==> |Apply(g, step).queries| == |g.queries| || step == Start
  {
    hide QueryStep, Receiving, Deliver, Register, HandleFrame, Finish;
    match step
    case Start =>
    case Read(f) => ReadMoves(g, f);
    case Drain => if |g.session.calls| == 0 { assert g.session.calls == map[]; }
    case _ => QuietStep(g, step);
  }

  /** err never changes once it is set. */
  lemma {:induction false} FirstErrorStands(g: Gateway, steps: seq<Step>, end: Gateway)
    requires Runs(g, steps, end) && g.session.err.Some?
    ensures end.session.err == g.session.err
    decreases |steps|
  {
    hide Apply, Enabled;
    if steps != [] {
      StepMoves(g, steps[0]);
      FirstErrorStands(Apply(g, steps[0]), steps[1..], end);
    }
  }

  // ----- who is registered -----

  /**
   In every reachable state the next query is registered exactly when the decider is not retired, the session has not
   ended and fewer than 4096 queries are outstanding. Otherwise it returns at once with the cause: retired before ended,
   and ended, with the session's error, before full.
   */
  lemma NextQuery(steps: seq<Step>, g: Gateway)
    requires Runs(INITIAL, steps, g)
    ensures var g', s := Apply(g, Start), g.session;
            && |g'.queries| == |g.queries| + 1 && g'.queries[..|g.queries|] == g.queries
            && var x := g'.queries[|g.queries|];
               && (x.pc == Sending <==> !s.retired && s.err.None? && |s.calls| < 4096)
               && (x.pc == Sending ==> x.id !in s.calls && g'.session.calls == s.calls[x.id := |g.queries|])
               && (x.pc == Returned(NotRegistered(DeciderRetired)) <==> s.retired)
               && (x.pc == Returned(NotRegistered(SessionOver(s.err))) <==> !s.retired && s.err.Some?)
               && (x.pc == Returned(NotRegistered(DeciderBusy)) <==>
                     !s.retired && s.err.None? && |s.calls| >= 4096)
  {
    hide Register, QueriesOk, TableOk, ReaderOk, Runs;
    InitialInv();
    RunKeepsInv(INITIAL, steps, g);
    RegistersExactly(g.session, |g.queries|);
  }

  lemma {:induction false} TableFills(n: nat) returns (steps: seq<Step>, g: Gateway)
    requires n <= 4096
    ensures Runs(INITIAL, steps, g) && Inv(g) && !g.session.retired && g.session.err.None? && |g.session.calls| == n
  {
    hide Started, Inv, QueriesOk;
    if n == 0 {
      steps, g := [], INITIAL;
      NothingOutstanding();
    } else {
      var before, g0 := TableFills(n - 1);
      g := Apply(g0, Start);
      StepKeepsInv(g0, Start);
      OneMoreOutstanding(g0);
      steps := Before(g0, Start, [], g);
      RunsOn(INITIAL, before, g0, steps, g);
      steps := before + steps;
    }
  }

  lemma NothingOutstanding()
    ensures Inv(INITIAL) && !INITIAL.session.retired && INITIAL.session.err.None? && |INITIAL.session.calls| == 0
  {
  }

  lemma OneMoreOutstanding(g: Gateway)
    requires Inv(g) && !g.session.retired && g.session.err.None? && |g.session.calls| < 4096
    ensures var s := Started(g).session; !s.retired && s.err.None? && |s.calls| == |g.session.calls| + 1
  {
    hide Register, QueriesOk, TableOk, ReaderOk;
    RegistersExactly(g.session, |g.queries|);
  }

  /** The bound is reached: 4096 queries can be outstanding, and the next one is refused as busy. */
  lemma FullTableIsReachable() returns (steps: seq<Step>, g: Gateway)
    ensures Runs(INITIAL, steps, g) && |g.session.calls| == 4096
    ensures |Apply(g, Start).queries| == |g.queries| + 1
    ensures Apply(g, Start).queries[|g.queries|].pc == Returned(NotRegistered(DeciderBusy))
  {
    hide Started, Inv, Runs;
    steps, g := TableFills(4096);
    NextQuery(steps, g);
  }

  /** The frames that end a session: no type of a decider, a READY with content or again, a wire out of bounds. */
  predicate IsViolation(g: Gateway, f: Frame) {
    || (f.typ != 2 && f.typ != 4 && f.typ != 5 && f.typ != 6)
    || (f.typ == 6 && (g.readySeen || f.id != 0 || f.payload != []))
    || ((f.typ == 2 || f.typ == 4) && |f.payload| > 65535)
    || (f.typ == 4 && f.payload == [])
  }

  function CauseOf(g: Gateway, step: Step): Option<SessionError> {
    match step
    case Read(f) => if IsViolation(g, f) then Some(ProtocolError) else None
    case ReadFails => Some(ReadFailed)
    case SendQuery(_, ok) => if ok then None else Some(WriteFailed)
    case SendReply(_, ok) => if ok then None else Some(WriteFailed)
    case SendEmpty(_, ok) => if ok then None else Some(WriteFailed)
    case ReaderReply(ok) => if ok then None else Some(WriteFailed)
    case _ => None
  }

  /**
   What ends a session, for every step and frame: exactly a violation, a failed read or a failed write, and what the
   session keeps of it is the close where the gateway was closing. Only a violation or a failed read stops the reader.
   */
  lemma SessionEndsExactly(g: Gateway, step: Step)
    requires Enabled(g, step) && g.session.err.None?
    ensures var g', cause := Apply(g, step), CauseOf(g, step);
            && (g'.session.err.Some? <==> cause.Some?)
            && (cause.Some? ==> g'.session.err == if g.session.closing then Some(ClosedByGateway) else cause)
            && (g'.reader == Stopped <==> g.reader == Stopped || step == ReadFails || (step.Read? && cause.Some?))
  {
    hide Register, Apply;
    if step.Read? {
      FrameEnds(g, step.frame);
      ReadIs(g, step.frame);
    } else {
      OtherEnds(g, step);
    }
  }

  lemma Ends(g: Gateway, e: SessionError)
    requires g.session.err.None?
    ensures Failing(g, e).session.err == Some(if g.session.closing then ClosedByGateway else e)
    ensures Failing(g, e).reader == g.reader && Rejected(g).reader == Stopped
    ensures Rejected(g).session.err == Failing(g, ProtocolError).session.err
  {
  }

  lemma FrameEnds(g: Gateway, f: Frame)
    requires g.reader == Reading && g.session.err.None?
    ensures var g' := HandleFrame(g, f);
            && g'.session.err == (if !IsViolation(g, f) then None
                                  else Some(if g.session.closing then ClosedByGateway else ProtocolError))
            && (g'.reader == Stopped <==> IsViolation(g, f))
  {
    hide Finished, Failing, Rejected;
    Ends(g, ProtocolError);
    if f.typ == 2 {
      ForwardEnds(g, f);
    } else {
      FinishedGoesOn(g, f.id, Wire(f.payload));
      FinishedGoesOn(g, f.id, Dropped);
    }
  }

  lemma ForwardEnds(g: Gateway, f: Frame)
    requires g.reader == Reading && f.typ == 2
    ensures |f.payload| > 65535 ==> HandleFrame(g, f) == Rejected(g)
    ensures |f.payload| <= 65535 ==> HandleFrame(g, f).session == g.session && HandleFrame(g, f).reader != Stopped
  {
    hide Rejected, Finished;
  }

  lemma FinishedGoesOn(g: Gateway, id: U32, answer: Answer)
    ensures Finished(g, id, answer).session.err == g.session.err && Finished(g, id, answer).reader == g.reader
  {
  }

  lemma ReadIs(g: Gateway, f: Frame)
    requires g.reader == Reading
    ensures Apply(g, Read(f)) == HandleFrame(g, f)
  {
    hide HandleFrame;
  }

  lemma OtherEnds(g: Gateway, step: Step)
    requires Enabled(g, step) && !step.Read? && g.session.err.None?
    ensures var g' := Apply(g, step);
            && g'.session.err == (if CauseOf(g, step).None? then None
                                  else if g.session.closing then Some(ClosedByGateway) else CauseOf(g, step))
            && (g'.reader == Stopped <==> g.reader == Stopped || step == ReadFails)
  {
    hide Apply, WriteFails, Enabled;
    if Queries(step).Some? {
      QueryEnds(g, step);
    } else if step == Start || step == HandOver || step.ReaderReply? {
      ReaderEnds(g, step);
    } else {
      SignalEnds(g, step);
    }
  }

  lemma SignalEnds(g: Gateway, step: Step)
    requires Enabled(g, step) && step in {ReadFails, Retire, Drain, Close} && g.session.err.None?
    ensures var g' := Apply(g, step);
            && g'.session.err == (if step != ReadFails then None
                                  else Some(if g.session.closing then ClosedByGateway else ReadFailed))
            && (g'.reader == Stopped <==> g.reader == Stopped || step == ReadFails)
  {
    hide Failing;
    Ends(g, ReadFailed);
  }

  lemma ReaderEnds(g: Gateway, step: Step)
    requires Enabled(g, step) && (step == Start || step == HandOver || step.ReaderReply?) && g.session.err.None?
    ensures var g' := Apply(g, step);
            && g'.session.err == (if step != ReaderReply(false) then None
                                  else Some(if g.session.closing then ClosedByGateway else WriteFailed))
            && (g'.reader == Stopped <==> g.reader == Stopped)
  {
    hide Failing, Delivered, Started, Counted;
    if step == Start {
      StartGoesOn(g);
    } else if step == HandOver {
      DeliveryGoesOn(g, g.reader.id, g.reader.q, g.reader.wire);
    } else {
      Ends(g.(reader := Reading), WriteFailed);
    }
  }

  lemma QueryEnds(g: Gateway, step: Step)
    requires Enabled(g, step) && Queries(step).Some? && g.session.err.None?
    ensures Apply(g, step).session.err == if !WriteFails(step) then None
                                          else Some(if g.session.closing then ClosedByGateway else WriteFailed)
    ensures Apply(g, step).reader == g.reader
    ensures CauseOf(g, step) == if WriteFails(step) then Some(WriteFailed) else None
  {
    hide Failing, QueryStep;
    var q := Queries(step).value;
    Ends(g.(queries := g.queries[q := QueryStep(g.queries[q], step)]), WriteFailed);
  }

  lemma StartGoesOn(g: Gateway)
    requires Enabled(g, Start)
    ensures Started(g).session.err == g.session.err && Started(g).reader == g.reader
  {
    hide Register;
  }

  lemma DeliveryGoesOn(g: Gateway, id: U32, q: nat, wire: Bytes)
    requires q < |g.queries|
    ensures Delivered(g, id, q, wire).session == g.session && Delivered(g, id, q, wire).reader != Stopped
  {
    hide Receiving, Deliver;
  }

  predicate Unfinished(x: Query) {
    x.id != 0 && x.given.None?
  }

  /**
   The table holds at most 4096 ids, none of them 0, and no two unfinished queries share an id:
   a query its client gave up on keeps its id until the final frame.
   */
  lemma IdsAreExclusive(steps: seq<Step>, end: Gateway)
    requires Runs(INITIAL, steps, end)
    ensures |end.session.calls| <= 4096 && 0 !in end.session.calls
    ensures forall p, q :: 0 <= p < q < |end.queries| && Unfinished(end.queries[p]) && Unfinished(end.queries[q]) ==>
              end.queries[p].id != end.queries[q].id
  {
    RunKeepsInv(INITIAL, steps, end);
    forall p, q | 0 <= p < q < |end.queries| && Unfinished(end.queries[p]) && Unfinished(end.queries[q])
      ensures end.queries[p].id != end.queries[q].id
    {
      assert PlaceOk(end.session, end.reader, p, end.queries[p]);
      assert PlaceOk(end.session, end.reader, q, end.queries[q]);
    }
  }

  /**
   FORWARD/REPLY conservation for an arbitrary decider: until the session ends, the FORWARDs received for a
   query are the ones ignored (it was still busy), the REPLYs sent, and the ones pending in the slot, at the
   query or at the reader.
   */
  lemma ForwardsAreConserved(steps: seq<Step>, end: Gateway, q: nat)
    requires Runs(INITIAL, steps, end) && q < |end.queries| && end.session.err.None?
    ensures var x := end.queries[q];
            x.tally.received == x.tally.ignored + |x.log.replies| + Pending(end.reader, q, x)
  {
    RunKeepsInv(INITIAL, steps, end);
    assert PlaceOk(end.session, end.reader, q, end.queries[q]);
  }
}
