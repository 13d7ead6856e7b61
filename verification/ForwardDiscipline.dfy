/**
 FORWARD and REPLY with a decider that waits for each REPLY before its next frame on that id
 (docs/misc/dns-gateway-protocol.md, "One query"): no FORWARD is ignored, and every one is answered once.

 Where a FORWARD or its REPLY is at any moment: on the wire up, at the reader, in the slot, at the query, or on
 the wire down. The discipline makes that one place at most per query.
 */
module ForwardDiscipline {
  import opened Common
  import opened FrameCodec
  import opened DecisionSession
  import opened GatewayProtocol
  import opened GatewayInvariant
  import opened DeciderConformance

  /** The decider works on the id for q and waits for a REPLY. */
  predicate Awaited(open: map<U32, Ticket>, id: U32, q: nat) {
    id in open && open[id] == Ticket(q, true)
  }

  predicate Quiet(g: Gateway, q: nat) {
    q < |g.queries| && Pending(g.reader, q, g.queries[q]) == 0
  }

  predicate NoReply(down: seq<Sent>, id: U32) {
    forall i :: 0 <= i < |down| && down[i].ReplyFrame? ==> down[i].id != id
  }

  predicate NoForward(up: seq<FromDecider>, id: U32) {
    forall i :: 0 <= i < |up| && up[i].ForwardUp? ==> up[i].id != id
  }

  predicate ForwardsOk(g: Gateway, down: seq<Sent>, open: map<U32, Ticket>, up: seq<FromDecider>) {
    && (forall i :: 0 <= i < |up| && up[i].ForwardUp? ==>
          Awaited(open, up[i].id, up[i].q) && Quiet(g, up[i].q) && NoReply(down, up[i].id))
    && (forall i, j :: 0 <= i < j < |up| && up[i].ForwardUp? && up[j].ForwardUp? ==> up[i].id != up[j].id)
  }

  predicate RepliesOk(g: Gateway, down: seq<Sent>, open: map<U32, Ticket>) {
    && (forall i :: 0 <= i < |down| && down[i].ReplyFrame? ==>
          Awaited(open, down[i].id, down[i].q) && Quiet(g, down[i].q))
    && (forall i, j :: 0 <= i < j < |down| && down[i].ReplyFrame? && down[j].ReplyFrame? ==> down[i].id != down[j].id)
  }

  predicate PendingOk(g: Gateway, open: map<U32, Ticket>) {
    forall q :: 0 <= q < |g.queries| ==>
      && g.queries[q].tally.ignored == 0
      && (Pending(g.reader, q, g.queries[q]) > 0 ==>
            Pending(g.reader, q, g.queries[q]) == 1 && Awaited(open, g.queries[q].id, q))
  }

  predicate Disciplined(s: System) {
    && s.waits
    && ForwardsOk(s.gateway, s.down, s.open, s.up)
    && RepliesOk(s.gateway, s.down, s.open)
    && PendingOk(s.gateway, s.open)
  }

  // ----- gateway steps -----

  /** Nothing becomes pending, nothing is ignored, and a REPLY written is one less pending. */
  predicate Calms(g: Gateway, g': Gateway, out: Sent) {
    && |g.queries| <= |g'.queries|
    && (forall q :: 0 <= q < |g.queries| ==>
          && g'.queries[q].id == g.queries[q].id
          && g'.queries[q].tally.ignored == g.queries[q].tally.ignored
          && Pending(g'.reader, q, g'.queries[q]) <= Pending(g.reader, q, g.queries[q]))
    && (forall q :: |g.queries| <= q < |g'.queries| ==>
          g'.queries[q].tally.ignored == 0 && Pending(g'.reader, q, g'.queries[q]) == 0)
    && (out.ReplyFrame? ==>
          && out.q < |g.queries| && out.id == g.queries[out.q].id
          && Pending(g'.reader, out.q, g'.queries[out.q]) < Pending(g.reader, out.q, g.queries[out.q]))
  }

  lemma OwnStepCalms(r: Reader, q: nat, x: Query, step: Step)
    requires QueryOk(x) && AtStep(x, step)
    ensures var x' := QueryStep(x, step);
            && x'.tally.ignored == x.tally.ignored
            && Pending(r, q, x') <= Pending(r, q, x)
            && (step.SendReply? || step.SendEmpty? ==> Pending(r, q, x') < Pending(r, q, x))
  {
  }

  lemma OtherPending(r: Reader, q: nat, queries: seq<Query>, x: Query)
    requires q < |queries|
    ensures forall p :: 0 <= p < |queries| && p != q ==>
              Pending(r, p, queries[q := x][p]) == Pending(r, p, queries[p])
  {
  }

  lemma QueryStepCalms(g: Gateway, step: Step)
    requires Inv(g) && Enabled(g, step) && Queries(step).Some?
    ensures Calms(g, Apply(g, step), Output(g, step))
  {
    hide Apply, Enabled, Output, QueryOk, PlaceOk, QueryStep, AtStep, Pending, TableOk, ReaderOk;
    var q := Queries(step).value;
    EnabledIsAtStep(g, step, q);
    assert QueryOk(g.queries[q]);
    OwnStepCalms(g.reader, q, g.queries[q], step);
    OneQueryMoves(g, step);
    OtherPending(g.reader, q, g.queries, QueryStep(g.queries[q], step));
  }

  lemma OneQueryMoves(g: Gateway, step: Step)
    requires Enabled(g, step) && Queries(step).Some?
    ensures var q, g' := Queries(step).value, Apply(g, step);
            && g'.reader == g.reader && g'.queries == g.queries[q := QueryStep(g.queries[q], step)]
            && g'.queries[q].id == g.queries[q].id
            && (Output(g, step).ReplyFrame? ==>
                  && (step.SendReply? || step.SendEmpty?)
                  && Output(g, step).q == q && Output(g, step).id == g.queries[q].id)
  {
  }

  /** With one FORWARD per query in the gateway, the reader finds the slot free: nothing is ignored. */
  lemma HandOverCalms(g: Gateway)
    requires Inv(g) && Enabled(g, HandOver)
    requires Pending(g.reader, g.reader.q, g.queries[g.reader.q]) == 1
    ensures Calms(g, Apply(g, HandOver), Nothing)
  {
    hide QueryOk, PlaceOk, TableOk, ReaderOk, Receiving, Deliver, Unreplied;
    var q := g.reader.q;
    assert QueryOk(g.queries[q]);
    FreeReceives(g.queries[q], g.reader.wire);
  }

  lemma FreeReceives(x: Query, wire: Bytes)
    requires QueryOk(x) && Unreplied(x) == 0
    ensures var x' := Receiving(x, wire);
            && x'.id == x.id && x'.tally == x.tally
            && Unreplied(x') + One(Deliver(x.call, wire).1) == 1
  {
  }

  lemma ReaderReplyCalms(g: Gateway, ok: bool)
    requires Inv(g) && Enabled(g, ReaderReply(ok))
    ensures Calms(g, Apply(g, ReaderReply(ok)), Output(g, ReaderReply(ok)))
  {
    hide QueryOk, PlaceOk, Fail;
    assert QueryOk(g.queries[g.reader.q]) && PlaceOk(g.session, g.reader, g.reader.q, g.queries[g.reader.q]);
  }

  lemma StartCalms(g: Gateway)
    requires Inv(g)
    ensures Calms(g, Started(g), Nothing)
  {
    hide QueryOk, PlaceOk, Register;
    var g' := Started(g);
    assert g'.queries[..|g.queries|] == g.queries;
  }

  lemma StepCalms(g: Gateway, step: Step, open: map<U32, Ticket>)
    requires Inv(g) && Enabled(g, step) && !step.Read? && PendingOk(g, open)
    ensures Calms(g, Apply(g, step), Output(g, step))
  {
    match step
    case HandOver =>
      assert Pending(g.reader, g.reader.q, g.queries[g.reader.q]) > 0;
      HandOverCalms(g);
    case ReaderReply(ok) => ReaderReplyCalms(g, ok);
    case Start => StartCalms(g);
    case ReadFails =>
    case Retire =>
    case Drain =>
    case Close =>
    case _ => QueryStepCalms(g, step);
  }

  lemma CalmKeeps(g: Gateway, g': Gateway, down: seq<Sent>, open: map<U32, Ticket>, up: seq<FromDecider>, out: Sent)
    requires Calms(g, g', out) && !out.ReplyFrame?
    requires ForwardsOk(g, down, open, up) && RepliesOk(g, down, open) && PendingOk(g, open)
    ensures ForwardsOk(g', down, open, up) && RepliesOk(g', down, open) && PendingOk(g', open)
  {
  }

  lemma ReplyKeeps(g: Gateway, g': Gateway, down: seq<Sent>, open: map<U32, Ticket>, up: seq<FromDecider>, out: Sent)
    requires Calms(g, g', out) && out.ReplyFrame?
    requires ForwardsOk(g, down, open, up) && RepliesOk(g, down, open) && PendingOk(g, open)
    ensures ForwardsOk(g', down + [out], open, up) && RepliesOk(g', down + [out], open) && PendingOk(g', open)
  {
    CalmKeeps(g, g', down, open, up, Nothing);
    assert Awaited(open, out.id, out.q);
    assert NoReply(down, out.id);
    assert NoForward(up, out.id);
  }

  lemma QuerySentKeeps(g: Gateway, down: seq<Sent>, open: map<U32, Ticket>, up: seq<FromDecider>, out: Sent)
    requires out.QueryFrame? && ForwardsOk(g, down, open, up) && RepliesOk(g, down, open)
    ensures ForwardsOk(g, down + [out], open, up) && RepliesOk(g, down + [out], open)
  {
  }

  lemma GatewayDoesDisciplined(s: System, step: Step)
    requires Inv(s.gateway) && Disciplined(s) && Allowed(s, GatewayDoes(step))
    ensures Disciplined(Play(s, GatewayDoes(step)))
  {
    var g', out := Apply(s.gateway, step), Output(s.gateway, step);
    StepCalms(s.gateway, step, s.open);
    if out.ReplyFrame? {
      ReplyKeeps(s.gateway, g', s.down, s.open, s.up, out);
    } else {
      CalmKeeps(s.gateway, g', s.down, s.open, s.up, out);
      if out.QueryFrame? {
        QuerySentKeeps(g', s.down, s.open, s.up, out);
      }
    }
  }

  // ----- reading a frame -----

  predicate TicketsMatch(g: Gateway, open: map<U32, Ticket>) {
    forall id <- open :: open[id].q < |g.queries| && g.queries[open[id].q].id == id
  }

  lemma OpenMatches(s: System)
    requires SystemInv(s)
    ensures TicketsMatch(s.gateway, s.open)
  {
    assert forall id <- s.open :: Owns(s.gateway, id, s.open[id].q);
  }

  lemma ReadForward(g: Gateway, m: FromDecider)
    requires m.ForwardUp? && |m.wire| <= MAX_WIRE && Owns(g, m.id, m.q)
    ensures HandleFrame(g, FrameOf(m)) ==
            var x := g.queries[m.q];
            g.(reader := Delivering(m.id, m.q, m.wire),
               queries := g.queries[m.q := x.(tally := x.tally.(received := x.tally.received + 1))])
  {
  }

  lemma ForwardReadDisciplined(s: System)
    requires SystemInv(s) && Disciplined(s) && Allowed(s, GatewayReads) && s.up[0].ForwardUp?
    ensures Disciplined(Play(s, GatewayReads))
  {
    hide Inv, DownOk, GivenOk, HandleFrame, Apply;
    var m, g := s.up[0], s.gateway;
    var g' := HandleFrame(g, FrameOf(m));
    OpenMatches(s);
    assert Awaited(s.open, m.id, m.q) && Owns(g, m.id, s.open[m.id].q);
    ReadForward(g, m);
    HeldKeeps(g, g', s.down, s.open, s.up, m.q);
  }

  /** One more FORWARD, at the reader, for a query that had none anywhere else. */
  lemma HeldKeeps(g: Gateway, g': Gateway, down: seq<Sent>, open: map<U32, Ticket>, up: seq<FromDecider>, q: nat)
    requires up != [] && up[0].ForwardUp? && up[0].q == q && q < |g.queries| && TicketsMatch(g, open)
    requires g.reader == Reading && g'.reader.Delivering? && g'.reader.q == q && |g'.queries| == |g.queries|
    requires forall p :: 0 <= p < |g.queries| ==>
               && g'.queries[p].id == g.queries[p].id
               && g'.queries[p].tally.ignored == g.queries[p].tally.ignored
               && g'.queries[p].call == g.queries[p].call && g'.queries[p].pc == g.queries[p].pc
    requires ForwardsOk(g, down, open, up) && RepliesOk(g, down, open) && PendingOk(g, open)
    ensures ForwardsOk(g', down, open, up[1..]) && RepliesOk(g', down, open) && PendingOk(g', open)
  {
    var tail, m := up[1..], up[0];
    assert forall i :: 0 <= i < |tail| ==> tail[i] == up[i + 1];
    assert Awaited(open, m.id, q) && NoReply(down, m.id) && Quiet(g, q);
    assert forall id, p | Awaited(open, id, p) && id != m.id :: p != q;
    assert forall p | Quiet(g, p) && p != q :: Quiet(g', p);
  }

  /** The reader's other frames change nothing that is pending. */
  predicate SamePending(g: Gateway, g': Gateway) {
    && g'.reader == g.reader && |g'.queries| == |g.queries|
    && forall p :: 0 <= p < |g.queries| ==>
         && g'.queries[p].id == g.queries[p].id && g'.queries[p].tally == g.queries[p].tally
         && g'.queries[p].call.forward == g.queries[p].call.forward && g'.queries[p].pc == g.queries[p].pc
  }

  lemma SamePendingCalms(g: Gateway, g': Gateway)
    requires SamePending(g, g')
    ensures Calms(g, g', Nothing)
  {
  }

  lemma FinalReadIsSame(g: Gateway, m: FromDecider)
    requires m.FinalUp? && (m.answer.Wire? ==> 0 < |m.answer.bytes| <= MAX_WIRE)
    ensures SamePending(g, HandleFrame(g, FrameOf(m)))
  {
    FinalFrame(g, m);
  }

  lemma UpTail(g: Gateway, down: seq<Sent>, open: map<U32, Ticket>, up: seq<FromDecider>)
    requires up != [] && ForwardsOk(g, down, open, up)
    ensures ForwardsOk(g, down, open, up[1..])
  {
    var tail := up[1..];
    assert forall i :: 0 <= i < |tail| ==> tail[i] == up[i + 1];
  }

  lemma FinalReadDisciplined(s: System)
    requires SystemInv(s) && Disciplined(s) && Allowed(s, GatewayReads) && s.up[0].FinalUp?
    ensures Disciplined(Play(s, GatewayReads))
  {
    hide Inv, DownOk, OpenOk, GivenOk, HandleFrame, Apply, Calms, SamePending, ForwardsOk, RepliesOk, PendingOk;
    var g' := HandleFrame(s.gateway, FrameOf(s.up[0]));
    FinalReadIsSame(s.gateway, s.up[0]);
    SamePendingCalms(s.gateway, g');
    CalmKeeps(s.gateway, g', s.down, s.open, s.up, Nothing);
    UpTail(g', s.down, s.open, s.up);
  }

  /** READY, first or repeated: at worst the reader stops. */
  lemma ReadyCalms(g: Gateway)
    requires g.reader == Reading
    ensures Calms(g, HandleFrame(g, FrameOf(ReadyUp)), Nothing)
  {
  }

  lemma ReadyReadDisciplined(s: System)
    requires SystemInv(s) && Disciplined(s) && Allowed(s, GatewayReads) && s.up[0] == ReadyUp
    ensures Disciplined(Play(s, GatewayReads))
  {
    hide SystemInv, HandleFrame, Apply, Calms, ForwardsOk, RepliesOk, PendingOk;
    var g' := HandleFrame(s.gateway, FrameOf(s.up[0]));
    ReadyCalms(s.gateway);
    CalmKeeps(s.gateway, g', s.down, s.open, s.up, Nothing);
    UpTail(g', s.down, s.open, s.up);
  }

  // ----- the decider's moves -----

  lemma DownTail(g: Gateway, down: seq<Sent>, open: map<U32, Ticket>, up: seq<FromDecider>)
    requires down != [] && ForwardsOk(g, down, open, up) && RepliesOk(g, down, open)
    ensures ForwardsOk(g, down[1..], open, up) && RepliesOk(g, down[1..], open)
    ensures down[0].ReplyFrame? ==> NoReply(down[1..], down[0].id) && NoForward(up, down[0].id)
  {
    var tail := down[1..];
    assert forall i :: 0 <= i < |tail| ==> tail[i] == down[i + 1];
    assert forall id | NoReply(down, id) :: NoReply(tail, id);
  }

  /** Changing the ticket of an id with nothing on its way keeps the rest. */
  lemma TicketChangeKeeps(g: Gateway, down: seq<Sent>, open: map<U32, Ticket>, open': map<U32, Ticket>,
                          up: seq<FromDecider>, id: U32)
    requires forall i <- open :: i != id ==> i in open' && open'[i] == open[i]
    requires NoReply(down, id) && NoForward(up, id)
    requires forall q :: 0 <= q < |g.queries| && g.queries[q].id == id ==> !Awaited(open, id, q) || Quiet(g, q)
    requires ForwardsOk(g, down, open, up) && RepliesOk(g, down, open) && PendingOk(g, open)
    ensures ForwardsOk(g, down, open', up) && RepliesOk(g, down, open') && PendingOk(g, open')
  {
    assert forall q :: 0 <= q < |g.queries| && g.queries[q].id == id ==> Pending(g.reader, q, g.queries[q]) == 0;
  }

  lemma NotWaitingIsQuiet(g: Gateway, down: seq<Sent>, open: map<U32, Ticket>, up: seq<FromDecider>, id: U32)
    requires id in open ==> !open[id].waiting
    requires ForwardsOk(g, down, open, up) && RepliesOk(g, down, open)
    ensures NoReply(down, id) && NoForward(up, id)
    ensures forall q :: !Awaited(open, id, q)
  {
  }

  lemma DeciderReadsDisciplined(s: System)
    requires SystemInv(s) && Disciplined(s) && Allowed(s, DeciderReads)
    ensures Disciplined(Play(s, DeciderReads))
  {
    hide Inv, UpOk, GivenOk, Pending, HandleFrame, Apply;
    var m := s.down[0];
    var open := Received(s);
    var tail := s.down[1..];
    DownTail(s.gateway, s.down, s.open, s.up);
    if m.QueryFrame? {
      assert m.id !in s.open;
      NotWaitingIsQuiet(s.gateway, tail, s.open, s.up, m.id);
      TicketChangeKeeps(s.gateway, tail, s.open, open, s.up, m.id);
    } else if m.ReplyFrame? {
      OpenMatches(s);
      assert Awaited(s.open, m.id, m.q) && Quiet(s.gateway, m.q);
      OnlyReply(s);
      TicketChangeKeeps(s.gateway, tail, s.open, open, s.up, m.id);
    } else {
      assert Play(s, DeciderReads).open == s.open;
    }
  }

  lemma OnlyReply(s: System)
    requires s.down != [] && s.down[0].ReplyFrame?
    ensures forall i <- s.open :: i != s.down[0].id ==>
              i in Play(s, DeciderReads).open && Play(s, DeciderReads).open[i] == s.open[i]
  {
  }

  lemma SendsForwardDisciplined(s: System, id: U32, wire: Bytes)
    requires SystemInv(s) && Disciplined(s) && Allowed(s, SendsForward(id, wire))
    ensures Disciplined(Play(s, SendsForward(id, wire)))
  {
    hide Inv, DownOk, UpOk, GivenOk, ForwardsOk, RepliesOk, Pending;
    var q := s.open[id].q;
    var open := s.open[id := Ticket(q, true)];
    assert Play(s, SendsForward(id, wire)) == s.(up := s.up + [ForwardUp(id, q, wire)], open := open);
    OpenMatches(s);
    NotWaitingIsQuiet(s.gateway, s.down, s.open, s.up, id);
    TicketChangeKeeps(s.gateway, s.down, s.open, open, s.up, id);
    assert Pending(s.gateway.reader, q, s.gateway.queries[q]) == 0;
    ForwardSentKeeps(s.gateway, s.down, open, s.up, ForwardUp(id, q, wire));
  }

  lemma ForwardSentKeeps(g: Gateway, down: seq<Sent>, open: map<U32, Ticket>, up: seq<FromDecider>, m: FromDecider)
    requires ForwardsOk(g, down, open, up) && m.ForwardUp?
    requires Awaited(open, m.id, m.q) && Quiet(g, m.q) && NoReply(down, m.id) && NoForward(up, m.id)
    ensures ForwardsOk(g, down, open, up + [m])
  {
  }

  lemma OtherSentKeeps(g: Gateway, down: seq<Sent>, open: map<U32, Ticket>, up: seq<FromDecider>, m: FromDecider)
    requires ForwardsOk(g, down, open, up) && !m.ForwardUp?
    ensures ForwardsOk(g, down, open, up + [m])
  {
  }

  lemma SendsFinalDisciplined(s: System, id: U32, answer: Answer)
    requires SystemInv(s) && Disciplined(s) && Allowed(s, SendsFinal(id, answer))
    ensures Disciplined(Play(s, SendsFinal(id, answer)))
  {
    NotWaitingIsQuiet(s.gateway, s.down, s.open, s.up, id);
    TicketChangeKeeps(s.gateway, s.down, s.open, s.open - {id}, s.up, id);
    OtherSentKeeps(s.gateway, s.down, s.open - {id}, s.up, FinalUp(id, s.open[id].q, answer));
  }

  lemma PlayKeepsDiscipline(s: System, m: Move)
    requires SystemInv(s) && Disciplined(s) && Allowed(s, m)
    ensures Disciplined(Play(s, m))
  {
    match m
    case GatewayDoes(step) => GatewayDoesDisciplined(s, step);
    case GatewayReads =>
      match s.up[0] {
        case ReadyUp => ReadyReadDisciplined(s);
        case ForwardUp(_, _, _) => ForwardReadDisciplined(s);
        case FinalUp(_, _, _) => FinalReadDisciplined(s);
      }
    case DeciderReads => DeciderReadsDisciplined(s);
    case SendsReady => OtherSentKeeps(s.gateway, s.down, s.open, s.up, ReadyUp);
    case SendsForward(id, wire) => SendsForwardDisciplined(s, id, wire);
    case SendsFinal(id, answer) => SendsFinalDisciplined(s, id, answer);
  }

  lemma {:induction false} PlaysKeepDiscipline(s: System, moves: seq<Move>, end: System)
    requires SystemInv(s) && Disciplined(s) && Plays(s, moves, end)
    ensures SystemInv(end) && Disciplined(end)
    decreases |moves|
  {
    hide Play, Allowed, SystemInv, Disciplined;
    if moves != [] {
      PlayKeepsInv(s, moves[0]);
      PlayKeepsDiscipline(s, moves[0]);
      PlaysKeepDiscipline(Play(s, moves[0]), moves[1..], end);
    }
  }

  lemma InitialDisciplined()
    ensures SystemInv(Initial(true)) && Disciplined(Initial(true))
  {
  }

  /**
   With a decider that waits for each REPLY: no FORWARD is ever ignored, at most one per query is pending, and
   until the session ends every FORWARD received has been answered by exactly one REPLY or is the pending one.
   A query that has its final frame has nothing pending, so all its FORWARDs were answered.
   */
  lemma EveryForwardOneReply(moves: seq<Move>, end: System, q: nat)
    requires Plays(Initial(true), moves, end) && q < |end.gateway.queries|
    ensures var g, x := end.gateway, end.gateway.queries[q];
            && x.tally.ignored == 0
            && Pending(g.reader, q, x) <= 1
            && (g.session.err.None? ==> x.tally.received == |x.log.replies| + Pending(g.reader, q, x))
            && (g.session.err.None? && x.given.Some? ==> x.tally.received == |x.log.replies|)
  {
    hide Plays, Initial, DownOk, UpOk, GivenOk, ForwardsOk, RepliesOk, QueryOk;
    InitialDisciplined();
    PlaysKeepDiscipline(Initial(true), moves, end);
    var x := end.gateway.queries[q];
    assert QueryOk(x) && PlaceOk(end.gateway.session, end.gateway.reader, q, x);
    assert Pending(end.gateway.reader, q, x) > 0 ==> Owns(end.gateway, x.id, q);
  }

  /** A FORWARD pending at the gateway never holds back a final frame: the decider sends none until it has the REPLY. */
  lemma NoFinalWhilePending(moves: seq<Move>, end: System, q: nat)
    requires Plays(Initial(true), moves, end) && q < |end.gateway.queries|
    requires Pending(end.gateway.reader, q, end.gateway.queries[q]) > 0
    ensures NoFinal(end.up, end.gateway.queries[q].id) && end.gateway.queries[q].call.final.Empty?
  {
    hide Plays, Initial, DownOk, UpOk, GivenOk, ForwardsOk, RepliesOk, NoFinal;
    InitialDisciplined();
    PlaysKeepDiscipline(Initial(true), moves, end);
    var x := end.gateway.queries[q];
    assert QueryOk(x) && PlaceOk(end.gateway.session, end.gateway.reader, q, x);
    assert Owns(end.gateway, x.id, q);
  }
}
