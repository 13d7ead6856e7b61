/**
 The gateway of GatewayProtocol together with a decider that keeps docs/misc/dns-gateway-protocol.md:
 it sends READY once, and ANSWER or DROP once per QUERY it received. With `waits` it also waits for each
 REPLY before its next frame on that id; without, it may stop waiting (its own timeout).

 The numbers q on the wire frames say which query's bytes a frame carries or answers; neither side reads them.
 */
module DeciderConformance {
  import opened Common
  import opened FrameCodec
  import opened DecisionSession
  import opened GatewayProtocol
  import opened GatewayInvariant
  import opened GatewayRetirement

  datatype FromDecider =
    | ReadyUp
    | ForwardUp(id: U32, q: nat, wire: Bytes)
    | FinalUp(id: U32, q: nat, answer: Answer)

  /** A QUERY the decider works on. */
  datatype Ticket = Ticket(q: nat, waiting: bool)

  datatype System = System(
    gateway: Gateway,
    down: seq<Sent>,              // written by the gateway, not yet read by the decider
    open: map<U32, Ticket>,       // received and not yet answered
    up: seq<FromDecider>,         // written by the decider, not yet read by the gateway
    readySent: bool,
    answers: map<nat, Answer>,    // the answer given to each query's own QUERY
    waits: bool)

  function Initial(waits: bool): System {
    System(INITIAL, [], map[], [], false, map[], waits)
  }

  datatype Move =
    | GatewayDoes(step: Step)         // any step but reading a frame
    | GatewayReads                // the oldest frame of the decider
    | DeciderReads                // the oldest frame of the gateway
    | SendsReady
    | SendsForward(id: U32, wire: Bytes)
    | SendsFinal(id: U32, answer: Answer)

  function FrameOf(m: FromDecider): Frame {
    match m
    case ReadyUp => Frame(READY, 0, [])
    case ForwardUp(id, _, wire) => Frame(FORWARD, id, wire)
    case FinalUp(id, _, Wire(b)) => Frame(ANSWER, id, b)
    case FinalUp(id, _, Dropped) => Frame(DROP, id, [])
  }

  predicate MaySend(s: System, id: U32) {
    id in s.open && (s.waits ==> !s.open[id].waiting)
  }

  predicate Allowed(s: System, m: Move) {
    match m
    case GatewayDoes(step) => !step.Read? && Enabled(s.gateway, step)
    case GatewayReads => s.up != [] && s.gateway.reader == Reading
    case DeciderReads => s.down != []
    case SendsReady => !s.readySent
    case SendsForward(id, wire) => MaySend(s, id) && |wire| <= MAX_WIRE
    case SendsFinal(id, answer) => MaySend(s, id) && (answer.Wire? ==> 0 < |answer.bytes| <= MAX_WIRE)
  }

  /** A decider may give an id it works on any FORWARD and any final frame of the protocol, and with `waits` in turn. */
  lemma SendsAnything(s: System, id: U32, wire: Bytes)
    ensures var free := id in s.open && (s.waits ==> !s.open[id].waiting);
            && (Allowed(s, SendsForward(id, wire)) <==> free && |wire| <= 65535)
            && (Allowed(s, SendsFinal(id, Wire(wire))) <==> free && 1 <= |wire| <= 65535)
            && (Allowed(s, SendsFinal(id, Dropped)) <==> free)
  {
  }

  function Receive(s: System, m: Sent): System {
    match m
    case Nothing => s
    case QueryFrame(id, q) => s.(open := s.open[id := Ticket(q, false)])
    case ReplyFrame(id, _, _) =>
      if id in s.open then s.(open := s.open[id := s.open[id].(waiting := false)]) else s
  }

  /** A QUERY gives its id the turn, and a REPLY gives it back, for a decider that waits too. */
  lemma TurnComesBack(s: System, id: U32, q: nat, wire: Bytes)
    ensures MaySend(Receive(s, QueryFrame(id, q)), id)
    ensures MaySend(Receive(s, ReplyFrame(id, q, wire)), id) <==> id in s.open
  {
  }

  function Play(s: System, m: Move): System
    requires Allowed(s, m)
  {
    match m
    case GatewayDoes(step) =>
      var out := Output(s.gateway, step);
      s.(gateway := Apply(s.gateway, step), down := if out == Nothing then s.down else s.down + [out])
    case GatewayReads => s.(gateway := HandleFrame(s.gateway, FrameOf(s.up[0])), up := s.up[1..])
    case DeciderReads => Receive(s.(down := s.down[1..]), s.down[0])
    case SendsReady => s.(up := s.up + [ReadyUp], readySent := true)
    case SendsForward(id, wire) =>
      s.(up := s.up + [ForwardUp(id, s.open[id].q, wire)], open := s.open[id := s.open[id].(waiting := true)])
    case SendsFinal(id, answer) =>
      s.(up := s.up + [FinalUp(id, s.open[id].q, answer)], open := s.open - {id},
         answers := s.answers[s.open[id].q := answer])
  }

  predicate Plays(s: System, moves: seq<Move>, end: System)
    decreases |moves|
  {
    if moves == [] then s == end
    else Allowed(s, moves[0]) && Plays(Play(s, moves[0]), moves[1..], end)
  }

  // ----- an id stands for one query at a time, wherever its QUERY has got to -----

  /** The table says the id is q's, and q has written its QUERY. */
  predicate Owns(g: Gateway, id: U32, q: nat) {
    id in g.session.calls && g.session.calls[id] == q && q < |g.queries| && g.queries[q].pc != Sending
  }

  predicate NoQuery(down: seq<Sent>, id: U32) {
    forall i :: 0 <= i < |down| && down[i].QueryFrame? ==> down[i].id != id
  }

  predicate NoFinal(up: seq<FromDecider>, id: U32) {
    forall i :: 0 <= i < |up| && up[i].FinalUp? ==> up[i].id != id
  }

  predicate DownOk(g: Gateway, down: seq<Sent>, open: map<U32, Ticket>, up: seq<FromDecider>) {
    && (forall i :: 0 <= i < |down| && down[i].QueryFrame? ==>
          Owns(g, down[i].id, down[i].q) && down[i].id !in open && NoFinal(up, down[i].id))
    && (forall i, j :: 0 <= i < j < |down| && down[i].QueryFrame? && down[j].QueryFrame? ==> down[i].id != down[j].id)
  }

  predicate OpenOk(g: Gateway, open: map<U32, Ticket>, up: seq<FromDecider>) {
    forall id <- open :: Owns(g, id, open[id].q) && NoFinal(up, id)
  }

  predicate UpOk(g: Gateway, up: seq<FromDecider>, answers: map<nat, Answer>) {
    && (forall i :: 0 <= i < |up| && up[i].FinalUp? ==>
          && Owns(g, up[i].id, up[i].q)
          && up[i].q in answers && answers[up[i].q] == up[i].answer
          && (up[i].answer.Wire? ==> 0 < |up[i].answer.bytes| <= MAX_WIRE))
    && (forall i, j :: 0 <= i < j < |up| && up[i].FinalUp? && up[j].FinalUp? ==> up[i].id != up[j].id)
    && (forall i :: 0 <= i < |up| && up[i].ForwardUp? ==> |up[i].wire| <= MAX_WIRE)
  }

  /** A final frame the gateway handed to a query is the one the decider gave for that query. */
  predicate GivenOk(g: Gateway, answers: map<nat, Answer>) {
    forall q :: 0 <= q < |g.queries| && g.queries[q].given.Some? ==>
      q in answers && g.queries[q].given.value == answers[q] && g.queries[q].pc != Sending
  }

  predicate SystemInv(s: System) {
    && Inv(s.gateway)
    && DownOk(s.gateway, s.down, s.open, s.up)
    && OpenOk(s.gateway, s.open, s.up)
    && UpOk(s.gateway, s.up, s.answers)
    && GivenOk(s.gateway, s.answers)
  }

  // ----- what a gateway step does to ownership -----

  /** Ownership and final frames survive, and a query never goes back to before its QUERY write. */
  predicate KeepsOwners(g: Gateway, g': Gateway) {
    && |g.queries| <= |g'.queries|
    && (forall id <- g.session.calls :: id in g'.session.calls && g'.session.calls[id] == g.session.calls[id])
    && (forall q :: 0 <= q < |g.queries| ==>
          g'.queries[q].given == g.queries[q].given
          && (g.queries[q].pc != Sending ==> g'.queries[q].pc != Sending))
    && (forall q :: |g.queries| <= q < |g'.queries| ==> g'.queries[q].given.None?)
  }

  lemma OwnStepKeepsOwners(g: Gateway, step: Step)
    requires Enabled(g, step) && Queries(step).Some?
    ensures KeepsOwners(g, Apply(g, step))
  {
    hide Apply, Enabled, QueryStep;
    var q := Queries(step).value;
    OwnStepShape(g, step, q);
    EnabledIsAtStep(g, step, q);
    NeverUnwritten(g.queries[q], step);
  }

  lemma NeverUnwritten(x: Query, step: Step)
    requires AtStep(x, step)
    ensures QueryStep(x, step).given == x.given && QueryStep(x, step).pc != Sending
  {
  }

  lemma StepKeepsOwners(g: Gateway, step: Step)
    requires Enabled(g, step) && !step.Read?
    ensures KeepsOwners(g, Apply(g, step))
  {
    hide QueryStep, Register, Deliver, HandleFrame;
    if Queries(step).Some? {
      OwnStepKeepsOwners(g, step);
    }
  }

  lemma ForwardKeepsOwners(g: Gateway, m: FromDecider)
    requires !m.FinalUp? && (m.ForwardUp? ==> |m.wire| <= MAX_WIRE)
    ensures KeepsOwners(g, HandleFrame(g, FrameOf(m)))
  {
  }

  lemma KeptOwners(g: Gateway, g': Gateway, down: seq<Sent>, open: map<U32, Ticket>, up: seq<FromDecider>,
                   answers: map<nat, Answer>)
    requires KeepsOwners(g, g')
    requires DownOk(g, down, open, up) && OpenOk(g, open, up) && UpOk(g, up, answers) && GivenOk(g, answers)
    ensures DownOk(g', down, open, up) && OpenOk(g', open, up) && UpOk(g', up, answers) && GivenOk(g', answers)
  {
  }

  lemma QueryWritten(s: System, q: nat)
    requires SystemInv(s) && Enabled(s.gateway, SendQuery(q, true))
    ensures var id := s.gateway.queries[q].id;
            && Owns(Apply(s.gateway, SendQuery(q, true)), id, q)
            && id !in s.open && NoFinal(s.up, id) && NoQuery(s.down, id)
  {
    var g := s.gateway;
    assert QueryOk(g.queries[q]) && PlaceOk(g.session, g.reader, q, g.queries[q]);
  }

  lemma WrittenKeeps(g: Gateway, down: seq<Sent>, open: map<U32, Ticket>, up: seq<FromDecider>, out: Sent)
    requires DownOk(g, down, open, up)
    requires out.QueryFrame? ==>
               Owns(g, out.id, out.q) && out.id !in open && NoFinal(up, out.id) && NoQuery(down, out.id)
    ensures DownOk(g, down + [out], open, up)
  {
  }

  lemma GatewayDoesKeeps(s: System, step: Step)
    requires SystemInv(s) && Allowed(s, GatewayDoes(step))
    ensures SystemInv(Play(s, GatewayDoes(step)))
  {
    hide Inv, Apply, Enabled, OpenOk, UpOk, GivenOk;
    var g' := Apply(s.gateway, step);
    var out := Output(s.gateway, step);
    assert Play(s, GatewayDoes(step)) == s.(gateway := g', down := if out == Nothing then s.down else s.down + [out]);
    StepKeepsInv(s.gateway, step);
    StepKeepsOwners(s.gateway, step);
    KeptOwners(s.gateway, g', s.down, s.open, s.up, s.answers);
    if out.QueryFrame? {
      QueryWritten(s, out.q);
      WrittenKeeps(g', s.down, s.open, s.up, out);
    } else if out.ReplyFrame? {
      WrittenKeeps(g', s.down, s.open, s.up, out);
    }
  }

  predicate SameTickets(open: map<U32, Ticket>, open': map<U32, Ticket>) {
    open'.Keys == open.Keys && forall id <- open :: open'[id].q == open[id].q
  }

  lemma TicketsKeep(g: Gateway, down: seq<Sent>, open: map<U32, Ticket>, open': map<U32, Ticket>, up: seq<FromDecider>)
    requires SameTickets(open, open') && DownOk(g, down, open, up) && OpenOk(g, open, up)
    ensures DownOk(g, down, open', up) && OpenOk(g, open', up)
  {
  }

  lemma TailKeeps(g: Gateway, down: seq<Sent>, open: map<U32, Ticket>, up: seq<FromDecider>)
    requires down != [] && DownOk(g, down, open, up)
    ensures DownOk(g, down[1..], open, up)
    ensures down[0].QueryFrame? ==> NoQuery(down[1..], down[0].id)
  {
    var tail := down[1..];
    assert forall i :: 0 <= i < |tail| ==> tail[i] == down[i + 1];
  }

  lemma OpenedKeeps(g: Gateway, down: seq<Sent>, open: map<U32, Ticket>, up: seq<FromDecider>, id: U32, q: nat)
    requires DownOk(g, down, open, up) && OpenOk(g, open, up)
    requires Owns(g, id, q) && NoFinal(up, id) && NoQuery(down, id)
    ensures DownOk(g, down, open[id := Ticket(q, false)], up) && OpenOk(g, open[id := Ticket(q, false)], up)
  {
  }

  lemma ReceiveKeeps(g: Gateway, down: seq<Sent>, open: map<U32, Ticket>, open': map<U32, Ticket>, up: seq<FromDecider>)
    requires down != [] && DownOk(g, down, open, up) && OpenOk(g, open, up)
    requires down[0].QueryFrame? ==> open' == open[down[0].id := Ticket(down[0].q, false)]
    requires !down[0].QueryFrame? ==> SameTickets(open, open')
    ensures DownOk(g, down[1..], open', up) && OpenOk(g, open', up)
  {
    var m := down[0];
    TailKeeps(g, down, open, up);
    if m.QueryFrame? {
      assert Owns(g, m.id, m.q) && NoFinal(up, m.id);
      OpenedKeeps(g, down[1..], open, up, m.id, m.q);
    } else {
      TicketsKeep(g, down[1..], open, open', up);
    }
  }

  lemma Received(s: System) returns (open: map<U32, Ticket>)
    requires s.down != []
    ensures Play(s, DeciderReads) == s.(down := s.down[1..], open := open)
    ensures s.down[0].QueryFrame? ==> open == s.open[s.down[0].id := Ticket(s.down[0].q, false)]
    ensures !s.down[0].QueryFrame? ==> SameTickets(s.open, open)
  {
    open := Receive(s, s.down[0]).open;
  }

  lemma DeciderReadsKeeps(s: System)
    requires SystemInv(s) && Allowed(s, DeciderReads)
    ensures SystemInv(Play(s, DeciderReads))
  {
    var open := Received(s);
    ReceiveKeeps(s.gateway, s.down, s.open, open, s.up);
  }

  lemma ClosedKeeps(g: Gateway, down: seq<Sent>, open: map<U32, Ticket>, up: seq<FromDecider>, m: FromDecider)
    requires DownOk(g, down, open, up) && OpenOk(g, open, up)
    requires m.FinalUp? && m.id in open
    ensures DownOk(g, down, open - {m.id}, up + [m]) && OpenOk(g, open - {m.id}, up + [m])
  {
  }

  lemma AnsweredKeeps(g: Gateway, up: seq<FromDecider>, answers: map<nat, Answer>, m: FromDecider)
    requires TableOk(g.session.calls, g.queries) && UpOk(g, up, answers) && GivenOk(g, answers)
    requires m.FinalUp? && Owns(g, m.id, m.q) && NoFinal(up, m.id)
    requires m.answer.Wire? ==> 0 < |m.answer.bytes| <= MAX_WIRE
    ensures UpOk(g, up + [m], answers[m.q := m.answer]) && GivenOk(g, answers[m.q := m.answer])
  {
    assert forall i :: 0 <= i < |up| && up[i].FinalUp? ==> up[i].q != m.q;
  }

  lemma SendsFinalKeeps(s: System, id: U32, answer: Answer)
    requires SystemInv(s) && Allowed(s, SendsFinal(id, answer))
    ensures SystemInv(Play(s, SendsFinal(id, answer)))
  {
    var m := FinalUp(id, s.open[id].q, answer);
    ClosedKeeps(s.gateway, s.down, s.open, s.up, m);
    AnsweredKeeps(s.gateway, s.up, s.answers, m);
  }

  /** Every id but the given one keeps its owner. */
  ghost predicate LosesOnly(g: Gateway, g': Gateway, id: U32) {
    forall i, q | Owns(g, i, q) && i != id :: Owns(g', i, q)
  }

  lemma LosingKeeps(g: Gateway, g': Gateway, down: seq<Sent>, open: map<U32, Ticket>, up: seq<FromDecider>,
                    answers: map<nat, Answer>)
    requires up != [] && up[0].FinalUp? && LosesOnly(g, g', up[0].id)
    requires DownOk(g, down, open, up) && OpenOk(g, open, up) && UpOk(g, up, answers)
    ensures DownOk(g', down, open, up[1..]) && OpenOk(g', open, up[1..]) && UpOk(g', up[1..], answers)
  {
    var tail := up[1..];
    assert forall i :: 0 <= i < |tail| ==> tail[i] == up[i + 1];
    assert forall id | NoFinal(up, id) :: NoFinal(tail, id) && id != up[0].id;
  }

  lemma FinishLoses(g: Gateway, id: U32, q: nat, answer: Answer, answers: map<nat, Answer>)
    requires TableOk(g.session.calls, g.queries) && GivenOk(g, answers) && Owns(g, id, q)
    requires q in answers && answers[q] == answer
    ensures LosesOnly(g, Finished(g, id, answer), id) && GivenOk(Finished(g, id, answer), answers)
  {
    hide Finish;
  }

  lemma FinalFrame(g: Gateway, m: FromDecider)
    requires m.FinalUp? && (m.answer.Wire? ==> 0 < |m.answer.bytes| <= MAX_WIRE)
    ensures HandleFrame(g, FrameOf(m)) == Finished(g, m.id, m.answer)
  {
  }

  /** The decider's final frame for an id takes that id, and only that id, out of the table. */
  lemma FinalReadKeeps(s: System)
    requires SystemInv(s) && Allowed(s, GatewayReads) && s.up[0].FinalUp?
    ensures SystemInv(Play(s, GatewayReads))
  {
    var m, g := s.up[0], s.gateway;
    var g' := Finished(g, m.id, m.answer);
    assert Owns(g, m.id, m.q) && s.answers[m.q] == m.answer;
    FinalFrame(g, m);
    assert Play(s, GatewayReads) == s.(gateway := g', up := s.up[1..]);
    FinishKeeps(g, m.id, m.answer);
    FinishLoses(g, m.id, m.q, m.answer, s.answers);
    LosingKeeps(g, g', s.down, s.open, s.up, s.answers);
  }

  lemma UpTailKeeps(g: Gateway, down: seq<Sent>, open: map<U32, Ticket>, up: seq<FromDecider>,
                    answers: map<nat, Answer>)
    requires up != [] && DownOk(g, down, open, up) && OpenOk(g, open, up) && UpOk(g, up, answers)
    ensures DownOk(g, down, open, up[1..]) && OpenOk(g, open, up[1..]) && UpOk(g, up[1..], answers)
  {
    var tail := up[1..];
    assert forall i :: 0 <= i < |tail| ==> tail[i] == up[i + 1];
  }

  lemma OtherReadKeeps(s: System)
    requires SystemInv(s) && Allowed(s, GatewayReads) && !s.up[0].FinalUp?
    ensures SystemInv(Play(s, GatewayReads))
  {
    var g' := HandleFrame(s.gateway, FrameOf(s.up[0]));
    ReadKeeps(s.gateway, FrameOf(s.up[0]));
    ForwardKeepsOwners(s.gateway, s.up[0]);
    KeptOwners(s.gateway, g', s.down, s.open, s.up, s.answers);
    UpTailKeeps(g', s.down, s.open, s.up, s.answers);
  }

  lemma NonFinalKeeps(g: Gateway, down: seq<Sent>, open: map<U32, Ticket>, up: seq<FromDecider>,
                      answers: map<nat, Answer>,
      m: FromDecider)
    requires DownOk(g, down, open, up) && OpenOk(g, open, up) && UpOk(g, up, answers)
    requires !m.FinalUp? && (m.ForwardUp? ==> |m.wire| <= MAX_WIRE)
    ensures DownOk(g, down, open, up + [m]) && OpenOk(g, open, up + [m]) && UpOk(g, up + [m], answers)
  {
  }

  lemma SendsOtherKeeps(s: System, m: Move)
    requires SystemInv(s) && Allowed(s, m) && (m == SendsReady || m.SendsForward?)
    ensures SystemInv(Play(s, m))
  {
    hide Inv, DownOk, OpenOk, UpOk, GivenOk, Apply, HandleFrame;
    var s' := Play(s, m);
    var sent := if m == SendsReady then ReadyUp else ForwardUp(m.id, s.open[m.id].q, m.wire);
    NonFinalKeeps(s.gateway, s.down, s.open, s.up, s.answers, sent);
    TicketsKeep(s.gateway, s.down, s.open, s'.open, s'.up);
  }

  lemma PlayKeepsInv(s: System, m: Move)
    requires SystemInv(s) && Allowed(s, m)
    ensures SystemInv(Play(s, m))
  {
    hide Play, Inv, DownOk, OpenOk, UpOk, GivenOk;
    match m
    case GatewayDoes(step) => GatewayDoesKeeps(s, step);
    case GatewayReads => if s.up[0].FinalUp? { FinalReadKeeps(s); } else { OtherReadKeeps(s); }
    case DeciderReads => DeciderReadsKeeps(s);
    case SendsFinal(id, answer) => SendsFinalKeeps(s, id, answer);
    case _ => SendsOtherKeeps(s, m);
  }

  lemma {:induction false} PlaysKeepInv(s: System, moves: seq<Move>, end: System)
    requires SystemInv(s) && Plays(s, moves, end)
    ensures SystemInv(end)
    decreases |moves|
  {
    hide SystemInv, Play, Allowed;
    if moves != [] {
      PlayKeepsInv(s, moves[0]);
      PlaysKeepInv(Play(s, moves[0]), moves[1..], end);
    }
  }

  // ----- what follows for every run with a conforming decider -----

  lemma InitialSystem(waits: bool)
    ensures SystemInv(Initial(waits))
  {
  }

  /**
   No cross-delivery: the answer `Decide` returns is the one the decider gave to that query's own QUERY,
   across id reuse, wraparound and abandonment.
   */
  lemma NoCrossDelivery(waits: bool, moves: seq<Move>, end: System, q: nat)
    requires Plays(Initial(waits), moves, end)
    requires q < |end.gateway.queries|
    requires end.gateway.queries[q].pc.Returned? && end.gateway.queries[q].pc.outcome.Answered?
    ensures q in end.answers && end.answers[q] == end.gateway.queries[q].pc.outcome.answer
  {
    InitialSystem(waits);
    PlaysKeepInv(Initial(waits), moves, end);
    assert QueryOk(end.gateway.queries[q]);
  }

  /** The decider never reads a QUERY whose id is still in flight with it, which it would take for a protocol error. */
  lemma NoIdInFlightTwice(waits: bool, moves: seq<Move>, end: System, i: nat)
    requires Plays(Initial(waits), moves, end)
    requires i < |end.down| && end.down[i].QueryFrame?
    ensures end.down[i].id != 0 && end.down[i].id !in end.open
    ensures forall j :: 0 <= j < |end.down| && j != i && end.down[j].QueryFrame? ==> end.down[j].id != end.down[i].id
  {
    InitialSystem(waits);
    PlaysKeepInv(Initial(waits), moves, end);
    assert Owns(end.gateway, end.down[i].id, end.down[i].q);
  }

  // ----- a conforming decider is never accused -----

  /** READY is sent once: seen, on the wire once, or not yet sent. */
  predicate ReadyOk(seen: bool, sent: bool, up: seq<FromDecider>) {
    && (seen ==> sent)
    && (forall i :: 0 <= i < |up| && up[i] == ReadyUp ==> sent && !seen)
    && (forall i, j :: 0 <= i < j < |up| ==> !(up[i] == ReadyUp && up[j] == ReadyUp))
  }

  predicate Trusted(s: System) {
    && ReadyOk(s.gateway.readySeen, s.readySent, s.up)
    && s.gateway.session.err != Some(ProtocolError)
  }

  lemma StepKeepsTrust(g: Gateway, step: Step)
    requires Enabled(g, step) && !step.Read? && g.session.err != Some(ProtocolError)
    ensures Apply(g, step).session.err != Some(ProtocolError) && Apply(g, step).readySeen == g.readySeen
  {
    hide Apply, Enabled, QueryStep;
    if Queries(step).Some? {
      OwnStepShape(g, step, Queries(step).value);
    } else {
      SharedStepKeepsTrust(g, step);
    }
  }

  lemma SharedStepKeepsTrust(g: Gateway, step: Step)
    requires Enabled(g, step) && !step.Read? && Queries(step).None? && g.session.err != Some(ProtocolError)
    ensures Apply(g, step).session.err != Some(ProtocolError) && Apply(g, step).readySeen == g.readySeen
  {
    hide QueryStep, Register, Receiving, Deliver, HandleFrame;
  }

  lemma ReadKeepsTrust(g: Gateway, m: FromDecider)
    requires g.session.err != Some(ProtocolError)
    requires m == ReadyUp ==> !g.readySeen
    requires m.ForwardUp? ==> |m.wire| <= MAX_WIRE
    requires m.FinalUp? && m.answer.Wire? ==> 0 < |m.answer.bytes| <= MAX_WIRE
    ensures HandleFrame(g, FrameOf(m)).session.err != Some(ProtocolError)
    ensures HandleFrame(g, FrameOf(m)).readySeen == (g.readySeen || m == ReadyUp)
  {
  }

  lemma PlayKeepsTrust(s: System, m: Move)
    requires UpOk(s.gateway, s.up, s.answers) && Trusted(s) && Allowed(s, m)
    ensures Trusted(Play(s, m))
  {
    match m
    case GatewayDoes(step) => StepKeepsTrust(s.gateway, step);
    case GatewayReads =>
      ReadKeepsTrust(s.gateway, s.up[0]);
      ReadyTail(s.gateway.readySeen, s.readySent, s.up);
    case DeciderReads => var open := Received(s);
    case _ =>
  }

  lemma ReadyTail(seen: bool, sent: bool, up: seq<FromDecider>)
    requires up != [] && ReadyOk(seen, sent, up)
    ensures ReadyOk(seen || up[0] == ReadyUp, sent, up[1..])
  {
    var tail := up[1..];
    assert forall i :: 0 <= i < |tail| ==> tail[i] == up[i + 1];
  }

  lemma {:induction false} PlaysKeepTrust(s: System, moves: seq<Move>, end: System)
    requires SystemInv(s) && Trusted(s) && Plays(s, moves, end)
    ensures Trusted(end)
    decreases |moves|
  {
    hide Play, Allowed, Trusted;
    if moves != [] {
      PlayKeepsInv(s, moves[0]);
      PlayKeepsTrust(s, moves[0]);
      PlaysKeepTrust(Play(s, moves[0]), moves[1..], end);
    }
  }

  /** With a conforming decider, waiting or not, the session never ends with a protocol error. */
  lemma ConformingIsNeverAccused(waits: bool, moves: seq<Move>, end: System)
    requires Plays(Initial(waits), moves, end)
    ensures end.gateway.session.err != Some(ProtocolError)
  {
    InitialSystem(waits);
    PlaysKeepTrust(Initial(waits), moves, end);
  }

  /** The gateway's part of a play is a run of the gateway alone. */
  lemma {:induction false} GatewayPart(s: System, moves: seq<Move>, end: System) returns (steps: seq<Step>)
    requires Plays(s, moves, end)
    ensures Runs(s.gateway, steps, end.gateway)
    decreases |moves|
  {
    hide HandleFrame, QueryStep, Started, Delivered;
    if moves == [] {
      steps := [];
    } else {
      var tail := GatewayPart(Play(s, moves[0]), moves[1..], end);
      match moves[0]
      case GatewayDoes(step) => steps := [step] + tail; assert steps[1..] == tail;
      case GatewayReads => steps := [Read(FrameOf(s.up[0]))] + tail; assert steps[1..] == tail;
      case _ => steps := tail;
    }
  }

  /**
   Retirement loses nothing. A decider is marked retired before anyone asks for `drained`; that channel is
   closed while the session lives. From then on the session may end at any moment and in any way: every query
   ever registered returns the answer the decider gave it, unless its own context ended.
   */
  lemma RetirementLosesNothing(start: System, moves: seq<Move>, mid: System, more: seq<Step>, end: Gateway, q: nat)
    requires SystemInv(start) && start.gateway.session.retired && start.gateway.session.idle.None?
    requires Plays(start, moves, mid)
    requires mid.gateway.session.idle == Some(Closed) && mid.gateway.session.err.None?
    requires Runs(mid.gateway, more, end)
    requires q < |mid.gateway.queries| && mid.gateway.queries[q].id != 0
    ensures end.session.calls == map[]
    ensures q in mid.answers && q < |end.queries|
    ensures end.queries[q].pc.Returned? ==>
              end.queries[q].pc.outcome == Answered(mid.answers[q]) || end.queries[q].pc.outcome == ContextEnded
    ensures !ContextGone(mid.gateway.queries[q]) && ContextEnds(q) !in more && end.queries[q].pc.Returned? ==>
              end.queries[q].pc.outcome == Answered(mid.answers[q])
  {
    var steps := GatewayPart(start, moves, mid);
    PlaysKeepInv(start, moves, mid);
    DrainedMeansFinished(start.gateway, steps, mid.gateway, more, end);
    FinishedHolds(mid.gateway, mid.answers, q);
    FinalFrameIsReturned(mid.gateway, more, end, q, mid.answers[q]);
  }

  lemma FinishedHolds(g: Gateway, answers: map<nat, Answer>, q: nat)
    requires Inv(g) && GivenOk(g, answers) && g.session.err.None?
    requires q < |g.queries| && g.queries[q].given.Some? && g.queries[q].id != 0
    ensures q in answers && Holds(g.queries[q], answers[q])
  {
    assert QueryOk(g.queries[q]) && PlaceOk(g.session, g.reader, q, g.queries[q]);
  }

  /**
   The decider's discipline is needed: if it answers an id before the QUERY was written, the drain completes,
   and a session that then ends makes `Decide` return the session's error although its final frame is there.
   */
  lemma ForgedAnswerIsLost() returns (steps: seq<Step>, end: Gateway)
    ensures Runs(INITIAL, steps, end) && end.session.retired && end.session.idle == Some(Closed)
    ensures |end.queries| == 1 && end.queries[0].id != 0
    ensures end.queries[0].call.final == Full(Dropped) && end.queries[0].pc == Returned(SessionFailed)
  {
    hide Apply, Enabled;
    var b := RetiredWhileSending();
    var id := b.queries[0].id;
    var c, d := ForgedDrop(b, id);
    end := Apply(d, SendQuery(0, false));
    steps := [];
    assert Runs(end, steps, end);
    steps := Before(d, SendQuery(0, false), steps, end);
    steps := Before(c, Drain, steps, end);
    steps := Before(b, Read(Frame(DROP, id, [])), steps, end);
    RunsOn(INITIAL, [Start, Retire], b, steps, end);
    steps := [Start, Retire] + steps;
  }

  predicate SendingAlone(g: Gateway, id: U32) {
    && g.reader == Reading && g.session.retired && g.session.idle.None?
    && g.session.calls == map[id := 0] && id != 0
    && g.queries == [Query(id, NEW_CALL, Sending, Tally(0, 0), NO_LOG, None)]
  }

  lemma RetiredWhileSending() returns (b: Gateway)
    ensures Runs(INITIAL, [Start, Retire], b) && |b.queries| == 1 && SendingAlone(b, b.queries[0].id)
  {
    hide HandleFrame, QueryStep, Delivered;
    var a := Apply(INITIAL, Start);
    b := Apply(a, Retire);
    assert Runs(b, [], b);
    var last := Before(a, Retire, [], b);
    var all := Before(INITIAL, Start, last, b);
  }

  lemma ForgedDrop(b: Gateway, id: U32) returns (c: Gateway, d: Gateway)
    requires SendingAlone(b, id)
    ensures Enabled(b, Read(Frame(DROP, id, []))) && c == Apply(b, Read(Frame(DROP, id, [])))
    ensures Enabled(c, Drain) && d == Apply(c, Drain) && Enabled(d, SendQuery(0, false))
    ensures var end := Apply(d, SendQuery(0, false));
            && end.session.retired && end.session.idle == Some(Closed)
            && |end.queries| == 1 && end.queries[0].id != 0
            && end.queries[0].call.final == Full(Dropped) && end.queries[0].pc == Returned(SessionFailed)
  {
    hide Started, Delivered, DecisionSession.Drained, HandleFrame, Finished, SendingAlone;
    FinalFrame(b, FinalUp(id, 0, Dropped));
    DropLeaves(b, id);
    c := Apply(b, Read(Frame(DROP, id, [])));
    DrainKeepsWaiting(c.session);
    d := Apply(c, Drain);
    DrainKeepsRetired(c.session);
  }

  lemma DropLeaves(b: Gateway, id: U32)
    requires SendingAlone(b, id)
    ensures b.reader == Reading
    ensures var c := Finished(b, id, Dropped);
            && c.session.retired && c.session.idle.None? && c.session.calls == map[] && |c.queries| == 1
            && c.queries[0].id != 0 && c.queries[0].pc == Sending && c.queries[0].call.final == Full(Dropped)
  {
    assert b.session.calls - {id} == map[];
  }

  lemma DrainKeepsRetired(s: Session<nat>)
    ensures DecisionSession.Drained(s).retired == s.retired
  {
  }
}
