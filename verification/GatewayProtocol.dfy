/**
 The decision socket as a step system (go/pfb_dns_gateway/decider.go). Many queries run `Decide`,
 one reader runs `read`, and a retirement may `markRetired`, wait on `drained` and `Close`. A step is
 one critical section, one channel operation or one frame on the wire, in the order the code takes
 them; between two steps anything else may happen. The frames the reader gets are arbitrary here.

 A query's `Tally`, `Log` and `given` are history: they record what happened and no step reads them.
 */
module GatewayProtocol {
  import opened Common
  import opened FrameCodec
  import opened DecisionSession

  datatype Outcome = Answered(answer: Answer) | NotRegistered(why: Refusal) | SessionFailed | ContextEnded

  /** Where a query stands in `Decide`. */
  datatype Pc =
    | Sending                  // registered, QUERY not yet written
    | Waiting                  // in the select
    | Serving(wire: Bytes)     // picked a FORWARD up, the forwarder runs
    | Replying(reply: Bytes)   // busy cleared, REPLY not yet written
    | GivingUp                 // its context ended, the call not yet marked
    | ReplyingEmpty            // marked, the REPLY for the FORWARD it drained not yet written
    | Ending                   // saw the session end, its final slot not yet looked at
    | Returned(outcome: Outcome)

  /** FORWARDs the reader looked a call up for, and those it then ignored because the call was busy. */
  datatype Tally = Tally(received: nat, ignored: nat)

  /** One turn of the forwarder. */
  datatype Exchange = Exchange(wire: Bytes, reply: Bytes)

  /** The FORWARD wires put into the slot, what the forwarder made of them, and the REPLY wires sent, each in order. */
  datatype Log = Log(asked: seq<Bytes>, served: seq<Exchange>, replies: seq<Bytes>)

  const NO_LOG := Log([], [], [])

  datatype Query = Query(id: U32, call: CallState, pc: Pc, tally: Tally, log: Log, given: Option<Answer>)

  /** Where the reader goroutine stands. */
  datatype Reader =
    | Reading
    | Delivering(id: U32, q: nat, wire: Bytes)  // looked the call up, not yet locked it
    | AnsweringFor(id: U32, q: nat)             // the call is abandoned, empty REPLY not yet written
    | Stopped

  datatype Gateway = Gateway(
    session: Session<nat>,
    queries: seq<Query>,
    reader: Reader,
    readySeen: bool,
    ready: Signal)

  const INITIAL := Gateway(NewSession(), [], Reading, false, Open)

  datatype Step =
    | Start                                // Decide: register
    | SendQuery(q: nat, ok: bool)
    | PickUp(q: nat)
    | Served(q: nat, reply: Bytes)         // the forwarder returned; c.answered()
    | SendReply(q: nat, ok: bool)
    | TakeFinal(q: nat)
    | ContextEnds(q: nat)
    | MarkAbandoned(q: nat)
    | SendEmpty(q: nat, ok: bool)
    | SeeDone(q: nat)
    | Conclude(q: nat)                     // c.delivered(err)
    | Read(frame: Frame)
    | ReadFails
    | HandOver                             // c.deliver(payload)
    | ReaderReply(ok: bool)
    | Retire
    | Drain
    | Close

  /** What a step puts on the wire to the decider. The query number stands for the QUERY's own bytes. */
  datatype Sent = Nothing | QueryFrame(id: U32, q: nat) | ReplyFrame(id: U32, q: nat, wire: Bytes)

  function Queries(step: Step): Option<nat> {
    match step
    case SendQuery(q, _) => Some(q)
    case PickUp(q) => Some(q)
    case Served(q, _) => Some(q)
    case SendReply(q, _) => Some(q)
    case TakeFinal(q) => Some(q)
    case ContextEnds(q) => Some(q)
    case MarkAbandoned(q) => Some(q)
    case SendEmpty(q, _) => Some(q)
    case SeeDone(q) => Some(q)
    case Conclude(q) => Some(q)
    case _ => None
  }

  predicate Enabled(g: Gateway, step: Step) {
    match step
    case SendQuery(q, _) => q < |g.queries| && g.queries[q].pc == Sending
    case PickUp(q) => q < |g.queries| && g.queries[q].pc == Waiting && g.queries[q].call.forward.Full?
    case Served(q, _) => q < |g.queries| && g.queries[q].pc.Serving?
    case SendReply(q, _) => q < |g.queries| && g.queries[q].pc.Replying?
    case TakeFinal(q) => q < |g.queries| && g.queries[q].pc == Waiting && g.queries[q].call.final.Full?
    case ContextEnds(q) => q < |g.queries| && g.queries[q].pc == Waiting
    case MarkAbandoned(q) => q < |g.queries| && g.queries[q].pc == GivingUp
    case SendEmpty(q, _) => q < |g.queries| && g.queries[q].pc == ReplyingEmpty
    case SeeDone(q) => q < |g.queries| && g.queries[q].pc == Waiting && !g.session.done.Open?
    case Conclude(q) => q < |g.queries| && g.queries[q].pc == Ending
    case Read(_) => g.reader == Reading
    case ReadFails => g.reader == Reading
    case HandOver => g.reader.Delivering? && g.reader.q < |g.queries|
    case ReaderReply(_) => g.reader.AnsweringFor? && g.reader.q < |g.queries|
    case _ => true
  }

  function Failing(g: Gateway, e: SessionError): Gateway {
    g.(session := Fail(g.session, e))
  }

  function Counted(x: Query, wire: Bytes): Query {
    x.(log := x.log.(replies := x.log.replies + [wire]))
  }

  /** What one step of query q does to the query itself; done is whether its write, if any, went out. */
  function QueryStep(x: Query, step: Step): Query {
    var c := x.call;
    match step
    case SendQuery(_, ok) => x.(pc := if ok then Waiting else Returned(SessionFailed))
    case PickUp(_) => if c.forward.Full? then x.(pc := Serving(c.forward.value), call := c.(forward := Empty)) else x
    case Served(_, reply) =>
      var log := if x.pc.Serving? then x.log.(served := x.log.served + [Exchange(x.pc.wire, reply)]) else x.log;
      x.(pc := Replying(reply), call := c.(busy := false), log := log)
    case SendReply(_, ok) => if ok && x.pc.Replying? then Counted(x, x.pc.reply).(pc := Waiting) else x.(pc := Ending)
    case TakeFinal(_) =>
      if c.final.Full? then x.(pc := Returned(Answered(c.final.value)), call := c.(final := Empty)) else x
    case ContextEnds(_) => x.(pc := GivingUp)
    case MarkAbandoned(_) =>
      var (c', unanswered) := Abandon(c);
      x.(pc := if unanswered then ReplyingEmpty else Returned(ContextEnded), call := c')
    case SendEmpty(_, ok) => (if ok then Counted(x, []) else x).(pc := Returned(ContextEnded))
    case SeeDone(_) => x.(pc := Ending)
    case Conclude(_) =>
      if c.final.Full? then x.(pc := Returned(Answered(c.final.value)), call := c.(final := Empty))
      else x.(pc := Returned(SessionFailed))
    case _ => x
  }

  predicate WriteFails(step: Step) {
    match step
    case SendQuery(_, ok) => !ok
    case SendReply(_, ok) => !ok
    case SendEmpty(_, ok) => !ok
    case ReaderReply(ok) => !ok
    case _ => false
  }

  function Started(g: Gateway): Gateway
    requires Enabled(g, Start)
  {
    var (session, r) := Register(g.session, |g.queries|);
    var entry := match r
      case Id(id) => Query(id, NEW_CALL, Sending, Tally(0, 0), NO_LOG, None)
      case Refused(why) => Query(0, NEW_CALL, Returned(NotRegistered(why)), Tally(0, 0), NO_LOG, None);
    g.(session := session, queries := g.queries + [entry])
  }

  /** finish: the final frame goes into the call before the id leaves the table. */
  function Finished(g: Gateway, id: U32, answer: Answer): Gateway {
    var queries :=
      if id in g.session.calls && g.session.calls[id] < |g.queries| then
        var q := g.session.calls[id];
        var x := g.queries[q];
        g.queries[q := x.(call := x.call.(final := Put(x.call.final, answer)), given := Some(answer))]
      else g.queries;
    g.(session := Finish(g.session, id), queries := queries)
  }

  function Rejected(g: Gateway): Gateway {
    Failing(g, ProtocolError).(reader := Stopped)
  }

  /** One turn of the reader's loop up to the point where it locks a call. */
  function HandleFrame(g: Gateway, f: Frame): Gateway {
    if f.typ == READY then
      if g.readySeen || f.id != 0 || f.payload != [] then Rejected(g)
      else g.(readySeen := true, ready := CloseSignal(g.ready))
    else if f.typ == FORWARD then
      if |f.payload| > MAX_WIRE then Rejected(g)
      else if f.id in g.session.calls && g.session.calls[f.id] < |g.queries| then
        var q := g.session.calls[f.id];
        var x := g.queries[q];
        g.(reader := Delivering(f.id, q, f.payload),
           queries := g.queries[q := x.(tally := x.tally.(received := x.tally.received + 1))])
      else g
    else if f.typ == ANSWER then
      if f.payload == [] || |f.payload| > MAX_WIRE then Rejected(g)
      else Finished(g, f.id, Wire(f.payload))
    else if f.typ == DROP then Finished(g, f.id, Dropped)
    else Rejected(g)
  }

  /** What a delivery does to the query: nothing once abandoned, an ignored FORWARD while busy, else an accepted one. */
  function Receiving(x: Query, wire: Bytes): Query {
    var (c, gone) := Deliver(x.call, wire);
    if gone then x
    else if x.call.busy then x.(call := c, tally := x.tally.(ignored := x.tally.ignored + 1))
    else x.(call := c, log := x.log.(asked := x.log.asked + [wire]))
  }

  /** The reader locks the call it looked up and delivers. */
  function Delivered(g: Gateway, id: U32, q: nat, wire: Bytes): Gateway
    requires q < |g.queries|
  {
    var x := g.queries[q];
    g.(queries := g.queries[q := Receiving(x, wire)],
       reader := if Deliver(x.call, wire).1 then AnsweringFor(id, q) else Reading)
  }

  function Apply(g: Gateway, step: Step): Gateway
    requires Enabled(g, step)
  {
    match step
    case Start => Started(g)
    case Read(f) => HandleFrame(g, f)
    case ReadFails => Failing(g, ReadFailed).(reader := Stopped)
    case HandOver => Delivered(g, g.reader.id, g.reader.q, g.reader.wire)
    case ReaderReply(ok) =>
      var q := g.reader.q;
      var g' := g.(reader := Reading);
      if ok then g'.(queries := g.queries[q := Counted(g.queries[q], [])]) else Failing(g', WriteFailed)
    case Retire => g.(session := MarkRetired(g.session))
    case Drain => g.(session := DecisionSession.Drained(g.session))
    case Close => g.(session := g.session.(closing := true))
    case _ =>
      var q := Queries(step).value;
      var g' := g.(queries := g.queries[q := QueryStep(g.queries[q], step)]);
      if WriteFails(step) then Failing(g', WriteFailed) else g'
  }

  /** The frame the step wrote. */
  function Output(g: Gateway, step: Step): Sent
    requires Enabled(g, step)
  {
    match step
    case SendQuery(q, true) => QueryFrame(g.queries[q].id, q)
    case SendReply(q, true) => ReplyFrame(g.queries[q].id, q, g.queries[q].pc.reply)
    case SendEmpty(q, true) => ReplyFrame(g.queries[q].id, q, [])
    case ReaderReply(true) => ReplyFrame(g.reader.id, g.reader.q, [])
    case _ => Nothing
  }

  /** Some run of steps leads from one state to the other. */
  predicate Runs(g: Gateway, steps: seq<Step>, end: Gateway)
    decreases |steps|
  {
    if steps == [] then g == end
    else Enabled(g, steps[0]) && Runs(Apply(g, steps[0]), steps[1..], end)
  }

  // ----- the invariant -----

  function One(b: bool): nat {
    if b then 1 else 0
  }

  predicate ReaderHolds(r: Reader, q: nat) {
    (r.Delivering? || r.AnsweringFor?) && r.q == q
  }

  /** FORWARDs a query has accepted and not replied to: in the slot and at the query. */
  function Unreplied(x: Query): nat {
    One(x.call.forward.Full?) + One(x.pc.Serving? || x.pc.Replying? || x.pc == ReplyingEmpty)
  }

  /** FORWARDs of a query that were received and wait for their REPLY, the one the reader holds included. */
  function Pending(r: Reader, q: nat, x: Query): nat {
    Unreplied(x) + One(ReaderHolds(r, q))
  }

  predicate SessionOk(s: Session<nat>) {
    && (s.err.None? ==> s.done == Open)
    && (s.err.Some? ==> s.done == Closed)
    && s.idle != Some(ClosedTwice)
    && |s.calls| <= MAX_OUTSTANDING
  }

  /** The table and the queries point at each other. */
  predicate TableOk(calls: map<U32, nat>, queries: seq<Query>) {
    forall id <- calls ::
      id != 0 && calls[id] < |queries| && queries[calls[id]].id == id && queries[calls[id]].given.None?
  }

  predicate ReaderOk(r: Reader, calls: map<U32, nat>, queries: seq<Query>) {
    && (r.Delivering? ==> r.id in calls && calls[r.id] == r.q)
    && (r.AnsweringFor? ==> r.q < |queries| && queries[r.q].call.abandoned && r.id in calls && calls[r.id] == r.q)
  }

  /** What holds of one query's own state. */
  predicate QueryOk(x: Query) {
    var c, pc := x.call, x.pc;
    && (x.id == 0 <==> pc.Returned? && pc.outcome.NotRegistered?)
    && (x.id == 0 ==> c == NEW_CALL && x.given.None? && x.tally == Tally(0, 0) && x.log == NO_LOG)
    // the one-slot channels
    && !c.forward.Overrun? && !c.final.Overrun?
    && (c.forward.Full? ==> c.busy && !c.abandoned)
    && (c.busy && !c.abandoned ==> c.forward.Full? || pc.Serving?)
    && (pc.Serving? ==> c.busy && c.forward.Empty?)
    && (c.abandoned <==> pc == ReplyingEmpty || pc == Returned(ContextEnded))
    // the final frame
    && (c.final.Full? ==> x.given == Some(c.final.value))
    && (pc.Returned? && pc.outcome.Answered? ==> x.given == Some(pc.outcome.answer) && c.final.Empty?)
    && (x.given.Some? && c.final.Empty? ==> pc == Returned(Answered(x.given.value)))
  }

  /** How one query stands to the shared state. */
  predicate PlaceOk(s: Session<nat>, r: Reader, q: nat, x: Query) {
    && (x.id != 0 && x.given.None? ==> x.id in s.calls && s.calls[x.id] == q)
    && (x.pc == Ending || x.pc == Returned(SessionFailed) ==> s.err.Some?)
    // every FORWARD received is ignored, replied to or pending, unless the session broke under it
    && x.tally.received >= x.tally.ignored + |x.log.replies| + Pending(r, q, x)
    && (s.err.None? ==> x.tally.received == x.tally.ignored + |x.log.replies| + Pending(r, q, x))
  }

  predicate QueriesOk(g: Gateway) {
    forall q :: 0 <= q < |g.queries| ==> QueryOk(g.queries[q]) && PlaceOk(g.session, g.reader, q, g.queries[q])
  }

  predicate Inv(g: Gateway) {
    && SessionOk(g.session)
    && g.ready == (if g.readySeen then Closed else Open)
    && TableOk(g.session.calls, g.queries)
    && ReaderOk(g.reader, g.session.calls, g.queries)
    && QueriesOk(g)
  }
}
