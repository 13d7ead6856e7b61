/**
 The shared state of the decision socket (go/pfb_dns_gateway/decider.go) as values: what each
 critical section under `call.mu` or `Decider.mu` does. The classes in DecisionObjects update fields
 and are proved against these functions; the step system in GatewayProtocol interleaves them.

 A channel that is used wrongly is represented, not excluded: sending to a full one-slot channel
 gives `Overrun` (the sender would block), closing a closed one gives `ClosedTwice` (a panic).
 */
module DecisionSession {
  import opened Common
  import opened FrameCodec
  import opened IdAllocation

  const MAX_OUTSTANDING: nat := 4096

  /** What ends a query: the ANSWER wire, or nothing for DROP. */
  datatype Answer = Dropped | Wire(bytes: Bytes)

  datatype SessionError = ProtocolError | ReadFailed | WriteFailed | ClosedByGateway

  /** Why a query is not registered; the end of the session carries the error that ended it. */
  datatype Refusal = DeciderRetired | SessionOver(err: Option<SessionError>) | DeciderBusy

  datatype Slot<+T> = Empty | Full(value: T) | Overrun

  function Put<T>(s: Slot<T>, x: T): Slot<T> {
    if s.Empty? then Full(x) else Overrun
  }

  datatype Signal = Open | Closed | ClosedTwice

  function CloseSignal(s: Signal): Signal {
    if s.Open? then Closed else ClosedTwice
  }

  // ----- one call -----

  datatype CallState = CallState(forward: Slot<Bytes>, final: Slot<Answer>, busy: bool, abandoned: bool)

  const NEW_CALL := CallState(Empty, Empty, false, false)

  /** The reader hands over a FORWARD; true means the query is abandoned and the reader must answer. */
  function Deliver(c: CallState, wire: Bytes): (CallState, bool) {
    if c.abandoned then (c, true)
    else if c.busy then (c, false)
    else (c.(busy := true, forward := Put(c.forward, wire)), false)
  }

  /** The query gives up; true means a delivered FORWARD was never picked up. */
  function Abandon(c: CallState): (CallState, bool) {
    if c.forward.Empty? then (c.(abandoned := true), false)
    else (c.(abandoned := true, forward := Empty), true)
  }

  // ----- the session: the table of ids and its one-shot signals -----

  datatype Session<C> = Session(
    calls: map<U32, C>,
    nextId: U32,
    err: Option<SessionError>,
    done: Signal,
    closing: bool,
    retired: bool,
    capHit: bool,
    idle: Option<Signal>)

  function NewSession<C>(): Session<C> {
    Session(map[], 0, None, Open, false, false, false, None)
  }

  function Fail<C>(s: Session<C>, e: SessionError): Session<C> {
    if s.err.Some? then s
    else s.(err := Some(if s.closing then ClosedByGateway else e), done := CloseSignal(s.done))
  }

  /** Closes idle, once, if it was asked for. */
  function CloseIdle<C>(s: Session<C>): Session<C> {
    if s.idle == Some(Open) then s.(idle := Some(CloseSignal(Open))) else s
  }

  function MarkRetired<C>(s: Session<C>): Session<C> {
    s.(retired := true)
  }

  function Drained<C>(s: Session<C>): Session<C> {
    if s.idle.Some? then s
    else
      var made := s.(idle := Some(Open));
      if |s.calls| == 0 then CloseIdle(made) else made
  }

  /** Drops the id; the call that held it got its final frame just before. */
  function Finish<C>(s: Session<C>, id: U32): (r: Session<C>)
    ensures r.calls == s.calls - {id}
    ensures r.err == s.err && r.done == s.done && r.retired == s.retired
    ensures s.idle != Some(ClosedTwice) ==> r.idle != Some(ClosedTwice)
    ensures s.idle.Some? && r.calls == map[] ==> r.idle != Some(Open)
  {
    var left := s.(calls := s.calls - {id});
    if |left.calls| == 0 then CloseIdle(left.(capHit := false)) else left
  }

  lemma FinishShrinks<C>(s: Session<C>, id: U32)
    ensures |Finish(s, id).calls| <= |s.calls|
  {
    assert Finish(s, id).calls.Keys <= s.calls.Keys;
    SubsetSize(Finish(s, id).calls.Keys, s.calls.Keys);
  }

  datatype Registered = Id(id: U32) | Refused(why: Refusal)

  function Register<C>(s: Session<C>, c: C): (r: (Session<C>, Registered))
    ensures r.0.err == s.err && r.0.done == s.done && r.0.retired == s.retired && r.0.idle == s.idle
    ensures r.1.Id? ==> r.1.id != 0 && r.1.id !in s.calls && r.0.calls == s.calls[r.1.id := c]
    ensures r.1.Refused? ==> r.0.calls == s.calls
    ensures |s.calls| <= MAX_OUTSTANDING ==> |r.0.calls| <= MAX_OUTSTANDING
    ensures s.retired ==> r.1 == Refused(DeciderRetired)
  {
    if s.retired then (s, Refused(DeciderRetired))
    else if !s.done.Open? then (s, Refused(SessionOver(s.err)))
    else if |s.calls| >= MAX_OUTSTANDING then (s.(capHit := true), Refused(DeciderBusy))
    else
      var id := NextFree(s.nextId, s.calls.Keys);
      (s.(calls := s.calls[id := c], nextId := id), Id(id))
  }

  /**
   When a query gets an id and when it does not: an id exactly while the session is live, not retired and below 4096
   outstanding queries; each refusal exactly for its own cause, a retirement before the end and the end before the
   bound.
   */
  lemma RegistersExactly<C>(s: Session<C>, c: C)
    ensures var (s', r) := Register(s, c);
            && (r.Id? <==> !s.retired && s.done == Open && |s.calls| < 4096)
            && (r.Id? ==> s'.calls == s.calls[r.id := c] && |s'.calls| == |s.calls| + 1)
            && s'.nextId == (if r.Id? then r.id else s.nextId) && (s'.capHit <==> s.capHit || r == Refused(DeciderBusy))
            && (r == Refused(DeciderRetired) <==> s.retired)
            && (r.Refused? && r.why.SessionOver? <==> !s.retired && s.done != Open)
            && (r.Refused? && r.why.SessionOver? ==> r.why.err == s.err)
            && (r == Refused(DeciderBusy) <==> !s.retired && s.done == Open && |s.calls| >= 4096)
  {
    hide NextFree;
    var (s', r) := Register(s, c);
    if r.Id? {
      GrownByOne(s.calls, r.id, c);
    }
  }

  /** Ids start at 1. */
  lemma FirstQuery<C>(c: C)
    ensures Register(NewSession<C>(), c).1 == Id(1)
  {
    var calls: map<U32, C> := map[];
    FirstIsNext(0, calls.Keys, 1);
  }

  /** A slot that is not emptied in between and a signal closed again show it for ever. */
  lemma MisuseStays<T>(x: T, y: T, slot: Slot<T>, signal: Signal)
    ensures Put(Put(Empty, x), y) == Overrun && (slot == Overrun ==> Put(slot, x) == Overrun)
    ensures CloseSignal(CloseSignal(Open)) == ClosedTwice
    ensures signal == ClosedTwice ==> CloseSignal(signal) == ClosedTwice
  {
  }

  lemma GrownByOne<C>(calls: map<U32, C>, id: U32, c: C)
    requires id !in calls
    ensures |calls[id := c]| == |calls| + 1
  {
    assert calls[id := c].Keys == calls.Keys + {id};
  }
}
