/**
 What the REPLYs carry (go/pfb_dns_gateway/decider.go, `Decide`): the FORWARDs a query accepts are served in
 order, each REPLY is what the forwarder made of its FORWARD, and after abandonment every REPLY is empty.
 This holds for an arbitrary decider.
 */
module GatewayExchange {
  import opened Common
  import opened FrameCodec
  import opened DecisionSession
  import opened GatewayProtocol
  import opened GatewayInvariant
  import opened GatewayRetirement

  function Wires(served: seq<Exchange>): (w: seq<Bytes>)
    ensures |w| == |served| && forall i :: 0 <= i < |w| ==> w[i] == served[i].wire
  {
    seq(|served|, i requires 0 <= i < |served| => served[i].wire)
  }

  function Results(served: seq<Exchange>): (r: seq<Bytes>)
    ensures |r| == |served| && forall i :: 0 <= i < |r| ==> r[i] == served[i].reply
  {
    seq(|served|, i requires 0 <= i < |served| => served[i].reply)
  }

  /** Accepted and not yet served: the FORWARD in the forwarder's hands, then the one in the slot. */
  function Unserved(x: Query): seq<Bytes> {
    (if x.pc.Serving? then [x.pc.wire] else []) + (if x.call.forward.Full? then [x.call.forward.value] else [])
  }

  predicate ExchangeOk(x: Query) {
    var results, replies := Results(x.log.served), x.log.replies;
    && (!x.call.abandoned ==> x.log.asked == Wires(x.log.served) + Unserved(x))
    && (x.call.abandoned ==> Wires(x.log.served) <= x.log.asked && results <= replies)
    && (x.call.abandoned ==> forall i :: |results| <= i < |replies| ==> replies[i] == [])
    && match x.pc
       case Replying(r) => results == replies + [r]
       case Ending => replies <= results
       case ReplyingEmpty => true
       case Returned(_) => x.call.abandoned || replies <= results
       case _ => results == replies
  }

  lemma ServedOneMore(served: seq<Exchange>, e: Exchange)
    ensures Wires(served + [e]) == Wires(served) + [e.wire]
    ensures Results(served + [e]) == Results(served) + [e.reply]
  {
  }

  lemma OwnStepKeepsExchange(x: Query, step: Step)
    requires QueryOk(x) && AtStep(x, step) && ExchangeOk(x)
    ensures ExchangeOk(QueryStep(x, step))
  {
    match step
    case Served(_, reply) =>
      ServedOneMore(x.log.served, Exchange(x.pc.wire, reply));
      assert Unserved(x) == [x.pc.wire];
    case _ =>
  }

  lemma DeliverKeepsExchange(g: Gateway, q: nat)
    requires Enabled(g, HandOver) && q < |g.queries|
    requires QueryOk(g.queries[q]) && ExchangeOk(g.queries[q])
    ensures ExchangeOk(Apply(g, HandOver).queries[q])
  {
    hide Fail;
  }

  lemma ReaderReplyKeepsExchange(g: Gateway, ok: bool, q: nat)
    requires Enabled(g, ReaderReply(ok)) && q < |g.queries|
    requires g.reader.q == q ==> g.queries[q].call.abandoned
    requires QueryOk(g.queries[q]) && ExchangeOk(g.queries[q])
    ensures ExchangeOk(Apply(g, ReaderReply(ok)).queries[q])
  {
  }

  lemma ReadKeepsExchange(g: Gateway, f: Frame, q: nat)
    requires q < |g.queries| && ExchangeOk(g.queries[q])
    ensures |HandleFrame(g, f).queries| == |g.queries| && ExchangeOk(HandleFrame(g, f).queries[q])
  {
    hide Finish, Fail;
    var x, x' := g.queries[q], HandleFrame(g, f).queries[q];
    assert x'.pc == x.pc && x'.log == x.log;
    assert x'.call.forward == x.call.forward && x'.call.abandoned == x.call.abandoned;
  }

  lemma StepKeepsExchange(g: Gateway, step: Step, q: nat)
    requires Inv(g) && Enabled(g, step) && q < |Apply(g, step).queries|
    requires q < |g.queries| ==> ExchangeOk(g.queries[q])
    ensures ExchangeOk(Apply(g, step).queries[q])
  {
    hide ExchangeOk, QueryOk, QueryStep, Register, HandleFrame, Receiving, Deliver, Fail, PlaceOk, TableOk;
    if q >= |g.queries| {
      NewQueryExchange(g, step);
    } else if Queries(step) == Some(q) {
      assert QueryOk(g.queries[q]);
      OwnStepKeepsExchange(g.queries[q], step);
    } else {
      assert QueryOk(g.queries[q]);
      OtherStepKeepsExchange(g, step, q);
    }
  }

  lemma OtherStepKeepsExchange(g: Gateway, step: Step, q: nat)
    requires Enabled(g, step) && Queries(step) != Some(q) && q < |g.queries|
    requires step.ReaderReply? && g.reader.q == q ==> g.queries[q].call.abandoned
    requires QueryOk(g.queries[q]) && ExchangeOk(g.queries[q])
    ensures q < |Apply(g, step).queries| && ExchangeOk(Apply(g, step).queries[q])
  {
    hide ExchangeOk, QueryOk, QueryStep, Register, HandleFrame, Receiving, Deliver, Fail;
    match step
    case Read(f) => ReadKeepsExchange(g, f, q);
    case HandOver => DeliverKeepsExchange(g, q);
    case ReaderReply(ok) => ReaderReplyKeepsExchange(g, ok, q);
    case _ =>
  }

  lemma NewQueryExchange(g: Gateway, step: Step)
    requires Enabled(g, step)
    ensures forall q :: |g.queries| <= q < |Apply(g, step).queries| ==> ExchangeOk(Apply(g, step).queries[q])
  {
    hide ExchangeOk, QueryStep, HandleFrame, Receiving, Deliver, Fail, Register;
    match step
    case Start => StartedExchange(g);
    case Read(f) => ReadSession(g, f);
    case _ =>
  }

  lemma StartedExchange(g: Gateway)
    requires Enabled(g, Start)
    ensures forall q :: |g.queries| <= q < |Started(g).queries| ==> ExchangeOk(Started(g).queries[q])
  {
  }

  lemma {:induction false} RunKeepsExchange(g: Gateway, steps: seq<Step>, end: Gateway)
    requires Inv(g) && Runs(g, steps, end)
    requires forall q :: 0 <= q < |g.queries| ==> ExchangeOk(g.queries[q])
    ensures forall q :: 0 <= q < |end.queries| ==> ExchangeOk(end.queries[q])
    decreases |steps|
  {
    hide Apply, Enabled, Inv, ExchangeOk;
    if steps != [] {
      StepKeepsInv(g, steps[0]);
      var g' := Apply(g, steps[0]);
      forall q | 0 <= q < |g'.queries| ensures ExchangeOk(g'.queries[q]) {
        StepKeepsExchange(g, steps[0], q);
      }
      RunKeepsExchange(g', steps[1..], end);
    }
  }

  lemma LogRead(x: Query, k: nat)
    requires ExchangeOk(x) && QueryOk(x) && k < |x.log.replies|
    ensures k < |x.log.served| ==>
              k < |x.log.asked| && x.log.served[k].wire == x.log.asked[k] && x.log.replies[k] == x.log.served[k].reply
    ensures k >= |x.log.served| ==> x.call.abandoned && x.log.replies[k] == []
  {
    var results, wires := Results(x.log.served), Wires(x.log.served);
    if x.call.abandoned {
      assert results == x.log.replies[..|results|];
      assert wires == x.log.asked[..|wires|];
    } else {
      assert x.log.replies <= results;
      assert x.log.replies == results[..|x.log.replies|];
      assert wires == x.log.asked[..|wires|];
    }
  }

  /**
   In every reachable state, of a query that is not given up: the k-th FORWARD it accepted is the k-th the
   forwarder ran on, the k-th REPLY it sent is what the forwarder returned then, and at most one result is unsent.
   */
  lemma RepliesMatchForwards(steps: seq<Step>, end: Gateway, q: nat, k: nat)
    requires Runs(INITIAL, steps, end) && q < |end.queries| && k < |end.queries[q].log.replies|
    ensures var log := end.queries[q].log;
            k < |log.served| ==>
              k < |log.asked| && log.served[k].wire == log.asked[k] && log.replies[k] == log.served[k].reply
    ensures k >= |end.queries[q].log.served| ==> end.queries[q].call.abandoned && end.queries[q].log.replies[k] == []
  {
    hide Apply, Enabled, ExchangeOk;
    InitialInv();
    RunKeepsInv(INITIAL, steps, end);
    RunKeepsExchange(INITIAL, steps, end);
    assert QueryOk(end.queries[q]) && ExchangeOk(end.queries[q]);
    LogRead(end.queries[q], k);
  }

  /** Every REPLY frame on the wire is the next entry of its query's log, under that query's id. */
  lemma RepliesAreLogged(g: Gateway, step: Step)
    requires Inv(g) && Enabled(g, step) && Output(g, step).ReplyFrame?
    ensures var out := Output(g, step);
            && out.q < |g.queries| && out.id == g.queries[out.q].id
            && Apply(g, step).queries[out.q].log.replies == g.queries[out.q].log.replies + [out.wire]
  {
  }

  // ----- how many FORWARDs of a query wait for their REPLY -----

  lemma UnrepliedBound(x: Query)
    requires QueryOk(x)
    ensures Unreplied(x) <= 2
    ensures Unreplied(x) == 2 <==> x.pc.Replying? && x.call.forward.Full?
  {
  }

  lemma UnrepliedIsOutstanding(x: Query)
    requires QueryOk(x) && ExchangeOk(x) && !x.call.abandoned && !x.pc.Ending? && !x.pc.Returned?
    ensures |x.log.asked| == |x.log.replies| + Unreplied(x)
  {
  }

  /**
   The slot's comment promises one FORWARD accepted and not yet replied to. In every run there are at most two,
   and two exactly when a REPLY is about to be written and the slot is already full again: `answered` clears busy
   before the REPLY is out. Until the query ends, the count is what it accepted less what it replied to.
   */
  lemma AcceptedAndUnreplied(steps: seq<Step>, end: Gateway, q: nat)
    requires Runs(INITIAL, steps, end) && q < |end.queries|
    ensures var x := end.queries[q];
            && Unreplied(x) <= 2
            && (Unreplied(x) == 2 <==> x.pc.Replying? && x.call.forward.Full?)
            && (!x.call.abandoned && !x.pc.Ending? && !x.pc.Returned? ==>
                  |x.log.asked| == |x.log.replies| + Unreplied(x))
  {
    InitialInv();
    RunKeepsInv(INITIAL, steps, end);
    RunKeepsExchange(INITIAL, steps, end);
    var x := end.queries[q];
    assert QueryOk(x) && ExchangeOk(x);
    UnrepliedBound(x);
    if !x.call.abandoned && !x.pc.Ending? && !x.pc.Returned? {
      UnrepliedIsOutstanding(x);
    }
  }

  lemma FreeUnreplied(x: Query)
    requires QueryOk(x) && !x.call.busy && !x.call.abandoned
    ensures Unreplied(x) == One(x.pc.Replying?)
  {
  }

  lemma OwnStepAddsNone(x: Query, step: Step)
    requires QueryOk(x) && AtStep(x, step)
    ensures Unreplied(QueryStep(x, step)) <= Unreplied(x)
  {
  }

  lemma ReceivingAddsOne(x: Query, wire: Bytes)
    requires QueryOk(x)
    ensures Unreplied(Receiving(x, wire)) == Unreplied(x) + One(!x.call.busy && !x.call.abandoned)
  {
  }

  lemma DeliveryAddsOne(g: Gateway, q: nat)
    requires Enabled(g, HandOver) && q < |g.queries| && QueryOk(g.queries[q])
    ensures q < |Apply(g, HandOver).queries|
    ensures var x := g.queries[q];
            Unreplied(Apply(g, HandOver).queries[q]) ==
              Unreplied(x) + One(g.reader.q == q && !x.call.busy && !x.call.abandoned)
  {
    hide QueryOk, Receiving, Deliver, Unreplied;
    ReceivingAddsOne(g.queries[q], g.reader.wire);
  }

  lemma OtherStepAddsNone(g: Gateway, step: Step, q: nat)
    requires Inv(g) && Enabled(g, step) && !step.HandOver? && Queries(step) != Some(q) && q < |g.queries|
    ensures q < |Apply(g, step).queries| && Unreplied(Apply(g, step).queries[q]) == Unreplied(g.queries[q])
  {
    hide Apply, Enabled;
    OthersUntouched(g, step, q);
  }

  /**
   Exactly one kind of step makes a query hold a second unreplied FORWARD: the delivery to a query that is
   Replying, not busy and not abandoned.
   */
  lemma SecondForward(g: Gateway, step: Step, q: nat)
    requires Inv(g) && Enabled(g, step) && q < |g.queries|
    ensures q < |Apply(g, step).queries|
    ensures var x, x' := g.queries[q], Apply(g, step).queries[q];
            Unreplied(x) < 2 && Unreplied(x') == 2 <==>
              step.HandOver? && g.reader.q == q && x.pc.Replying? && !x.call.busy && !x.call.abandoned
  {
    hide Apply, Enabled, QueryOk, QueryStep, Unreplied;
    var x := g.queries[q];
    assert QueryOk(x);
    UnrepliedBound(x);
    if Queries(step) == Some(q) {
      EnabledIsAtStep(g, step, q);
      OwnStepShape(g, step, q);
      OwnStepAddsNone(x, step);
    } else if step.HandOver? {
      DeliveryAddsOne(g, q);
      if !x.call.busy && !x.call.abandoned {
        FreeUnreplied(x);
      }
    } else {
      OtherStepAddsNone(g, step, q);
    }
  }

  /** The query can accept a FORWARD: it is in the table, and neither busy nor abandoned. */
  predicate Free(g: Gateway, q: nat) {
    && g.reader == Reading && q < |g.queries|
    && g.queries[q].id in g.session.calls && g.session.calls[g.queries[q].id] == q
    && g.queries[q].call.forward.Empty? && !g.queries[q].call.busy && !g.queries[q].call.abandoned
  }

  lemma Accepts(g: Gateway, q: nat, wire: Bytes) returns (end: Gateway)
    requires Free(g, q) && |wire| <= MAX_WIRE
    ensures var forward := Read(Frame(FORWARD, g.queries[q].id, wire));
            && Enabled(g, forward) && Enabled(Apply(g, forward), HandOver)
            && end == Apply(Apply(g, forward), HandOver)
    ensures end.session == g.session && end.reader == Reading && |end.queries| == |g.queries|
    ensures var x, x' := g.queries[q], end.queries[q];
            && x'.id == x.id && x'.pc == x.pc && x'.call == x.call.(busy := true, forward := Full(wire))
            && x'.log == x.log.(asked := x.log.asked + [wire])
  {
    hide QueryStep, Register, Finish, Fail;
    end := Apply(Apply(g, Read(Frame(FORWARD, g.queries[q].id, wire))), HandOver);
  }

  lemma Serves(g: Gateway, q: nat, reply: Bytes) returns (end: Gateway)
    requires q < |g.queries| && g.queries[q].pc == Waiting && g.queries[q].call.forward.Full?
    ensures Enabled(g, PickUp(q)) && Enabled(Apply(g, PickUp(q)), Served(q, reply))
    ensures end == Apply(Apply(g, PickUp(q)), Served(q, reply))
    ensures end.session == g.session && end.reader == g.reader && |end.queries| == |g.queries|
    ensures var x, x' := g.queries[q], end.queries[q];
            && x'.id == x.id && x'.pc == Replying(reply) && x'.call == x.call.(forward := Empty, busy := false)
            && x'.log.asked == x.log.asked && x'.log.replies == x.log.replies
  {
    hide HandleFrame, Register, Receiving, Deliver, Fail;
    end := Apply(Apply(g, PickUp(q)), Served(q, reply));
  }

  /** From every state with a free waiting query: two FORWARDs accepted, none replied to. */
  lemma TwoAccepted(g: Gateway, q: nat, wire: Bytes, reply: Bytes) returns (steps: seq<Step>, end: Gateway)
    requires Free(g, q) && g.queries[q].pc == Waiting && |wire| <= MAX_WIRE
    ensures var forward := Read(Frame(FORWARD, g.queries[q].id, wire));
            steps == [forward, HandOver, PickUp(q), Served(q, reply), forward, HandOver] && Runs(g, steps, end)
    ensures end.session == g.session && |end.queries| == |g.queries| && Unreplied(end.queries[q]) == 2
    ensures end.queries[q].log.asked == g.queries[q].log.asked + [wire, wire]
    ensures end.queries[q].log.replies == g.queries[q].log.replies
  {
    hide Apply, Enabled;
    var forward := Read(Frame(FORWARD, g.queries[q].id, wire));
    var b := Accepts(g, q, wire);
    var d := Serves(b, q, reply);
    end := Accepts(d, q, wire);
    steps := [];
    assert Runs(end, steps, end);
    steps := Before(Apply(d, forward), HandOver, steps, end);
    steps := Before(d, forward, steps, end);
    steps := Before(Apply(b, PickUp(q)), Served(q, reply), steps, end);
    steps := Before(b, PickUp(q), steps, end);
    steps := Before(Apply(g, forward), HandOver, steps, end);
    steps := Before(g, forward, steps, end);
  }

  lemma OneWaits() returns (g: Gateway)
    ensures Runs(INITIAL, [Start, SendQuery(0, true)], g)
    ensures Free(g, 0) && |g.queries| == 1 && g.queries[0].pc == Waiting && g.queries[0].log == NO_LOG
    ensures g.session.err.None?
  {
    hide HandleFrame, Receiving, Deliver;
    var a := Apply(INITIAL, Start);
    g := Apply(a, SendQuery(0, true));
    assert Runs(g, [], g);
    var last := Before(a, SendQuery(0, true), [], g);
    var all := Before(INITIAL, Start, last, g);
  }

  /** So the promise is broken within eight steps, by a decider that sends its second FORWARD early. */
  lemma SecondForwardIsAccepted(wire: Bytes) returns (steps: seq<Step>, end: Gateway)
    requires |wire| <= MAX_WIRE
    ensures Runs(INITIAL, steps, end) && |steps| == 8 && |end.queries| == 1 && end.session.err.None?
    ensures Unreplied(end.queries[0]) == 2 && |end.queries[0].log.asked| == 2 && end.queries[0].log.replies == []
  {
    hide Apply, Enabled;
    var g := OneWaits();
    var tail, end' := TwoAccepted(g, 0, wire, []);
    end := end';
    RunsOn(INITIAL, [Start, SendQuery(0, true)], g, tail, end);
    steps := [Start, SendQuery(0, true)] + tail;
  }
}
