/**
 `call` and `Decider` of go/pfb_dns_gateway/decider.go as objects whose methods update fields. Each
 method is one critical section; its contract ties the whole new state to the functions of
 DecisionSession.
 */
module DecisionObjects {
  import opened Common
  import opened FrameCodec
  import opened IdAllocation
  import S = DecisionSession

  class Call {
    var forward: S.Slot<Bytes>
    var final: S.Slot<S.Answer>
    var busy: bool
    var abandoned: bool

    function State(): S.CallState
      reads this
    {
      S.CallState(forward, final, busy, abandoned)
    }

    constructor ()
      ensures State() == S.NEW_CALL
    {
      forward, final, busy, abandoned := S.Empty, S.Empty, false, false;
    }

    method Deliver(wire: Bytes) returns (gone: bool)
      modifies this
      ensures (State(), gone) == S.Deliver(old(State()), wire)
    {
      if abandoned {
        return true;
      }
      if !busy {
        busy := true;
        forward := S.Put(forward, wire);
      }
      gone := false;
    }

    method Answered()
      modifies this`busy
      ensures State() == old(State()).(busy := false)
    {
      busy := false;
    }

    method Abandon() returns (unanswered: bool)
      modifies this
      ensures (State(), unanswered) == S.Abandon(old(State()))
    {
      abandoned := true;
      if forward.Empty? {
        unanswered := false;
      } else {
        forward := S.Empty;
        unanswered := true;
      }
    }

    /** The answer the decider already gave, else nothing: the session's own error stands. */
    method Delivered() returns (answer: Option<S.Answer>)
      modifies this`final
      ensures answer == if old(final).Full? then Some(old(final).value) else None
      ensures State() == if answer.Some? then old(State()).(final := S.Empty) else old(State())
    {
      if final.Full? {
        answer := Some(final.value);
        final := S.Empty;
      } else {
        answer := None;
      }
    }
  }

  class Decider {
    var calls: map<U32, Call>
    var nextId: U32
    var err: Option<S.SessionError>
    var done: S.Signal
    var closing: bool
    var retired: bool
    var capHit: bool
    var idle: Option<S.Signal>

    function State(): S.Session<Call>
      reads this
    {
      S.Session(calls, nextId, err, done, closing, retired, capHit, idle)
    }

    predicate Valid()
      reads this
    {
      && (err.None? <==> done.Open?)
      && (forall id <- calls :: id != 0)
    }

    constructor ()
      ensures Valid() && State() == S.NewSession()
    {
      calls, nextId, err, done := map[], 0, None, S.Open;
      closing, retired, capHit, idle := false, false, false, None;
    }

    method MarkClosing()
      modifies this`closing
      ensures State() == old(State()).(closing := true)
    {
      closing := true;
    }

    method Fail(e: S.SessionError)
      requires Valid()
      modifies this`err, this`done
      ensures Valid() && State() == S.Fail(old(State()), e)
      ensures old(err).Some? ==> err == old(err)
    {
      if err.None? {
        err := Some(if closing then S.ClosedByGateway else e);
        done := S.CloseSignal(done);
      }
    }

    method CloseIdle()
      modifies this`idle
      ensures State() == S.CloseIdle(old(State()))
    {
      if idle.None? {
        return;
      }
      match idle.value
      case Open => idle := Some(S.Closed);
      case _ =>
    }

    method MarkRetired()
      modifies this`retired
      ensures State() == S.MarkRetired(old(State()))
    {
      retired := true;
    }

    method Drained()
      modifies this`idle
      ensures State() == S.Drained(old(State()))
    {
      if idle.None? {
        idle := Some(S.Open);
        if |calls| == 0 {
          CloseIdle();
        }
      }
    }

    /** An empty table takes the full-table mark back and closes idle. */
    method SettleEmpty()
      modifies this`capHit, this`idle
      ensures State() == if |calls| == 0 then S.CloseIdle(old(State()).(capHit := false)) else old(State())
    {
      hide S.CloseIdle;
      if |calls| == 0 {
        capHit := false;
        CloseIdle();
      }
    }

    /** Final frame first, then the id leaves the table: whoever sees the table empty finds the answer in the call. */
    method TakeOut(id: U32, answer: S.Answer)
      modifies this`calls, (if id in calls then {calls[id]} else {})`final
      ensures State() == old(State()).(calls := old(calls) - {id})
      ensures id in old(calls) ==> old(calls[id]).final == S.Put(old(calls[id].final), answer)
    {
      hide S.Put;
      if id in calls {
        calls[id].final := S.Put(calls[id].final, answer);
        calls := calls - {id};
      } else {
        assert calls - {id} == calls;
      }
    }

    method Finish(id: U32, answer: S.Answer)
      requires Valid()
      modifies this`calls, this`capHit, this`idle, (if id in calls then {calls[id]} else {})`final
      ensures Valid() && State() == S.Finish(old(State()), id)
      ensures id in old(calls) ==> old(calls[id]).final == S.Put(old(calls[id].final), answer)
    {
      hide S.CloseIdle, S.Put;
      TakeOut(id, answer);
      SettleEmpty();
    }

    /** The wraparound loop: it ends within |calls| + 2 increments. */
    method FindId()
      requires |calls| < S.MAX_OUTSTANDING
      modifies this`nextId
      ensures nextId == NextFree(old(nextId), calls.Keys)
    {
      ghost var k := 0;
      ghost var busy := calls.Keys;
      while true
        invariant nextId == Advance(old(nextId), k)
        invariant forall j :: 1 <= j <= k ==> !FreeAt(old(nextId), busy, j)
        decreases |busy| + 2 - k
      {
        Pigeonhole(old(nextId), busy, k);
        AdvanceStep(old(nextId), k);
        nextId := (nextId + 1) % TWO_32;
        k := k + 1;
        if nextId != 0 && nextId !in calls {
          break;
        }
      }
      FirstIsNext(old(nextId), busy, k);
    }

    /** Reserves the first id after the last one given out that no unfinished query holds, 0 excepted. */
    method Register(c: Call) returns (r: S.Registered)
      requires Valid()
      modifies this`calls, this`nextId, this`capHit
      ensures Valid() && (State(), r) == S.Register(old(State()), c)
      ensures r.Id? ==> r.id != 0 && r.id !in old(calls)
      ensures |old(calls)| <= S.MAX_OUTSTANDING ==> |calls| <= S.MAX_OUTSTANDING
    {
      if retired {
        return S.Refused(S.DeciderRetired);
      }
      if !done.Open? {
        return S.Refused(S.SessionOver(err));
      }
      if |calls| >= S.MAX_OUTSTANDING {
        capHit := true;
        return S.Refused(S.DeciderBusy);
      }
      FindId();
      calls := calls[nextId := c];
      r := S.Id(nextId);
    }
  }
}
