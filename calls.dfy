/** The per-call state machine of the call-log pipeline: the raw Call Control
    states of a call (the network-side states of section 5.1.2.2 of 3GPP TS 24.008,
    plus the synthetic NEW, BROKEN_BY_BTS and NOT_AVAILABLE), the business statuses
    derived from them, the fixed transition table, and `Call`, the object that
    records one call's events and statuses. */
module Calls {
  import opened Wrappers

  /** Business-facing status of a call (`CallStatus`). */
  datatype CallStatus =
    | New | NotAvailable | Available | Init | Ringing | Active | RejectByUser
    | Up | Hangup | HangupByUser | HangupByBts | BreakByBts | StopByBts | Unknown

  /** `CallStatus.is_final`: after one of these the call's status no longer changes.
      Neither NEW nor UNKNOWN is final, and every final status is one the
      transition table can produce. */
  predicate IsFinal(s: CallStatus)
    ensures IsFinal(s) ==> s != CallStatus.New && s != CallStatus.Unknown
    ensures IsFinal(s) ==> exists p :: p in Transitions && Transitions[p] == Some(s)
  {
    assert Transitions[(CallState.Null, CallState.NotAvailable)] == Some(CallStatus.NotAvailable);
    assert Transitions[(CallState.CallReceived, CallState.DisconnectInd)] == Some(CallStatus.RejectByUser);
    assert Transitions[(CallState.DisconnectInd, CallState.ReleaseReq)] == Some(CallStatus.HangupByUser);
    assert Transitions[(CallState.DisconnectInd, CallState.Null)] == Some(CallStatus.HangupByBts);
    assert Transitions[(CallState.Null, CallState.BrokenByBts)] == Some(CallStatus.BreakByBts);
    assert Transitions[(CallState.CallReceived, CallState.Null)] == Some(CallStatus.StopByBts);
    s in {CallStatus.NotAvailable, CallStatus.RejectByUser, CallStatus.HangupByUser,
          CallStatus.HangupByBts, CallStatus.BreakByBts, CallStatus.StopByBts}
  }

  /** Raw state of a call as the switch logs it (`CallState`). */
  datatype CallState =
    | Null | CallPresent | MoTermCallConf | CallReceived | ConnectRequest | Active
    | DisconnectInd | ReleaseReq | BrokenByBts | NotAvailable | New

  /** The enum value of a state: the text the switch writes in its log. */
  function Name(s: CallState): string
  {
    match s
    case Null => "NULL"
    case CallPresent => "CALL_PRESENT"
    case MoTermCallConf => "MO_TERM_CALL_CONF"
    case CallReceived => "CALL_RECEIVED"
    case ConnectRequest => "CONNECT_REQUEST"
    case Active => "ACTIVE"
    case DisconnectInd => "DISCONNECT_IND"
    case ReleaseReq => "RELEASE_REQ"
    case BrokenByBts => "BROKEN_BY_BTS"
    case NotAvailable => "NOT_AVAILABLE"
    case New => "NEW"
  }

  /** `CallState(name)`: the state whose value is `name`, or None where Python
      raises ValueError. */
  function ParseState(name: string): (r: Option<CallState>)
    ensures r.Some? ==> Name(r.value) == name
    ensures r.None? ==> forall s :: Name(s) != name
  {
    if name == "NULL" then Some(CallState.Null)
    else if name == "CALL_PRESENT" then Some(CallState.CallPresent)
    else if name == "MO_TERM_CALL_CONF" then Some(CallState.MoTermCallConf)
    else if name == "CALL_RECEIVED" then Some(CallState.CallReceived)
    else if name == "CONNECT_REQUEST" then Some(CallState.ConnectRequest)
    else if name == "ACTIVE" then Some(CallState.Active)
    else if name == "DISCONNECT_IND" then Some(CallState.DisconnectInd)
    else if name == "RELEASE_REQ" then Some(CallState.ReleaseReq)
    else if name == "BROKEN_BY_BTS" then Some(CallState.BrokenByBts)
    else if name == "NOT_AVAILABLE" then Some(CallState.NotAvailable)
    else if name == "NEW" then Some(CallState.New)
    else None
  }

  /** A state's own name always parses back to that state. */
  lemma ParseName(s: CallState)
    ensures ParseState(Name(s)) == Some(s)
  {
  }

  /** One logged change of a call's raw state (`CallStateEvent`). */
  datatype CallStateEvent = CallStateEvent(state: CallState, prevState: CallState, eventTime: string)

  /** `Call._statuses`: the status a (previous, new) state pair leads to. A pair
      mapped to None leaves the status as it was. */
  const Transitions: map<(CallState, CallState), Option<CallStatus>> := map[
    (CallState.New, CallState.Null) := Some(CallStatus.New),
    (CallState.Null, CallState.CallPresent) := Some(CallStatus.Available),
    (CallState.Null, CallState.BrokenByBts) := Some(CallStatus.BreakByBts),
    (CallState.Null, CallState.NotAvailable) := Some(CallStatus.NotAvailable),
    (CallState.CallPresent, CallState.ReleaseReq) := Some(CallStatus.BreakByBts),
    (CallState.CallPresent, CallState.Null) := Some(CallStatus.BreakByBts),
    (CallState.CallPresent, CallState.MoTermCallConf) := Some(CallStatus.Init),
    (CallState.ReleaseReq, CallState.Null) := None,
    (CallState.MoTermCallConf, CallState.ReleaseReq) := Some(CallStatus.BreakByBts),
    (CallState.MoTermCallConf, CallState.Null) := Some(CallStatus.BreakByBts),
    (CallState.MoTermCallConf, CallState.CallReceived) := Some(CallStatus.Ringing),
    (CallState.CallReceived, CallState.DisconnectInd) := Some(CallStatus.RejectByUser),
    (CallState.DisconnectInd, CallState.ReleaseReq) := Some(CallStatus.HangupByUser),
    (CallState.CallReceived, CallState.ConnectRequest) := Some(CallStatus.Up),
    (CallState.ConnectRequest, CallState.Active) := Some(CallStatus.Active),
    (CallState.Active, CallState.DisconnectInd) := Some(CallStatus.Hangup),
    (CallState.DisconnectInd, CallState.Null) := Some(CallStatus.HangupByBts),
    (CallState.CallReceived, CallState.ReleaseReq) := Some(CallStatus.StopByBts),
    (CallState.CallReceived, CallState.Null) := Some(CallStatus.StopByBts)
  ]

  /** The status a call that is not yet final takes on `e`: the table's status,
      the old status for the None-mapped pair, Unknown for a pair not in the table. */
  function NextStatus(current: Option<CallStatus>, e: CallStateEvent): (r: Option<CallStatus>)
    ensures r.None? <==> current.None? && (e.prevState, e.state) == (CallState.ReleaseReq, CallState.Null)
    ensures r == Some(CallStatus.Unknown) ==> current == r || (e.prevState, e.state) !in Transitions
  {
    var key := (e.prevState, e.state);
    var newStatus := if key in Transitions then Transitions[key] else Some(CallStatus.Unknown);
    if newStatus.Some? then newStatus else current
  }

  /** A status that `add_event` no longer changes: set and final. */
  predicate Frozen(status: Option<CallStatus>)
  {
    status.Some? && IsFinal(status.value)
  }

  /** The value of a `Call`: its identity, latest transaction id, event history,
      status history and current status (None until the first event). */
  datatype CallRecord = CallRecord(
    imsi: string,
    callref: string,
    tid: string,
    events: seq<CallStateEvent>,
    statuses: seq<Option<CallStatus>>,
    status: Option<CallStatus>)

  /** A call as `Call.__init__` creates it. */
  function NewCall(imsi: string, callref: string, tid: string): CallRecord
  {
    CallRecord(imsi, callref, tid, [], [], None)
  }

  /** What `Call.add_event(e, tid)` does to a call's value. It always records the
      event and the tid; the status history grows by one entry exactly when the
      status was unset or not final, and its earlier entries stay. */
  function WithEvent(c: CallRecord, e: CallStateEvent, tid: string): (r: CallRecord)
    ensures r.events == c.events + [e] && r.tid == tid
    ensures r.imsi == c.imsi && r.callref == c.callref
    ensures |r.statuses| == |c.statuses| + (if Frozen(c.status) then 0 else 1)
    ensures r.statuses[..|c.statuses|] == c.statuses
  {
    var c' := c.(events := c.events + [e], tid := tid);
    if Frozen(c.status) then c'
    else
      var s := NextStatus(c.status, e);
      c'.(status := s, statuses := c.statuses + [s])
  }

  /** `Call.get_last_state`: the state of the latest event (Python raises on a
      call without events). */
  function LastState(c: CallRecord): CallState
    requires c.events != []
  {
    c.events[|c.events| - 1].state
  }

  /** `Call.is_over`: a call is over only in an idle or failed state, and a call
      holding just its opening event is not over. */
  predicate IsOver(c: CallRecord)
    requires c.events != []
    ensures IsOver(c) ==> LastState(c) in {CallState.Null, CallState.NotAvailable, CallState.BrokenByBts}
    ensures |c.events| == 1 && c.events[0].state == CallState.Null ==> !IsOver(c)
  {
    LastState(c) in {CallState.NotAvailable, CallState.BrokenByBts}
    || (LastState(c) == CallState.Null && |c.events| > 1)
  }

  /** Applies `add_event` once per (event, tid) pair, in order. */
  function Replay(c: CallRecord, steps: seq<(CallStateEvent, string)>): CallRecord
    decreases |steps|
  {
    if steps == [] then c else Replay(WithEvent(c, steps[0].0, steps[0].1), steps[1..])
  }

  /** The three ways a status that is not final moves: to the table's status, to
      nowhere for RELEASE_REQ -> NULL, and to Unknown, itself not final, for a pair
      the table lacks. The new status is what is appended to the history. */
  lemma StatusTransition(c: CallRecord, e: CallStateEvent, tid: string)
    requires !Frozen(c.status)
    ensures var r := WithEvent(c, e, tid);
      && r.statuses == c.statuses + [r.status]
      && ((e.prevState, e.state) == (CallState.ReleaseReq, CallState.Null) ==> r.status == c.status)
      && ((e.prevState, e.state) in Transitions && (e.prevState, e.state) != (CallState.ReleaseReq, CallState.Null)
          ==> r.status == Transitions[(e.prevState, e.state)] && r.status.Some?)
      && ((e.prevState, e.state) !in Transitions ==> r.status == Some(CallStatus.Unknown) && !Frozen(r.status))
  {
  }

  /** Unknown comes only from a pair missing from the table (or is kept by the
      None-mapped pair): the table itself never yields it. */
  lemma UnknownOnlyFromUnmappedPairs(c: CallRecord, e: CallStateEvent, tid: string)
    requires WithEvent(c, e, tid).status == Some(CallStatus.Unknown)
    requires c.status != Some(CallStatus.Unknown)
    ensures (e.prevState, e.state) !in Transitions
  {
  }

  /** Once a call's status is final, no later events change its status or its
      status history; they are still recorded in the event history. */
  lemma {:induction false} FinalStatusIsFrozen(c: CallRecord, steps: seq<(CallStateEvent, string)>)
    requires Frozen(c.status)
    ensures Replay(c, steps).status == c.status
    ensures Replay(c, steps).statuses == c.statuses
    ensures |Replay(c, steps).events| == |c.events| + |steps|
    ensures Replay(c, steps).events[..|c.events|] == c.events
    decreases |steps|
  {
    if steps != [] {
      var c' := WithEvent(c, steps[0].0, steps[0].1);
      FinalStatusIsFrozen(c', steps[1..]);
      assert c'.events[..|c.events|] == c.events;
    }
  }

  /** `is_over` after an event depends only on that event's state and on whether
      the call had events before. */
  lemma IsOverAfter(c: CallRecord, e: CallStateEvent, tid: string)
    ensures var r := WithEvent(c, e, tid);
      IsOver(r) <==> (e.state in {CallState.NotAvailable, CallState.BrokenByBts}
                      || (e.state == CallState.Null && c.events != []))
  {
  }

  /** Each pair of the table, fed to a call right after its NEW -> NULL opening
      event, yields the table's status; the None-mapped pair leaves New. */
  lemma TableAfterOpening(imsi: string, callref: string, tid: string, t: string, e: CallStateEvent)
    requires (e.prevState, e.state) in Transitions
    ensures var first := WithEvent(NewCall(imsi, callref, tid), CallStateEvent(CallState.Null, CallState.New, t), tid);
      && first.status == Some(CallStatus.New)
      && WithEvent(first, e, tid).status
         == (if Transitions[(e.prevState, e.state)].Some? then Transitions[(e.prevState, e.state)] else Some(CallStatus.New))
      && WithEvent(first, e, tid).statuses == [Some(CallStatus.New), WithEvent(first, e, tid).status]
  {
  }

  /** A call of the call-log registry (`Call`). The fields are the source's; the
      registry identifies a call by `imsi` and `callref`, which never change. */
  class Call {
    const imsi: string
    const callref: string
    var tid: string
    var events: seq<CallStateEvent>
    var statuses: seq<Option<CallStatus>>
    var status: Option<CallStatus>

    /** The call's value. */
    function Record(): CallRecord
      reads this
    {
      CallRecord(imsi, callref, tid, events, statuses, status)
    }

    constructor (imsi: string, callref: string, tid: string)
      ensures Record() == NewCall(imsi, callref, tid)
    {
      this.imsi := imsi;
      this.callref := callref;
      this.tid := tid;
      events := [];
      statuses := [];
      status := None;
    }

    /** A call restored from a saved checkpoint. */
    constructor Restore(r: CallRecord)
      ensures Record() == r
    {
      imsi := r.imsi;
      callref := r.callref;
      tid := r.tid;
      events := r.events;
      statuses := r.statuses;
      status := r.status;
    }

    /** `Call.add_event`. */
    method AddEvent(e: CallStateEvent, tid: string)
      modifies this
      ensures events == old(events) + [e] && this.tid == tid
      ensures old(Frozen(status)) ==> status == old(status) && statuses == old(statuses)
      ensures !old(Frozen(status)) ==> status == NextStatus(old(status), e) && statuses == old(statuses) + [status]
      ensures Record() == WithEvent(old(Record()), e, tid)
    {
      events := events + [e];
      this.tid := tid;
      if status.None? || !IsFinal(status.value) {
        var newStatus: Option<CallStatus>;
        if (e.prevState, e.state) in Transitions {
          newStatus := Transitions[(e.prevState, e.state)];
        } else {
          newStatus := Some(CallStatus.Unknown);
        }
        if newStatus.Some? {
          status := newStatus;
        }
        statuses := statuses + [status];
      }
    }
  }
}
