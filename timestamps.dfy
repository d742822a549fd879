/** The checkpointed objects of the call-log pipeline: `CallTimestamp`, which
    computes the next log window, folds the fetched lines into its registry of
    `Call` objects and keeps the archive of generations, and `SmsTimestamp`, which
    computes the SMS look-back window. The clock and the log fetch are parameters;
    times are whole seconds. `Saved` stands for what `_dump` last wrote. */
module Timestamps {
  import opened Wrappers
  import opened Dict
  import opened Calls
  import opened EventLines
  import opened CallLog

  /** `CallTimestamp._status`: "work" while calls are being made, else "stop". */
  datatype Phase = Work | Stop

  /** Seconds of log still read after calls stop (`timedelta(seconds=30)`). */
  const GraceSeconds: int := 30

  /** Everything `CallTimestamp._dump` writes. */
  datatype Checkpoint = Checkpoint(
    status: Phase,
    callStart: Option<int>,
    callStop: Option<int>,
    lastCallLogSince: Option<int>,
    lastCallLogUntil: Option<int>,
    allLogs: Archive,
    logs: seq<CallRecord>,
    startTime: Option<string>)

  /** The log window is set as a whole with `since <= until`, and outside the
      work phase a window comes with a stop time (so `get_log` can add the grace
      period to it). */
  predicate WindowConsistent(status: Phase, callStop: Option<int>, since: Option<int>, until: Option<int>)
  {
    && (since.Some? <==> until.Some?)
    && (until.Some? ==> since.value <= until.value)
    && (until.Some? && status == Stop ==> callStop.Some?)
  }

  /** What every state of `CallTimestamp` satisfies: a well-formed open generation
      and a consistent window. */
  ghost predicate Consistent(cp: Checkpoint)
  {
    WellFormed(cp.logs) && WindowConsistent(cp.status, cp.callStop, cp.lastCallLogSince, cp.lastCallLogUntil)
  }

  /** The values of a list of calls. */
  function Snapshot(cs: seq<Call>): (rs: seq<CallRecord>)
    reads cs
    ensures |rs| == |cs| && forall i :: 0 <= i < |cs| ==> rs[i] == cs[i].Record()
  {
    seq(|cs|, i reads cs requires 0 <= i < |cs| => cs[i].Record())
  }

  /** The end of the next window in `get_log`: now while working, else the stop
      time plus the grace period; never later than now. */
  function WindowEnd(status: Phase, callStop: Option<int>, now: int): (until: int)
    requires status == Stop ==> callStop.Some?
    ensures until <= now
    ensures until == now || (status == Stop && until == callStop.value + GraceSeconds)
    ensures status == Stop && callStop.value + GraceSeconds <= now ==> until == callStop.value + GraceSeconds
  {
    var until := if status == Work then now else callStop.value + GraceSeconds;
    if now > until then until else now
  }

  class CallTimestamp {
    var status: Phase
    var callStart: Option<int>
    var callStop: Option<int>
    var lastCallLogSince: Option<int>
    var lastCallLogUntil: Option<int>
    var allLogs: Archive
    var logs: seq<Call>
    var startTime: Option<string>
    ghost var Saved: Checkpoint

    /** The registry part of the state, as values. */
    ghost function State(): Registry
      reads this, logs
    {
      Registry(allLogs, Snapshot(logs), startTime)
    }

    /** The whole state, as `_dump` would write it. */
    ghost function Current(): Checkpoint
      reads this, logs
    {
      Checkpoint(status, callStart, callStop, lastCallLogSince, lastCallLogUntil, allLogs, Snapshot(logs), startTime)
    }

    /** The live state is consistent, and so is the saved checkpoint, which a
      later `Load` may read back. */
    ghost predicate Valid()
      reads this, logs
    {
      && Distinct(logs)
      && Consistent(Current())
      && Consistent(Saved)
    }

    /** `CallTimestamp()` when no checkpoint exists yet: stopped, no window, empty
      registry, written at once. */
    constructor ()
      ensures Valid()
      ensures Current() == Checkpoint(Stop, None, None, None, None, [], [], None)
      ensures Saved == Current()
    {
      status := Stop;
      callStart := None;
      callStop := None;
      lastCallLogSince := None;
      lastCallLogUntil := None;
      allLogs := [];
      logs := [];
      startTime := None;
      new;
      Saved := Current();
    }

    /** `CallTimestamp()` when a checkpoint exists: the saved state, with a fresh
      `Call` object for each saved call of the open generation. */
    constructor Load(cp: Checkpoint)
      requires Consistent(cp)
      ensures Valid() && fresh(logs)
      ensures Current() == cp && Saved == cp
    {
      var calls: seq<Call> := [];
      var i := 0;
      while i < |cp.logs|
        invariant 0 <= i <= |cp.logs|
        invariant |calls| == i
        invariant forall a, b :: 0 <= a < b < i ==> calls[a] != calls[b]
        invariant forall a :: 0 <= a < i ==> fresh(calls[a]) && calls[a].Record() == cp.logs[a]
      {
        var c := new Call.Restore(cp.logs[i]);
        calls := calls + [c];
        i := i + 1;
      }
      status := cp.status;
      callStart := cp.callStart;
      callStop := cp.callStop;
      lastCallLogSince := cp.lastCallLogSince;
      lastCallLogUntil := cp.lastCallLogUntil;
      allLogs := cp.allLogs;
      logs := calls;
      startTime := cp.startTime;
      new;
      assert Snapshot(logs) == cp.logs;
      Saved := Current();
    }

    /** `start_calls`: entering the work phase opens an empty window at now; in the
      work phase already, nothing happens. */
    method StartCalls(now: int)
      requires Valid()
      modifies this
      ensures Valid()
      ensures old(status) == Work ==> unchanged(this)
      ensures old(status) == Stop ==>
        && status == Work && callStart == Some(now) && callStop == None
        && lastCallLogSince == Some(now) && lastCallLogUntil == Some(now)
        && allLogs == old(allLogs) && logs == old(logs) && startTime == old(startTime)
        && Saved == Current()
    {
      if status == Work {
        return;
      }
      ghost var calls := Snapshot(logs);
      status := Work;
      callStart := Some(now);
      callStop := None;
      lastCallLogSince := Some(now);
      lastCallLogUntil := Some(now);
      assert Snapshot(logs) == calls;
      Saved := Current();
    }

    /** `stop_calls`: leave the work phase, recording the stop time. */
    method StopCalls(now: int)
      requires Valid()
      modifies this
      ensures Valid()
      ensures status == Stop && callStop == Some(now)
      ensures callStart == old(callStart)
      ensures lastCallLogSince == old(lastCallLogSince) && lastCallLogUntil == old(lastCallLogUntil)
      ensures allLogs == old(allLogs) && logs == old(logs) && startTime == old(startTime)
      ensures Saved == Current()
    {
      ghost var calls := Snapshot(logs);
      status := Stop;
      callStop := Some(now);
      assert Snapshot(logs) == calls;
      Saved := Current();
    }

    /** `get_log`: without a window yet, return an empty result and change nothing.
      Otherwise the next window runs from the end of the last one to `WindowEnd`;
      when it is not empty it becomes the recorded window and its lines are
      fetched. The lines (none for an empty window) are folded in and the state is
      saved; a run that raises saves nothing. */
    method GetLog(now: int, fetch: (int, int) -> seq<string>, extract: string -> Fields) returns (r: Result<Archive, RunError>)
      requires Valid()
      modifies this, logs
      ensures old(lastCallLogUntil).None? ==> r == Ok([]) && unchanged(this) && unchanged(logs)
      ensures old(lastCallLogUntil).Some? ==>
        var since := old(lastCallLogUntil).value;
        var until := WindowEnd(old(status), old(callStop), now);
        var p := Process(old(State()), if since < until then fetch(since, until) else [], extract);
        && (p.Err? ==> r == Err(p.error) && Saved == old(Saved) && Consistent(Saved))
        && (p.Ok? ==>
          && r == Ok(Records(p.value)) && State() == p.value
          && Valid() && Saved == Current()
          && status == old(status) && callStart == old(callStart) && callStop == old(callStop)
          && (since < until ==> lastCallLogSince == Some(since) && lastCallLogUntil == Some(until))
          && (until <= since ==> lastCallLogSince == old(lastCallLogSince) && lastCallLogUntil == old(lastCallLogUntil))
          && lastCallLogUntil.Some? && since <= lastCallLogUntil.value
          && (lastCallLogUntil.value == since || lastCallLogUntil.value <= now))
    {
      if lastCallLogUntil.None? {
        return Ok([]);
      }
      ghost var reg := State();
      var since := lastCallLogUntil.value;
      var until := WindowEnd(status, callStop, now);
      var lines := [];
      if since < until {
        lastCallLogSince := lastCallLogUntil;
        lastCallLogUntil := Some(until);
        lines := fetch(since, until);
      }
      assert State() == reg;
      r := ProcessLogs(lines, extract);
      if r.Ok? {
        Saved := Current();
      }
    }

    /** `_process_logs`: pre-filter the lines, fold each into the registry and
      return the archive plus the open generation under "{start}-". The stored
      state changes only when every line folds; it never holds the "{start}-" key. */
    method ProcessLogs(lines: seq<string>, extract: string -> Fields) returns (r: Result<Archive, RunError>)
      requires Valid()
      modifies this, logs
      ensures status == old(status) && callStart == old(callStart) && callStop == old(callStop)
      ensures lastCallLogSince == old(lastCallLogSince) && lastCallLogUntil == old(lastCallLogUntil)
      ensures Saved == old(Saved)
      ensures var p := Process(old(State()), lines, extract);
        && (p.Ok? ==> r == Ok(Records(p.value)) && State() == p.value && Valid())
        && (p.Err? ==> r == Err(p.error))
    {
      var err, all, cur, start := ProcessInto(allLogs, logs, startTime, lines, extract);
      if err.Some? {
        return Err(err.value);
      }
      r := Ok(Records(Registry(all, Snapshot(cur), start)));
      Commit(all, cur, start);
    }

    /** The three assignments that end `_process_logs`. */
    method Commit(all: Archive, cur: seq<Call>, start: Option<string>)
      requires Distinct(cur) && WellFormed(Snapshot(cur))
      requires WindowConsistent(status, callStop, lastCallLogSince, lastCallLogUntil) && Consistent(Saved)
      modifies this
      ensures Valid()
      ensures status == old(status) && callStart == old(callStart) && callStop == old(callStop)
      ensures lastCallLogSince == old(lastCallLogSince) && lastCallLogUntil == old(lastCallLogUntil)
      ensures Saved == old(Saved)
      ensures State() == Registry(all, Snapshot(cur), start)
    {
      allLogs := all;
      logs := cur;
      startTime := start;
    }
  }

  /** Every call has an event and a status. */
  ghost predicate Live(cs: seq<Call>)
    reads cs
  {
    forall a :: 0 <= a < |cs| ==> cs[a].events != [] && cs[a].status.Some?
  }

  /** The calls of a generation are distinct objects. */
  ghost predicate Distinct(cs: seq<Call>)
  {
    forall a, b :: 0 <= a < b < |cs| ==> cs[a] != cs[b]
  }

  /** `_process_logs` on the open generation's `Call` objects, without touching
    the stored fields: the same outcome as `CallLog.Process` on their values. */
  method ProcessInto(all: Archive, cur: seq<Call>, start: Option<string>, lines: seq<string>, extract: string -> Fields)
    returns (err: Option<RunError>, all': Archive, cur': seq<Call>, start': Option<string>)
    requires Distinct(cur)
    requires WellFormed(Snapshot(cur))
    modifies cur
    ensures Distinct(cur')
    ensures forall a :: 0 <= a < |cur'| ==> cur'[a] in cur || fresh(cur'[a])
    ensures var p := Process(Registry(all, old(Snapshot(cur)), start), lines, extract);
      && (p.Err? <==> err.Some?)
      && (p.Err? ==> err.value == p.error)
      && (p.Ok? ==> p.value == Registry(all', Snapshot(cur'), start') && WellFormed(Snapshot(cur')))
  {
    err, all', cur', start' := FoldInto(all, cur, start, PreFilter(lines), extract);
  }

  /** The loop of `_process_logs` on the open generation's `Call` objects: the
    same outcome as `CallLog.Fold` on their values. Calls it touches keep their
    events and status set, whether or not a later line fails. */
  method FoldInto(all: Archive, cur: seq<Call>, start: Option<string>, lines: seq<string>, extract: string -> Fields)
    returns (err: Option<RunError>, all': Archive, cur': seq<Call>, start': Option<string>)
    requires Distinct(cur)
    requires WellFormed(Snapshot(cur))
    modifies cur
    ensures Distinct(cur')
    ensures forall a :: 0 <= a < |cur'| ==> cur'[a] in cur || fresh(cur'[a])
    ensures var p := Fold(Registry(all, old(Snapshot(cur)), start), lines, extract);
      && (p.Err? <==> err.Some?)
      && (p.Err? ==> err.value == p.error)
      && (p.Ok? ==> p.value == Registry(all', Snapshot(cur'), start'))
  {
    ghost var reg0 := Registry(all, Snapshot(cur), start);
    err, all', cur', start' := None, all, cur, start;
    var i := 0;
    while i < |lines|
      invariant 0 <= i <= |lines|
      invariant err.None?
      invariant Distinct(cur')
      invariant forall a :: 0 <= a < |cur'| ==> cur'[a] in cur || fresh(cur'[a])
      invariant WellFormed(Snapshot(cur'))
      invariant Fold(reg0, lines[..i], extract) == Ok(Registry(all', Snapshot(cur'), start'))
    {
      FoldStep(reg0, lines, i, extract);
      err, all', cur', start' := ApplyLineTo(all', cur', start', lines[i], extract(lines[i]));
      if err.Some? {
        FoldStopsAt(reg0, lines, i, extract);
        return;
      }
      i := i + 1;
    }
    assert lines[..i] == lines;
  }

  /** One line of the `_process_logs` loop, on the open generation's `Call`
    objects: the same outcome as `CallLog.ApplyLine` on their values. */
  method ApplyLineTo(all: Archive, cur: seq<Call>, start: Option<string>, line: string, f: Fields)
    returns (err: Option<RunError>, all': Archive, cur': seq<Call>, start': Option<string>)
    requires Distinct(cur)
    requires WellFormed(Snapshot(cur))
    modifies cur
    ensures Distinct(cur')
    ensures forall a :: 0 <= a < |cur'| ==> cur'[a] in cur || fresh(cur'[a])
    ensures var p := ApplyLine(Registry(all, old(Snapshot(cur)), start), line, f);
      && (p.Err? <==> err.Some?)
      && (p.Err? ==> err.value == p.error)
      && (p.Ok? ==> p.value == Registry(all', Snapshot(cur'), start') && WellFormed(Snapshot(cur')))
  {
    err, all', cur', start' := None, all, cur, start;
    var parsed := Create(line, f);
    if parsed.Err? {
      err := Some(BadLine(parsed.error));
    } else if parsed.value.Some? {
      err, all', cur', start' := ApplyEvent(all, cur, start, parsed.value.value);
    }
  }

  /** One event of the `_process_logs` loop, on the open generation's `Call`
    objects: the same outcome as `CallLog.Apply` on their values. */
  method ApplyEvent(all: Archive, cur: seq<Call>, start: Option<string>, ev: EventLine)
    returns (err: Option<RunError>, all': Archive, cur': seq<Call>, start': Option<string>)
    requires Distinct(cur)
    requires WellFormed(Snapshot(cur))
    modifies cur
    ensures Distinct(cur')
    ensures forall a :: 0 <= a < |cur'| ==> cur'[a] in cur || fresh(cur'[a])
    ensures var p := Apply(Registry(all, old(Snapshot(cur)), start), ev);
      && (p.Err? <==> err.Some?)
      && (p.Err? ==> err.value == p.error)
      && (p.Ok? ==> p.value == Registry(all', Snapshot(cur'), start'))
  {
    err, all', cur', start' := None, all, cur, start;
    match ev.kind {
      case ServiceStarted =>
        if cur != [] {
          all' := Put(all, ArchiveKey(start, ev.eventTime), Snapshot(cur));
          cur' := [];
        }
        start' := Some(ev.eventTime);
      case StateChange(e) =>
        if e.prevState == CallState.New {
          start' := if start.Some? && start.value != "" then start else Some(ev.eventTime);
          err, cur' := OpenCall(cur, ev.imsi, ev.callref, ev.tid, e);
        } else if ev.callref == "0" {
          assert Live(cur);
          PageFirst(cur, ev.imsi, ev.tid, e);
        } else {
          var k := FindCall(Snapshot(cur), ev.imsi, ev.callref);
          if k.Some? {
            Deliver(cur, k.value, e, ev.tid);
          }
        }
    }
  }

  /** A "New transaction" event: a new `Call` holding the event, appended to the
    open generation unless its IMSI already has a call with that callref. */
  method OpenCall(cur: seq<Call>, imsi: string, callref: string, tid: string, e: CallStateEvent)
    returns (err: Option<RunError>, cur': seq<Call>)
    requires Distinct(cur)
    ensures err.Some? <==> FindCall(Snapshot(cur), imsi, callref).Some?
    ensures err.Some? ==> err.value == SameCallref(imsi, callref)
    ensures err.Some? ==> cur' == cur
    ensures err.None? ==> Distinct(cur') && |cur'| == |cur| + 1 && cur'[..|cur|] == cur && fresh(cur'[|cur|])
    ensures forall a :: 0 <= a < |cur'| ==> cur'[a] in cur || fresh(cur'[a])
    ensures err.None? ==> Snapshot(cur') == Snapshot(cur) + [WithEvent(NewCall(imsi, callref, tid), e, tid)]
  {
    var call := new Call(imsi, callref, tid);
    call.AddEvent(e, tid);
    if FindCall(Snapshot(cur), imsi, callref).Some? {
      return Some(SameCallref(imsi, callref)), cur;
    }
    err, cur' := None, cur + [call];
    assert Snapshot(cur') == Snapshot(cur) + [call.Record()];
  }

  /** `event_call.add_event(...)` on one call of the open generation: the others
    keep their values. */
  method Deliver(cur: seq<Call>, k: nat, e: CallStateEvent, tid: string)
    requires k < |cur|
    requires Distinct(cur)
    modifies cur[k]
    ensures Snapshot(cur) == old(Snapshot(cur))[k := WithEvent(old(Snapshot(cur))[k], e, tid)]
  {
    cur[k].AddEvent(e, tid);
    assert forall m :: 0 <= m < |cur| && m != k ==> cur[m] != cur[k];
  }

  /** The callref-"0" search of `_process_logs`: add the event to the first call,
      in creation order, that is `Pageable`, and stop. */
  method PageFirst(cur: seq<Call>, imsi: string, tid: string, e: CallStateEvent)
    requires Distinct(cur)
    requires Live(cur)
    modifies cur
    ensures var k := PagingTarget(old(Snapshot(cur)), imsi, tid);
      Snapshot(cur) == if k.None? then old(Snapshot(cur)) else old(Snapshot(cur))[k.value := WithEvent(old(Snapshot(cur))[k.value], e, tid)]
  {
    ghost var before := Snapshot(cur);
    var j := 0;
    while j < |cur|
      invariant 0 <= j <= |cur|
      invariant Snapshot(cur) == before
      invariant forall m :: 0 <= m < j ==> !Pageable(before[m], imsi, tid)
    {
      var c := cur[j];
      if c.imsi == imsi && c.tid == tid
         && c.events[|c.events| - 1].state !in {CallState.Null, CallState.BrokenByBts, CallState.NotAvailable} {
        assert Pageable(before[j], imsi, tid);
        assert PagingTarget(before, imsi, tid) == Some(j);
        Deliver(cur, j, e, tid);
        return;
      }
      j := j + 1;
    }
  }

  /** Seconds of SMS log looked back at (`__sms_period_time`). */
  const SmsPeriodSeconds: int := 20

  /** The SMS log window of `SmsTimestamp`. `Saved` stands for what `_dump` last
      wrote: the pair (start, stop). */
  class SmsTimestamp {
    var start: Option<int>
    var stop: Option<int>
    ghost var Saved: (Option<int>, Option<int>)

    /** `SmsTimestamp()` when no checkpoint exists yet: nothing recorded, written
      at once. */
    constructor ()
      ensures start == None && stop == None && Saved == (None, None)
    {
      start := None;
      stop := None;
      Saved := (None, None);
    }

    /** `SmsTimestamp()` when a checkpoint exists: the saved pair. */
    constructor Load(saved: (Option<int>, Option<int>))
      ensures start == saved.0 && stop == saved.1 && Saved == saved
    {
      start := saved.0;
      stop := saved.1;
      Saved := saved;
    }

    /** `start`: record the start time and clear the stop time. */
    method Start(now: int)
      modifies this
      ensures start == Some(now) && stop == None && Saved == (start, stop)
    {
      start := Some(now);
      stop := None;
      Saved := (start, stop);
    }

    /** `stop`: record the stop time. */
    method Stop(now: int)
      modifies this
      ensures start == old(start) && stop == Some(now) && Saved == (start, stop)
    {
      stop := Some(now);
      Saved := (start, stop);
    }

    /** `get_period`: the window ends at the stop time, or now when there is none;
      it looks back `SmsPeriodSeconds` but never before the start time, and is
      empty when no start time is recorded. */
    function Period(now: int): (p: (int, int))
      reads this
      ensures p.1 == if stop.Some? then stop.value else now
      ensures start.None? ==> p.0 == p.1
      ensures start.Some? ==> p.0 >= start.value && p.1 - p.0 <= SmsPeriodSeconds
      ensures start.Some? ==> p.0 == start.value || p.0 == p.1 - SmsPeriodSeconds
      ensures p.0 <= p.1 <==> start.None? || start.value <= p.1
    {
      var until := if stop.Some? then stop.value else now;
      var since := if start.Some? then (if until - SmsPeriodSeconds < start.value then start.value else until - SmsPeriodSeconds) else until;
      (since, until)
    }
  }
}
