/** The session registry of `CallTimestamp._process_logs`, on values: the open
    generation of calls, the archive of closed generations, and how each event
    of a line is folded into them. `Timestamps.CallTimestamp.ProcessLogs` runs the
    same fold on `Call` objects and is proved against `Process` below. */
module CallLog {
  import opened Wrappers
  import opened Dict
  import opened Calls
  import opened EventLines

  /** Closed generations, keyed "{start}-{end}", each the list of its calls in the
      order they were created. */
  type Archive = Dict<string, seq<CallRecord>>

  /** The registry state `_process_logs` reads and writes: `_all_logs`, `_logs`
      and `_start_time`. The open generation `_logs` is a dict IMSI -> callref ->
      Call in the source; here it is the list of its calls in creation order,
      which fixes both the dict's keys and the order in which it is iterated. */
  datatype Registry = Registry(allLogs: Archive, logs: seq<CallRecord>, startTime: Option<string>)

  /** The exceptions that abort a run: a line `EventLine.create` rejects, or a new
      transaction for a callref the open generation already holds. */
  datatype RunError = BadLine(error: ParseError) | SameCallref(imsi: string, callref: string)

  /** `f"{start_time}"` for a start time that may be None. */
  function Show(t: Option<string>): string
  {
    match t
    case None => "None"
    case Some(s) => s
  }

  /** The key a generation is archived under: "{start}-{end}". */
  function ArchiveKey(start: Option<string>, end: string): string
  {
    Show(start) + "-" + end
  }

  /** The open generation as a dict holds at most one call per (IMSI, callref),
      and every call in it has an event and a status. */
  ghost predicate WellFormed(logs: seq<CallRecord>)
  {
    && (forall i, j :: 0 <= i < j < |logs| ==> logs[i].imsi != logs[j].imsi || logs[i].callref != logs[j].callref)
    && (forall i :: 0 <= i < |logs| ==> logs[i].events != [] && logs[i].status.Some?)
  }

  /** `logs[imsi][callref]`: where the call with this IMSI and callref is. */
  function FindCall(logs: seq<CallRecord>, imsi: string, callref: string): (k: Option<nat>)
    ensures k.Some? ==> k.value < |logs| && logs[k.value].imsi == imsi && logs[k.value].callref == callref
    ensures k.None? ==> forall i :: 0 <= i < |logs| ==> logs[i].imsi != imsi || logs[i].callref != callref
  {
    if logs == [] then None
    else if logs[0].imsi == imsi && logs[0].callref == callref then Some(0)
    else
      match FindCall(logs[1..], imsi, callref)
      case None => None
      case Some(k) => Some(k + 1)
  }

  /** A call that an event with callref "0" may be routed to: the same IMSI, the
      same latest tid, and a last state other than NULL, BROKEN_BY_BTS and
      NOT_AVAILABLE. */
  predicate Pageable(c: CallRecord, imsi: string, tid: string)
    requires c.events != []
  {
    c.imsi == imsi && c.tid == tid
    && LastState(c) !in {CallState.Null, CallState.BrokenByBts, CallState.NotAvailable}
  }

  /** The first call, in creation order, that an event with callref "0" goes to. */
  function PagingTarget(logs: seq<CallRecord>, imsi: string, tid: string): (k: Option<nat>)
    requires forall i :: 0 <= i < |logs| ==> logs[i].events != []
    ensures k.Some? ==> k.value < |logs| && Pageable(logs[k.value], imsi, tid)
    ensures forall i :: 0 <= i < |logs| && (k.None? || i < k.value) ==> !Pageable(logs[i], imsi, tid)
  {
    if logs == [] then None
    else if Pageable(logs[0], imsi, tid) then Some(0)
    else
      match PagingTarget(logs[1..], imsi, tid)
      case None => None
      case Some(k) => Some(k + 1)
  }

  /** One event of `_process_logs`' loop. */
  function Apply(reg: Registry, ev: EventLine): (r: Result<Registry, RunError>)
    requires WellFormed(reg.logs)
    ensures r.Ok? ==> WellFormed(r.value.logs)
  {
    match ev.kind
    case ServiceStarted => Ok(Restart(reg, ev.eventTime))
    case StateChange(e) =>
      if e.prevState == CallState.New then Open(reg, ev, e)
      else if ev.callref == "0" then Ok(Page(reg, ev, e))
      else Ok(Direct(reg, ev, e))
  }

  /** A service-start marker: archive a non-empty open generation under
      "{start}-{time}", empty it, and restart the clock at `time`. */
  function Restart(reg: Registry, time: string): (r: Registry)
    requires WellFormed(reg.logs)
    ensures WellFormed(r.logs)
  {
    if reg.logs != [] then Registry(Put(reg.allLogs, ArchiveKey(reg.startTime, time), reg.logs), [], Some(time))
    else Registry(reg.allLogs, reg.logs, Some(time))
  }

  /** A new transaction: a new call holding the event joins the open generation,
      which starts at this event unless it has a start time; a second call with
      the same IMSI and callref raises. */
  function Open(reg: Registry, ev: EventLine, e: CallStateEvent): (r: Result<Registry, RunError>)
    requires WellFormed(reg.logs)
    requires e.prevState == CallState.New
    ensures r.Ok? ==> WellFormed(r.value.logs)
  {
    var startTime := if reg.startTime.Some? && reg.startTime.value != "" then reg.startTime else Some(ev.eventTime);
    var call := WithEvent(NewCall(ev.imsi, ev.callref, ev.tid), e, ev.tid);
    if FindCall(reg.logs, ev.imsi, ev.callref).Some? then Err(SameCallref(ev.imsi, ev.callref))
    else Ok(Registry(reg.allLogs, reg.logs + [call], startTime))
  }

  /** An event with callref "0": it goes to the `PagingTarget`, if any. */
  function Page(reg: Registry, ev: EventLine, e: CallStateEvent): (r: Registry)
    requires WellFormed(reg.logs)
    ensures WellFormed(r.logs)
  {
    match PagingTarget(reg.logs, ev.imsi, ev.tid)
    case None => reg
    case Some(k) => reg.(logs := reg.logs[k := WithEvent(reg.logs[k], e, ev.tid)])
  }

  /** Any other event: it goes to the call with its IMSI and callref, if any. */
  function Direct(reg: Registry, ev: EventLine, e: CallStateEvent): (r: Registry)
    requires WellFormed(reg.logs)
    ensures WellFormed(r.logs)
  {
    match FindCall(reg.logs, ev.imsi, ev.callref)
    case None => reg
    case Some(k) => reg.(logs := reg.logs[k := WithEvent(reg.logs[k], e, ev.tid)])
  }

  /** One pre-filtered line: classify it, then fold its event in. */
  function ApplyLine(reg: Registry, line: string, f: Fields): (r: Result<Registry, RunError>)
    requires WellFormed(reg.logs)
    ensures r.Ok? ==> WellFormed(r.value.logs)
  {
    match Create(line, f)
    case Err(e) => Err(BadLine(e))
    case Ok(None) => Ok(reg)
    case Ok(Some(ev)) => Apply(reg, ev)
  }

  /** The loop of `_process_logs` over pre-filtered lines, stopping at the first
      exception; `extract` gives the captures of each line. */
  function Fold(reg: Registry, lines: seq<string>, extract: string -> Fields): (r: Result<Registry, RunError>)
    requires WellFormed(reg.logs)
    ensures r.Ok? ==> WellFormed(r.value.logs)
    decreases |lines|
  {
    if lines == [] then Ok(reg)
    else
      match Fold(reg, lines[..|lines| - 1], extract)
      case Err(e) => Err(e)
      case Ok(r) => ApplyLine(r, lines[|lines| - 1], extract(lines[|lines| - 1]))
  }

  /** `_process_logs(lines)` as a state change: pre-filter, then fold. */
  function Process(reg: Registry, lines: seq<string>, extract: string -> Fields): (r: Result<Registry, RunError>)
    requires WellFormed(reg.logs)
    ensures r.Ok? ==> WellFormed(r.value.logs)
  {
    Fold(reg, PreFilter(lines), extract)
  }

  /** What `_process_logs` returns: the archive, plus the open generation under
      "{start_time}-" when it has calls. Unless that key is already archived, the
      open generation is then the last value, the one `calls_status` reads. */
  function Records(reg: Registry): (r: Archive)
    ensures reg.logs == [] ==> r == reg.allLogs
    ensures reg.logs != [] ==>
      && HasKey(r, Show(reg.startTime) + "-")
      && Get(r, Show(reg.startTime) + "-") == reg.logs
    ensures reg.logs != [] && !HasKey(reg.allLogs, Show(reg.startTime) + "-") ==>
      r != [] && LastValue(r) == reg.logs
  {
    if reg.logs != [] then Put(reg.allLogs, Show(reg.startTime) + "-", reg.logs) else reg.allLogs
  }

  /** Folding after a previous result: the second half of `FoldAppend`. */
  function Then(r: Result<Registry, RunError>, lines: seq<string>, extract: string -> Fields): Result<Registry, RunError>
    requires r.Ok? ==> WellFormed(r.value.logs)
  {
    match r
    case Err(e) => Err(e)
    case Ok(reg) => Fold(reg, lines, extract)
  }

  /** The returned map is the stored archive plus at most one key, "{start}-":
      every other archived generation is returned as stored. */
  lemma RecordsExtendArchive(reg: Registry)
    ensures forall k :: k != Show(reg.startTime) + "-" ==>
      (HasKey(Records(reg), k) <==> HasKey(reg.allLogs, k))
      && (HasKey(reg.allLogs, k) ==> Get(Records(reg), k) == Get(reg.allLogs, k))
  {
  }

  /** A service-start marker archives a non-empty open generation under
      "{start}-{time}", leaves every other archived generation as it was, empties
      the open generation and makes the marker's time the new start. */
  lemma StartedClosesGeneration(reg: Registry, ev: EventLine)
    requires WellFormed(reg.logs) && ev.kind.ServiceStarted?
    ensures Apply(reg, ev).Ok?
    ensures var r := Apply(reg, ev).value;
      && r.logs == [] && r.startTime == Some(ev.eventTime)
      && (reg.logs == [] ==> r.allLogs == reg.allLogs)
      && (reg.logs != [] ==>
           && HasKey(r.allLogs, ArchiveKey(reg.startTime, ev.eventTime))
           && Get(r.allLogs, ArchiveKey(reg.startTime, ev.eventTime)) == reg.logs
           && forall k :: k != ArchiveKey(reg.startTime, ev.eventTime) ==>
                (HasKey(r.allLogs, k) <==> HasKey(reg.allLogs, k))
                && (HasKey(reg.allLogs, k) ==> Get(r.allLogs, k) == Get(reg.allLogs, k)))
  {
  }

  /** A new transaction fails exactly when its (IMSI, callref) is already open;
      otherwise it appends one call holding just that event, with the status the
      table gives the opening pair, and touches nothing else. */
  lemma NewTransactionOpensCall(reg: Registry, ev: EventLine)
    requires WellFormed(reg.logs)
    requires ev.kind.StateChange? && ev.kind.event.prevState == CallState.New
    ensures Apply(reg, ev).Err? <==>
      exists i :: 0 <= i < |reg.logs| && reg.logs[i].imsi == ev.imsi && reg.logs[i].callref == ev.callref
    ensures Apply(reg, ev).Err? ==> Apply(reg, ev).error == SameCallref(ev.imsi, ev.callref)
    ensures Apply(reg, ev).Ok? ==>
      var r := Apply(reg, ev).value;
      && r.allLogs == reg.allLogs
      && |r.logs| == |reg.logs| + 1 && r.logs[..|reg.logs|] == reg.logs
      && var c := r.logs[|reg.logs|];
      && c.imsi == ev.imsi && c.callref == ev.callref && c.tid == ev.tid
      && c.events == [ev.kind.event]
      && c.statuses == [c.status]
      && (ev.kind.event.state == CallState.Null ==> c.status == Some(CallStatus.New))
      && (ev.kind.event.state != CallState.Null ==> c.status == Some(CallStatus.Unknown))
    ensures Apply(reg, ev).Ok? ==>
      Apply(reg, ev).value.startTime
        == if reg.startTime.Some? && reg.startTime.value != "" then reg.startTime else Some(ev.eventTime)
  {
    var r := Apply(reg, ev);
    if r.Ok? {
      assert r.value.logs[..|reg.logs|] == reg.logs;
    }
  }

  /** An event with callref "0" goes to at most one call: the first, in creation
      order, that is `Pageable`; when there is none it is dropped. No other call
      and nothing else of the registry changes. */
  lemma PagingEventGoesToFirstLiveCall(reg: Registry, ev: EventLine)
    requires WellFormed(reg.logs)
    requires ev.kind.StateChange? && ev.kind.event.prevState != CallState.New && ev.callref == "0"
    ensures Apply(reg, ev).Ok?
    ensures var r := Apply(reg, ev).value;
      && r.allLogs == reg.allLogs && r.startTime == reg.startTime && |r.logs| == |reg.logs|
      && ((forall i :: 0 <= i < |reg.logs| ==> !Pageable(reg.logs[i], ev.imsi, ev.tid)) ==> r.logs == reg.logs)
      && forall k :: 0 <= k < |reg.logs| && r.logs[k] != reg.logs[k] ==>
           && Pageable(reg.logs[k], ev.imsi, ev.tid)
           && (forall i :: 0 <= i < k ==> !Pageable(reg.logs[i], ev.imsi, ev.tid))
           && r.logs[k] == WithEvent(reg.logs[k], ev.kind.event, ev.tid)
           && (forall i :: 0 <= i < |reg.logs| && i != k ==> r.logs[i] == reg.logs[i])
    ensures var k := PagingTarget(reg.logs, ev.imsi, ev.tid);
      Apply(reg, ev).value.logs
        == if k.None? then reg.logs else reg.logs[k.value := WithEvent(reg.logs[k.value], ev.kind.event, ev.tid)]
  {
  }

  /** Any other event goes only to the call with its (IMSI, callref) and is dropped
      when that call is not in the open generation; no other call changes. */
  lemma DirectEventGoesToItsCall(reg: Registry, ev: EventLine)
    requires WellFormed(reg.logs)
    requires ev.kind.StateChange? && ev.kind.event.prevState != CallState.New && ev.callref != "0"
    ensures Apply(reg, ev).Ok?
    ensures var r := Apply(reg, ev).value;
      && r.allLogs == reg.allLogs && r.startTime == reg.startTime && |r.logs| == |reg.logs|
      && forall i :: 0 <= i < |reg.logs| ==>
           r.logs[i] == if reg.logs[i].imsi == ev.imsi && reg.logs[i].callref == ev.callref
                        then WithEvent(reg.logs[i], ev.kind.event, ev.tid)
                        else reg.logs[i]
  {
    var r := Apply(reg, ev).value;
    var k := FindCall(reg.logs, ev.imsi, ev.callref);
    forall i | 0 <= i < |reg.logs|
      ensures r.logs[i] == if reg.logs[i].imsi == ev.imsi && reg.logs[i].callref == ev.callref
                           then WithEvent(reg.logs[i], ev.kind.event, ev.tid)
                           else reg.logs[i]
    {
      if k.Some? && i != k.value {
        assert reg.logs[i].imsi != ev.imsi || reg.logs[i].callref != ev.callref;
      }
    }
  }

  /** Folding two batches of lines in turn is folding them together: a run may be
      split anywhere without changing its outcome. */
  lemma {:induction false} FoldAppend(reg: Registry, a: seq<string>, b: seq<string>, extract: string -> Fields)
    requires WellFormed(reg.logs)
    ensures Fold(reg, a + b, extract) == Then(Fold(reg, a, extract), b, extract)
    decreases |b|
  {
    if b == [] {
      assert a + b == a;
    } else {
      var b' := b[..|b| - 1];
      assert (a + b)[..|a + b| - 1] == a + b';
      assert (a + b)[|a + b| - 1] == b[|b| - 1];
      FoldAppend(reg, a, b', extract);
    }
  }

  /** One more line folds onto the result so far. */
  lemma FoldStep(reg: Registry, lines: seq<string>, i: nat, extract: string -> Fields)
    requires WellFormed(reg.logs)
    requires i < |lines| && Fold(reg, lines[..i], extract).Ok?
    ensures Fold(reg, lines[..i + 1], extract)
      == ApplyLine(Fold(reg, lines[..i], extract).value, lines[i], extract(lines[i]))
  {
    assert lines[..i + 1][..i] == lines[..i];
  }

  /** The first line that raises ends the run: nothing after it is looked at. */
  lemma FoldStopsAt(reg: Registry, lines: seq<string>, i: nat, extract: string -> Fields)
    requires WellFormed(reg.logs)
    requires i < |lines| && Fold(reg, lines[..i + 1], extract).Err?
    ensures Fold(reg, lines, extract) == Fold(reg, lines[..i + 1], extract)
  {
    FoldAppend(reg, lines[..i + 1], lines[i + 1..], extract);
    assert lines[..i + 1] + lines[i + 1..] == lines;
  }

  /** Two runs over consecutive batches of fetched lines end where one run over
      both batches ends. */
  lemma RunsCompose(reg: Registry, a: seq<string>, b: seq<string>, extract: string -> Fields)
    requires WellFormed(reg.logs)
    ensures Process(reg, a + b, extract) ==
      match Process(reg, a, extract)
      case Err(e) => Err(e)
      case Ok(mid) => Process(mid, b, extract)
  {
    PreFilterAppend(a, b);
    FoldAppend(reg, PreFilter(a), PreFilter(b), extract);
  }
}
