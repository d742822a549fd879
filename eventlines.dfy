/** Turning a log line of the mobile switching center into a call event
    (`EventLine.create`), and the pre-filter `_process_logs` applies first. The ten
    regular-expression captures are taken as given (`Fields`); the exclusion pattern,
    the pre-filter's substring tests and `str.strip` are modelled on the text. */
module EventLines {
  import opened Wrappers
  import opened Calls

  /** `sub` occurs in `s` at position `i`. */
  predicate ContainsAt(s: string, sub: string, i: int)
  {
    0 <= i <= |s| - |sub| && s[i..i + |sub|] == sub
  }

  /** `sub in s`. */
  predicate Contains(s: string, sub: string)
  {
    exists i | 0 <= i <= |s| - |sub| :: ContainsAt(s, sub, i)
  }

  /** `str.isspace` for one character. */
  predicate IsSpace(c: char)
  {
    c in {' ', '\t', '\n', '\r', '\U{0B}', '\U{0C}', '\U{1C}', '\U{1D}', '\U{1E}', '\U{1F}',
          '\U{85}', '\U{A0}', '\U{1680}', '\U{2028}', '\U{2029}', '\U{202F}', '\U{205F}', '\U{3000}'}
    || '\U{2000}' <= c <= '\U{200A}'
  }

  /** `s` without its leading whitespace: only whitespace is removed. */
  function TrimStart(s: string): (r: string)
    ensures |r| <= |s| && r == s[|s| - |r|..]
    ensures forall j :: 0 <= j < |s| - |r| ==> IsSpace(s[j])
    ensures r == [] || !IsSpace(r[0])
  {
    if s != [] && IsSpace(s[0]) then
      var r := TrimStart(s[1..]);
      assert forall j :: 1 <= j < |s| - |r| ==> s[j] == s[1..][j - 1];
      r
    else s
  }

  /** `s` without its trailing whitespace: only whitespace is removed. */
  function TrimEnd(s: string): (r: string)
    ensures |r| <= |s| && r == s[..|r|]
    ensures forall j :: |r| <= j < |s| ==> IsSpace(s[j])
    ensures r == [] || !IsSpace(r[|r| - 1])
  {
    if s != [] && IsSpace(s[|s| - 1]) then
      var r := TrimEnd(s[..|s| - 1]);
      assert forall j :: |r| <= j < |s| - 1 ==> s[j] == s[..|s| - 1][j];
      r
    else s
  }

  /** `line.strip()`: the line with whitespace removed from both ends and nowhere
      else. */
  function Strip(s: string): (r: string)
    ensures r == [] || (!IsSpace(r[0]) && !IsSpace(r[|r| - 1]))
    ensures exists i :: (0 <= i <= |s| - |r| && r == s[i..][..|r|]
      && (forall j :: 0 <= j < i ==> IsSpace(s[j]))
      && (forall j :: i + |r| <= j < |s| ==> IsSpace(s[j])))
  {
    var t := TrimStart(s);
    var r := TrimEnd(t);
    var i := |s| - |t|;
    assert r == s[i..][..|r|];
    assert forall j :: i + |r| <= j < |s| ==> s[j] == t[j - i];
    r
  }

  /** The pre-filter of `_process_logs`: a service start, a CC transaction being
      created, a state change, a CC paging expiry or a CC MNCC_REL_CNF break, and
      never a line mentioning `tid-8`. */
  predicate Relevant(line: string)
  {
    && (|| Contains(line, "Started Osmocom")
        || (Contains(line, " New transaction") && Contains(line, "trans(CC"))
        || Contains(line, " new state ")
        || (Contains(line, " Paging expired") && Contains(line, "trans(CC"))
        || (Contains(line, "tid-255,PAGING) tx MNCC_REL_CNF") && Contains(line, "trans(CC")))
    && !Contains(line, "tid-8")
  }

  /** The relevant lines, stripped, in their original order: every line it keeps
      is a relevant line stripped, and every relevant line is kept. */
  function PreFilter(lines: seq<string>): (r: seq<string>)
    ensures |r| <= |lines|
    ensures forall x :: x in r <==> exists l :: l in lines && Relevant(l) && x == Strip(l)
  {
    if lines == [] then []
    else (if Relevant(lines[0]) then [Strip(lines[0])] else []) + PreFilter(lines[1..])
  }

  /** Filtering two batches of lines one after the other is filtering them together. */
  lemma {:induction false} PreFilterAppend(a: seq<string>, b: seq<string>)
    ensures PreFilter(a + b) == PreFilter(a) + PreFilter(b)
  {
    if a != [] {
      assert (a + b)[1..] == a[1..] + b;
      PreFilterAppend(a[1..], b);
    } else {
      assert a + b == b;
    }
  }

  predicate IsLowerHex(c: char)
  {
    '0' <= c <= '9' || 'a' <= c <= 'f'
  }

  /** The exclusion pattern `callref-0x([48])[0-9a-f]{7}` matches at position `i`. */
  predicate ExclusionAt(line: string, i: int)
  {
    && 0 <= i && i + 18 <= |line|
    && line[i..i + 10] == "callref-0x"
    && line[i + 10] in {'4', '8'}
    && forall j :: i + 11 <= j < i + 18 ==> IsLowerHex(line[j])
  }

  function ExcludedFrom(line: string, i: nat): (r: bool)
    requires i <= |line|
    ensures r <==> exists j :: i <= j && ExclusionAt(line, j)
    decreases |line| - i
  {
    if i + 18 > |line| then false
    else ExclusionAt(line, i) || ExcludedFrom(line, i + 1)
  }

  /** `EventLine._exclude.search(line)`: the line carries a call reference of the
      switch's internal, non-subscriber traffic. */
  function Excluded(line: string): (r: bool)
    ensures r <==> exists i :: ExclusionAt(line, i)
  {
    ExcludedFrom(line, 0)
  }

  /** The ten captures of `EventLine._templates` for a line, in template order;
      "" where a template does not match. */
  datatype Fields = Fields(
    imsi: string,
    callref: string,
    tid: string,
    eventTime: string,
    fromState: string,
    toState: string,
    expired: string,
    newTransaction: string,
    started: string,
    btsBreak: string)

  /** A started-service marker, or a change of a call's state. */
  datatype EventKind = ServiceStarted | StateChange(event: CallStateEvent)

  /** `EventLine`: the identifying captures of the line and what it reports. */
  datatype EventLine = EventLine(imsi: string, callref: string, tid: string, eventTime: string, kind: EventKind)

  /** The exceptions `EventLine.create` raises: "Unknown event", or the ValueError of
      `CallState(name)` for a state name that is not a state. */
  datatype ParseError = UnknownEvent | UnknownState(name: string)

  /** `EventLine.create(line)`, given the captures `f` of the line. */
  function Create(line: string, f: Fields): (r: Result<Option<EventLine>, ParseError>)
    ensures Excluded(line) <==> r == Ok(None)
    ensures r.Ok? && r.value.Some? ==>
      && r.value.value.imsi == f.imsi && r.value.value.callref == f.callref
      && r.value.value.tid == f.tid && r.value.value.eventTime == f.eventTime
      && (r.value.value.kind.StateChange? ==> r.value.value.kind.event.eventTime == f.eventTime)
    ensures r.Ok? && r.value.Some? ==>
      (r.value.value.kind.ServiceStarted? <==> f.newTransaction == "" && f.started != "")
    ensures r.Err? <==>
      && !Excluded(line)
      && f.newTransaction == "" && f.started == "" && f.btsBreak == "" && f.expired == ""
      && !(f.fromState != "" && f.toState != ""
           && ParseState(f.fromState).Some? && ParseState(f.toState).Some?)
  {
    if Excluded(line) then Ok(None)
    else if f.newTransaction != "" then
      Ok(Some(EventLine(f.imsi, f.callref, f.tid, f.eventTime,
                        StateChange(CallStateEvent(CallState.Null, CallState.New, f.eventTime)))))
    else if f.started != "" then
      Ok(Some(EventLine(f.imsi, f.callref, f.tid, f.eventTime, ServiceStarted)))
    else if f.btsBreak != "" then
      Ok(Some(EventLine(f.imsi, f.callref, f.tid, f.eventTime,
                        StateChange(CallStateEvent(CallState.BrokenByBts, CallState.Null, f.eventTime)))))
    else if f.expired != "" then
      Ok(Some(EventLine(f.imsi, f.callref, f.tid, f.eventTime,
                        StateChange(CallStateEvent(CallState.NotAvailable, CallState.Null, f.eventTime)))))
    else if f.fromState != "" && f.toState != "" then
      match ParseState(f.toState)
      case None => Err(UnknownState(f.toState))
      case Some(to) =>
        match ParseState(f.fromState)
        case None => Err(UnknownState(f.fromState))
        case Some(from) =>
          Ok(Some(EventLine(f.imsi, f.callref, f.tid, f.eventTime,
                            StateChange(CallStateEvent(to, from, f.eventTime)))))
    else Err(UnknownEvent)
  }

  /** The kind of event each marker gives, highest priority first: new transaction
      (NEW -> NULL), service start, MNCC_REL_CNF break (NULL -> BROKEN_BY_BTS),
      paging expiry (NULL -> NOT_AVAILABLE); a marker wins over every marker after it
      and over the explicit state pair. */
  lemma MarkerPriority(line: string, f: Fields)
    requires !Excluded(line)
    requires f.newTransaction != "" || f.started != "" || f.btsBreak != "" || f.expired != ""
    ensures Create(line, f).Ok? && Create(line, f).value.Some?
    ensures var kind := Create(line, f).value.value.kind;
      if f.newTransaction != "" then kind == StateChange(CallStateEvent(CallState.Null, CallState.New, f.eventTime))
      else if f.started != "" then kind == ServiceStarted
      else if f.btsBreak != "" then kind == StateChange(CallStateEvent(CallState.BrokenByBts, CallState.Null, f.eventTime))
      else kind == StateChange(CallStateEvent(CallState.NotAvailable, CallState.Null, f.eventTime))
  {
  }

  /** A line whose only capture is an explicit `from -> to` pair of state names
      yields exactly that change of state. */
  lemma ExplicitPair(line: string, imsi: string, callref: string, tid: string, time: string, from: CallState, to: CallState)
    requires !Excluded(line)
    ensures Create(line, Fields(imsi, callref, tid, time, Name(from), Name(to), "", "", "", ""))
         == Ok(Some(EventLine(imsi, callref, tid, time, StateChange(CallStateEvent(to, from, time)))))
  {
    ParseName(from);
    ParseName(to);
  }

  /** A line carrying an excluded call reference anywhere gives no event, whatever
      else it holds and whatever its captures are. */
  lemma ExcludedAnywhere(before: string, callref: string, after: string, f: Fields)
    requires |callref| == 18 && callref[..10] == "callref-0x" && callref[10] in {'4', '8'}
    requires forall j :: 11 <= j < 18 ==> IsLowerHex(callref[j])
    ensures Create(before + callref + after, f) == Ok(None)
  {
    var line := before + callref + after;
    assert line[|before|..|before| + 18] == callref;
    assert ExclusionAt(line, |before|);
  }
}
