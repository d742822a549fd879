/** The call-status queries of `Sdr`: what the last generation of the call-log
    registry says about each subscriber's calls. The archive they read is what
    `CallTimestamp.GetLog` returns. */
module Queries {
  import opened Wrappers
  import opened Dict
  import opened Calls
  import opened CallLog

  /** The statuses `calls_status` reports: NOT_AVAILABLE, RINGING, ACTIVE,
      REJECT_BY_USER and HANGUP. */
  const Reported: set<CallStatus> := {CallStatus.NotAvailable, CallStatus.Ringing, CallStatus.Active,
                                      CallStatus.RejectByUser, CallStatus.Hangup}

  /** Some call of `imsi` among the calls has `s` in its status history. */
  predicate Reached(calls: seq<CallRecord>, imsi: string, s: CallStatus)
  {
    exists i | 0 <= i < |calls| :: calls[i].imsi == imsi && Some(s) in calls[i].statuses
  }

  /** Some call among the calls belongs to `imsi`. */
  predicate HasCalls(calls: seq<CallRecord>, imsi: string)
  {
    exists i | 0 <= i < |calls| :: calls[i].imsi == imsi
  }

  /** One more call of the generation adds its IMSI and its statuses. */
  lemma PrefixCalls(calls: seq<CallRecord>, i: nat)
    requires i < |calls|
    ensures forall imsi :: HasCalls(calls[..i + 1], imsi) <==> HasCalls(calls[..i], imsi) || calls[i].imsi == imsi
    ensures forall imsi, s :: (Reached(calls[..i + 1], imsi, s)
      <==> Reached(calls[..i], imsi, s) || (calls[i].imsi == imsi && Some(s) in calls[i].statuses))
  {
    assert forall k :: 0 <= k < i ==> calls[..i + 1][k] == calls[..i][k] == calls[k];
    assert calls[..i + 1][i] == calls[i];
  }

  /** The reported statuses one call went through. */
  function Reports(c: CallRecord): (r: set<CallStatus>)
    ensures forall s :: s in r <==> s in Reported && Some(s) in c.statuses
  {
    set s | s in Reported && Some(s) in c.statuses
  }

  /** `result` is what `calls_status` reports for `calls`. */
  ghost predicate Summarises(result: map<string, set<CallStatus>>, calls: seq<CallRecord>)
  {
    && (forall imsi :: imsi in result <==> HasCalls(calls, imsi))
    && (forall imsi, s :: imsi in result ==>
          (s in result[imsi] <==> s in Reported && Reached(calls, imsi, s)))
  }

  /** Folding one more call into the summary of a prefix summarises the longer prefix. */
  lemma SummariseStep(result: map<string, set<CallStatus>>, calls: seq<CallRecord>, i: nat)
    requires i < |calls| && Summarises(result, calls[..i])
    ensures var c := calls[i];
      Summarises(result[c.imsi := (if c.imsi in result then result[c.imsi] else {}) + Reports(c)], calls[..i + 1])
  {
    var c := calls[i];
    var next := result[c.imsi := (if c.imsi in result then result[c.imsi] else {}) + Reports(c)];
    PrefixCalls(calls, i);
    forall imsi, s | imsi in next
      ensures s in next[imsi] <==> s in Reported && Reached(calls[..i + 1], imsi, s)
    {
      if imsi != c.imsi {
        assert next[imsi] == result[imsi];
      } else if imsi !in result {
        assert !Reached(calls[..i], imsi, s);
      }
    }
  }

  /** `calls_status`: for each IMSI of the last generation, the reported statuses
      that any of its calls went through; nothing when the archive is empty. */
  method CallsStatus(records: Archive) returns (result: map<string, set<CallStatus>>)
    ensures records == [] ==> result == map[]
    ensures records != [] ==> forall imsi :: imsi in result <==> HasCalls(LastValue(records), imsi)
    ensures records != [] ==> forall imsi, s :: imsi in result ==>
      (s in result[imsi] <==> s in Reported && Reached(LastValue(records), imsi, s))
  {
    result := map[];
    if records == [] {
      return;
    }
    var calls := LastValue(records);
    var i := 0;
    while i < |calls|
      invariant 0 <= i <= |calls|
      invariant Summarises(result, calls[..i])
    {
      var c := calls[i];
      var seen := if c.imsi in result then result[c.imsi] else {};
      SummariseStep(result, calls, i);
      result := result[c.imsi := seen + Reports(c)];
      i := i + 1;
    }
    assert calls[..i] == calls;
  }

  /** The status of each call of `imsi`, in the order the calls were created. */
  function StatusesOf(calls: seq<CallRecord>, imsi: string): (r: seq<Option<CallStatus>>)
    ensures |r| <= |calls|
  {
    if calls == [] then []
    else
      var last := calls[|calls| - 1];
      StatusesOf(calls[..|calls| - 1], imsi) + if last.imsi == imsi then [last.status] else []
  }

  /** `result` is what `calls_status_show` reports for `calls`. */
  ghost predicate Shows(result: map<string, seq<Option<CallStatus>>>, calls: seq<CallRecord>)
  {
    && (forall imsi :: imsi in result <==> HasCalls(calls, imsi))
    && (forall imsi :: imsi in result ==> result[imsi] == StatusesOf(calls, imsi))
  }

  /** Appending one more call's status to the listing of a prefix lists the longer prefix. */
  lemma ShowStep(result: map<string, seq<Option<CallStatus>>>, calls: seq<CallRecord>, i: nat)
    requires i < |calls| && Shows(result, calls[..i])
    ensures var c := calls[i];
      Shows(result[c.imsi := (if c.imsi in result then result[c.imsi] else []) + [c.status]], calls[..i + 1])
  {
    var c := calls[i];
    var next := result[c.imsi := (if c.imsi in result then result[c.imsi] else []) + [c.status]];
    PrefixCalls(calls, i);
    assert calls[..i + 1][..i] == calls[..i];
    forall imsi | imsi in next
      ensures next[imsi] == StatusesOf(calls[..i + 1], imsi)
    {
      if imsi != c.imsi {
        assert next[imsi] == result[imsi];
      } else if imsi !in result {
        NoCallsNoStatuses(calls[..i], imsi);
      }
    }
  }

  /** `calls_status_show`: for each IMSI of the last generation, the current status
      of each of its calls; nothing when the archive is empty. */
  method CallsStatusShow(records: Archive) returns (result: map<string, seq<Option<CallStatus>>>)
    ensures records == [] ==> result == map[]
    ensures records != [] ==> forall imsi :: imsi in result <==> HasCalls(LastValue(records), imsi)
    ensures records != [] ==> forall imsi :: imsi in result ==> result[imsi] == StatusesOf(LastValue(records), imsi)
  {
    result := map[];
    if records == [] {
      return;
    }
    var calls := LastValue(records);
    var i := 0;
    while i < |calls|
      invariant 0 <= i <= |calls|
      invariant Shows(result, calls[..i])
    {
      var c := calls[i];
      var before := if c.imsi in result then result[c.imsi] else [];
      ShowStep(result, calls, i);
      result := result[c.imsi := before + [c.status]];
      i := i + 1;
    }
    assert calls[..i] == calls;
  }

  /** An IMSI without calls has no statuses to show. */
  lemma {:induction false} NoCallsNoStatuses(calls: seq<CallRecord>, imsi: string)
    requires !HasCalls(calls, imsi)
    ensures StatusesOf(calls, imsi) == []
    decreases |calls|
  {
    if calls != [] {
      PrefixCalls(calls, |calls| - 1);
      NoCallsNoStatuses(calls[..|calls| - 1], imsi);
    }
  }

  /** Each call of `imsi` contributes exactly one status to the show list. */
  lemma {:induction false} ShowOneStatusPerCall(calls: seq<CallRecord>, imsi: string)
    ensures |StatusesOf(calls, imsi)| == |set i | 0 <= i < |calls| && calls[i].imsi == imsi|
    decreases |calls|
  {
    if calls != [] {
      var n := |calls| - 1;
      ShowOneStatusPerCall(calls[..n], imsi);
      var prefix := calls[..n];
      var before := set i | 0 <= i < n && prefix[i].imsi == imsi;
      var after := set i | 0 <= i < |calls| && calls[i].imsi == imsi;
      var last: set<int> := if calls[n].imsi == imsi then {n} else {};
      forall i ensures i in after <==> i in before + last {
        if 0 <= i < n {
          assert prefix[i] == calls[i];
        }
      }
      assert after == before + last;
    }
  }
}
