# SDR call-log reconstruction, modelled in Dafny

This project models the call-log pipeline of `bin/sdr.py`. The pipeline turns the
osmo-msc journal into a per-subscriber history of calls:

* **Calls** (`calls.dfy`). This file holds:
  * the business statuses (`CallStatus`) and which of them are final;
  * the Call Control states (`CallState`) and the fixed transition table;
  * a `Call` class whose `AddEvent` appends to the event and status histories and
    freezes the status once it is final.

  `WithEvent` is the value-level specification that `AddEvent` is proved against.
* **Event lines** (`eventlines.dfy`). This file holds:
  * the line pre-filter with `strip()`;
  * the `callref-0x[48]…` exclusion;
  * `EventLine.create`'s branch priority over the ten extracted fields.
* **Call log** (`calllog.dfy`). This is the pure registry that `_process_logs` builds:
  * archived generations keyed `"{start}-{end}"`;
  * the open generation of calls in creation order;
  * the start time;
  * `Apply`/`Fold`/`Process` for one event, a run of lines and the whole pre-filtered
    batch.

  `Records` adds the open generation under `"{start}-"` only in the returned archive.
* **Timestamps** (`timestamps.dfy`). This file holds:
  * the `CallTimestamp` class with its checkpoint fields, `StartCalls`, `StopCalls`,
    `GetLog` (the `[since, until)` window) and `ProcessLogs`. `ProcessLogs` is a loop over
    the lines that mutates `Call` objects in place and is proved equal to `CallLog.Process`;
  * the `SmsTimestamp` class with its look-back period.
* **Queries** (`queries.dfy`). These are `Sdr.calls_status` and `Sdr.calls_status_show`
  over the last generation of an archive.

Python dictionaries keep insertion order, so they are modelled as sequences of entries
(`dict.dfy`). The nested `logs[imsi][callref]` map of the open generation is one
sequence of calls in creation order. That order fixes both the order of IMSIs and the
order of callrefs within an IMSI, and so fixes which call a callref-`"0"` event reaches
first. Times are integer seconds. The log-line time prefix is a string.

Four things are parameters instead of calls the model makes:
* the clock is the parameter `now`;
* the journal query is `fetch(since, until)`;
* the regular-expression captures of a line are `extract(line)`, a `Fields` record;
* persistence through pickle is the ghost field `Saved`, set wherever the source calls
  `_dump()`.

## Model

| member | source | states |
|---|---|---|
| Calls.IsFinal | bin/sdr.py:106-111 | `is_final`: neither NEW nor UNKNOWN is final, and each final status is one the transition table produces |
| Calls.ParseState | bin/sdr.py:114-128 | `CallState(name)`: yields the state with that value name, and fails exactly when no state has that name |
| Calls.ParseName | bin/sdr.py:114-128 | every state's name parses back to that state |
| Calls.WithEvent | bin/sdr.py:203-213 | `add_event` appends exactly the event and sets `tid`, keeping imsi and callref. `statuses` grows by one exactly when the status was unset or not final, and its old entries are kept |
| Calls.NextStatus | bin/sdr.py:207-212 | the status becomes None only from no status through RELEASE_REQ→NULL, and turns UNKNOWN only through a pair missing from the table |
| Calls.StatusTransition | bin/sdr.py:159-180 | when the status is not frozen, `statuses` gains the new status. A mapped pair sets its status. RELEASE_REQ→NULL (mapped to None) keeps the old status. An unmapped pair gives UNKNOWN, which is not final |
| Calls.UnknownOnlyFromUnmappedPairs | bin/sdr.py:207-211 | a call only becomes UNKNOWN through a pair missing from the table |
| Calls.FinalStatusIsFrozen | bin/sdr.py:106-111 | once the status is one of the six final statuses, any further events leave `status` and `statuses` unchanged, while `events` keeps growing |
| Calls.IsOver | bin/sdr.py:215-223 | `is_over` on the last event's state: a call is over only in NULL, NOT_AVAILABLE or BROKEN_BY_BTS, and a call holding only its opening NULL event is not over |
| Calls.IsOverAfter | bin/sdr.py:215-223 | after an event, `is_over` holds iff the event's state is NOT_AVAILABLE or BROKEN_BY_BTS, or it is NULL and an earlier event exists |
| Calls.TableAfterOpening | bin/sdr.py:159-180 | a call opened by NEW→NULL has status NEW. Its next table-listed event gives the table's status, or NEW for the None entry, and `statuses` lists both |
| Calls.Call.constructor | bin/sdr.py:184-190 | a new call has empty histories and no status |
| Calls.Call.Restore | bin/sdr.py:319-322 | a call rebuilt from a stored record by copying its attributes holds exactly that record |
| Calls.Call.AddEvent | bin/sdr.py:203-213 | appends the event, sets `tid`, and freezes or advances the status as `WithEvent` specifies |
| EventLines.TrimStart | bin/sdr.py:385 | the result is a suffix of the line that does not start with whitespace, and everything removed is whitespace |
| EventLines.TrimEnd | bin/sdr.py:385 | the result is a prefix of the line that does not end with whitespace, and everything removed is whitespace |
| EventLines.Strip | bin/sdr.py:385 | `strip()`: the result is a contiguous part of the line with no whitespace at either end, and everything cut before and after it is whitespace |
| EventLines.PreFilter | bin/sdr.py:385-391 | a line is kept, stripped, exactly when it is relevant: a start, CC new transaction, state change, CC paging expiry or CC MNCC_REL_CNF line without `tid-8`. It never adds lines |
| EventLines.PreFilterAppend | bin/sdr.py:385-391 | the pre-filter of two batches is the concatenation of their pre-filters |
| EventLines.ExcludedFrom | bin/sdr.py:255 | true iff the exclusion pattern occurs at or after the given position |
| EventLines.Excluded | bin/sdr.py:255 | true iff `callref-0x`, then `4` or `8`, then seven lower-case hex digits occur anywhere in the line |
| EventLines.Create | bin/sdr.py:273-302 | None iff the line is excluded. An event copies imsi, callref, tid and time. It is a start marker iff no new-transaction capture and a started capture. It raises iff no marker applies and no valid from/to pair was captured |
| EventLines.MarkerPriority | bin/sdr.py:288-296 | new-transaction gives NEW→NULL, else started gives a start marker, else MNCC_REL_CNF gives NULL→BROKEN_BY_BTS, else paging-expired gives NULL→NOT_AVAILABLE |
| EventLines.ExplicitPair | bin/sdr.py:297-298 | with no marker, the captured `from -> to` names give exactly that state change |
| EventLines.ExcludedAnywhere | bin/sdr.py:274-275 | a line containing an excluded callref yields None, whatever surrounds it |
| Dict.Put | bin/sdr.py:403 | dict assignment: the key maps to the new value and other keys are untouched. An existing key keeps its position and a new key is appended |
| CallLog.FindCall | bin/sdr.py:429 | finds the call with that (imsi, callref), or proves that there is none |
| CallLog.PagingTarget | bin/sdr.py:418-426 | the first call of the IMSI with that tid whose last state is not NULL, BROKEN_BY_BTS or NOT_AVAILABLE; none is skipped |
| CallLog.Apply | bin/sdr.py:400-431 | applying one event keeps the open generation well-formed: callrefs are unique per IMSI and every call has an event |
| CallLog.Restart | bin/sdr.py:401-405 | a start marker leaves a well-formed, empty open generation |
| CallLog.Open | bin/sdr.py:406-416 | a new transaction keeps the open generation well-formed |
| CallLog.Page | bin/sdr.py:418-426 | a callref-`"0"` event keeps the open generation well-formed |
| CallLog.Direct | bin/sdr.py:428-431 | an event for a known callref keeps the open generation well-formed |
| CallLog.ApplyLine | bin/sdr.py:398-400 | classifying and applying one line keeps the open generation well-formed |
| CallLog.Fold | bin/sdr.py:398-431 | the loop over the lines keeps the open generation well-formed |
| CallLog.Process | bin/sdr.py:383-431 | pre-filtering and folding a batch keeps the open generation well-formed |
| CallLog.Records | bin/sdr.py:437-440 | with no open calls the result is the stored archive. Otherwise `"{start_time}-"` holds the open generation, which is the last value read by `calls_status` unless that key was already archived |
| CallLog.RecordsExtendArchive | bin/sdr.py:433-440 | every key other than `"{start_time}-"` is in the returned map iff it is in the stored archive, with the stored generation |
| CallLog.StartedClosesGeneration | bin/sdr.py:401-405 | a start marker archives a non-empty open generation under `"{start}-{time}"` and keeps other keys. It empties the generation and sets the start time |
| CallLog.NewTransactionOpensCall | bin/sdr.py:406-416 | a new transaction raises "Same callref" iff (imsi, callref) is already open. Otherwise it appends one call whose single event gives status NEW, or UNKNOWN for a non-NULL target, keeps the archive, and sets the start time to `start_time or event_time` |
| CallLog.PagingEventGoesToFirstLiveCall | bin/sdr.py:418-426 | a callref-`"0"` event is added to exactly the first pageable call of that IMSI and tid, and no other call changes. It changes nothing when none is pageable |
| CallLog.DirectEventGoesToItsCall | bin/sdr.py:428-431 | any other event is added to the call with its (imsi, callref) and to no other call. It is dropped when there is no such call |
| CallLog.FoldAppend | bin/sdr.py:398-431 | folding two batches in a row equals folding their concatenation, and stops at the first error |
| CallLog.FoldStep | bin/sdr.py:398-400 | one more line of the loop applies that line to the state so far |
| CallLog.FoldStopsAt | bin/sdr.py:398-431 | an error raised at some line is the result of the whole loop |
| CallLog.RunsCompose | bin/sdr.py:383-440 | processing two batches from a checkpoint equals processing their concatenation, which makes successive `get_log` windows compose |
| Timestamps.WindowEnd | bin/sdr.py:367-369 | `until` never exceeds now. It is now while working, and the stop time plus 30 seconds once stopped, clamped to now |
| Timestamps.CallTimestamp.constructor | bin/sdr.py:326-335 | a fresh checkpoint is stopped, with no window and an empty registry, and is saved |
| Timestamps.CallTimestamp.Load | bin/sdr.py:316-325 | a loaded object holds exactly the saved checkpoint. Every saved checkpoint is consistent, so it can always be loaded |
| Timestamps.CallTimestamp.StartCalls | bin/sdr.py:345-355 | does nothing while working. Otherwise it starts at now, clears the stop time, sets both window ends to now and saves |
| Timestamps.CallTimestamp.StopCalls | bin/sdr.py:357-360 | stops at now, touches nothing else and saves |
| Timestamps.CallTimestamp.GetLog | bin/sdr.py:362-381 | with no window it returns empty and changes nothing. Otherwise the window advances to `[old until, until)` only when non-empty, and the result and new state are `Process` of the fetched lines. `until` never decreases and is at most now. A raised error saves nothing, and the saved checkpoint stays consistent |
| Timestamps.CallTimestamp.ProcessLogs | bin/sdr.py:383-440 | the loop over `Call` objects returns `Records` of `Process` from the stored state, stores that state, and raises the same error |
| Timestamps.CallTimestamp.Commit | bin/sdr.py:433-435 | stores the archive, the open generation and the start time, and nothing else |
| Timestamps.ProcessInto | bin/sdr.py:385-431 | the pre-filtered loop over live objects agrees with `Process`, in both its error and its value |
| Timestamps.FoldInto | bin/sdr.py:398-431 | the loop over live objects agrees with `Fold` line by line and stops at the first raise |
| Timestamps.ApplyLineTo | bin/sdr.py:398-400 | one line over live objects agrees with `ApplyLine` |
| Timestamps.ApplyEvent | bin/sdr.py:400-431 | one event over live objects agrees with `Apply` |
| Timestamps.OpenCall | bin/sdr.py:406-416 | raises iff the callref is already open. Otherwise it appends one fresh call holding the opening event |
| Timestamps.Deliver | bin/sdr.py:428-431 | `add_event` on one object changes that call's record and no other |
| Timestamps.PageFirst | bin/sdr.py:418-426 | the search with `break` delivers the event to exactly `PagingTarget`'s call, or to none |
| Timestamps.SmsTimestamp.constructor | bin/sdr.py:461-464 | a fresh period has neither start nor stop, and is saved |
| Timestamps.SmsTimestamp.Load | bin/sdr.py:451-459 | a loaded object holds exactly the saved start and stop |
| Timestamps.SmsTimestamp.Start | bin/sdr.py:470-475 | starts at now, clears the stop and saves |
| Timestamps.SmsTimestamp.Stop | bin/sdr.py:477-479 | stops at now, keeps the start and saves |
| Timestamps.SmsTimestamp.Period | bin/sdr.py:481-493 | `until` is the stop time or now. `since == until` without a start. With a start, `since >= start` and `until - since <= 20`. `since <= until` iff there is no start or the start is at most `until` |
| Queries.SummariseStep | bin/sdr.py:995-997 | merging one more call's statuses summarises the longer prefix of the generation |
| Queries.CallsStatus | bin/sdr.py:984-1001 | empty for an empty archive. Otherwise there is one key per IMSI of the last generation, holding exactly the filtered statuses any of its calls reached |
| Queries.StatusesOf | bin/sdr.py:1012-1013 | an IMSI's show list has at most one entry per call |
| Queries.ShowStep | bin/sdr.py:1012-1013 | appending one more call's status lists the longer prefix |
| Queries.CallsStatusShow | bin/sdr.py:1003-1014 | empty for an empty archive. Otherwise there is one key per IMSI of the last generation, listing its calls' current statuses in creation order |
| Queries.NoCallsNoStatuses | bin/sdr.py:1012-1013 | an IMSI without calls has an empty show list |
| Queries.ShowOneStatusPerCall | bin/sdr.py:1012-1013 | the show list of an IMSI has exactly one entry per call of that IMSI |

## Left out

- Pickle persistence, `AtomicOpen` locking and the unbounded reload retry loop are abstracted as the ghost field `Saved` and the `Load` constructors. File locking, fsync and serialisation are library behaviour.
- The `journalctl` subprocess is the parameter `fetch(since, until)`. The line split on `"\n"` is part of what `fetch` returns.
- Each clock read `datetime.now()` is the parameter `now`. `get_log` reads the clock up to three times; the model uses a single reading for all of them.
- `strftime` formatting of the window is not modelled. Times are integer seconds.
- Regular-expression matching of the ten capture templates is the parameter `extract`, a `Fields` record. The exclusion pattern is modelled character by character.
- `Call._save_error` appends to an error log file. That I/O is not modelled. Its only effect on the model is the UNKNOWN status.
- `print` before the "Same callref" raise is not modelled.
- Timestamps.CallTimestamp.ProcessLogs: after a raise, the model does not state the in-memory object. In the source, `.copy()` is shallow, so `Call` objects shared with `_logs` may already have been mutated. No caller reads the object after a raise, because `calls_status` creates a fresh `CallTimestamp`, and the raise skips `_dump`, so the saved checkpoint is unchanged. The model states that the saved checkpoint is unchanged.
- Timestamps.CallTimestamp.GetLog: the source returns a list `[]` when there is no window. The model returns an empty archive, which is the same for every caller.
- Queries.CallsStatus: the source returns a list built from a set intersection, in unspecified order. The model returns the set.
- Timestamps.SmsTimestamp.Period: `since <= until` is proved only when the start is at most `until`. A stop earlier than the start cannot arise from `start`/`stop` with a monotonic clock, but the stored fields do not exclude it.
- `get_last_state` on a call without events raises IndexError in the source. The model's `LastState` requires a non-empty history instead, which every stored call has.
- Telnet, SMPP, Asterisk call files, threads, `handover`, `sms_statuses`, `pprinttable`, `bin/sdrconsole.py` and `src/osmo-bts/main.c` are not part of this model. They are I/O and process orchestration.
