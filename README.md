# test-canceler, modelled in Dafny

This project models the core of `test-canceler`. The repository is a Temporal load generator paired with a
canceler that cleans the load up. The model has four parts.

- **Oversize-payload codec** (`payload_codec.dfy`, module `PayloadCodec`). A payload whose serialised size
  exceeds `min_bytes` is written to storage under a fresh key and replaced by a small reference payload.
  `decode` follows the reference back and parses the stored bytes.
  - Storage is a class-held map from the key's UTF-8 bytes to the file contents.
  - The protobuf wire format is an abstract `Serializer`: a serialise function and a parse function.
- **Canceler activities** (`canceler_activities.dfy`, module `CancelerActivities`):
  - the visibility query for executions started after the batch, and collecting the listed ids;
  - best-effort termination with a success count;
  - the deadline/poll countdown that confirms nothing is left running.
- **Bulk-cancel reconciliation workflow** (`bulk_cancel_workflow.dfy`, module `BulkCancel`), as the code is
  written:
  - one batch-cancel call, then the start time, formatted once as an ISO-8601 millisecond timestamp;
  - passes of exactly `MAX_POLLS` (60) attempts while the run is not fully canceled.
  - In an attempt the query comes first. If the query found executions, they are terminated. Only when it
    found none is confirmation asked for, and the attempt sleeps after a failed confirmation.
  - Every activity call and sleep is recorded as a `Call`.
  - The Temporal runtime's answers are oracles. The start time is one supplied value. The query results,
    the termination counts and the confirmations are indexed by the attempt number.
- **Spawn-tree workflows** (`spawn_tree.dfy`, module `SpawnTree`), as classes.
  - `CancelableWorkflow` starts children over `range(executions)` once: max(executions, 0) of them,
    labelled 0..executions-1, each label once. It waits for them and then sleeps in 30-minute steps until
    its `cancel` signal fans a cancel signal out to every direct child.
  - `ChildWorkflow` re-reads its `spawn` argument on every pass. With `spawn=True` each pass starts another
    500 grandchildren (with `spawn=False`) over `range(500)`, labelled 0..499, so p passes hold 500 * p.
    Otherwise it only sleeps.
  - Both record their waits, signals and sleeps as events.

Supporting modules:
- `Wrappers`: `Option` and `Result`.
- `Text`:
  - ASCII and UTF-8 validity;
  - decimal rendering, as in Python's `str(int)`;
  - the fixed-width zero padding of `strftime`.

Differences between the documented design and the code. The model follows the code.
- The class docstring of `BulkCancelWorkflow` says the workflow polls "until all are confirmed canceled (or
  we hit MAX_POLLS)". The code has no outcome for exhausting the polls: the outer `while` simply starts
  another pass (src/canceler/workflow.py:35-36).
- `confirm_all_canceled` is indented inside the `else` branch (src/canceler/workflow.py:57-67). It is
  therefore called only in attempts whose query found nothing new.
- Nothing breaks out of the `for` loop after a success. A success does not end its pass: the remaining
  attempts of the pass still run, and the outer loop ends only after all 60.
- The `max_polls` parameter appears only in a log line (src/canceler/workflow.py:79).
- `response` is bound only on success. `run` on an object whose flag is already set reaches
  `return response` unbound (`UnboundResponse`). This cannot happen from a fresh object.

## Model

| member | source | states |
|---|---|---|
| PayloadCodec.Codec.constructor | src/canceler/payload_manager.py:10-12 | the codec holds the threshold and the storage it is given |
| PayloadCodec.Codec.EncodePayload | src/canceler/payload_manager.py:42-53 | storage gains exactly one entry, under the fresh key, holding the serialised payload; existing entries are unchanged; the result's metadata is exactly {encoding: "binary/oversize-payload-codec", marker: "v1"} and its data is the key's bytes |
| PayloadCodec.Codec.Encode | src/canceler/payload_manager.py:14-25 | one output per input, in order; position i is the reference for key i when ByteSize > min_bytes (strict) and an equal copy otherwise; storage becomes `Stored(...)` of the old storage |
| PayloadCodec.Codec.Decode | src/canceler/payload_manager.py:27-40 | returns exactly `Decoded(storage, payloads)` and, having no modifies clause, leaves storage unchanged |
| PayloadCodec.StoredKeys | src/canceler/payload_manager.py:14-25 | after encode the storage keys are the old keys plus exactly the keys of the oversized positions |
| PayloadCodec.StoredKeepsExisting | src/canceler/payload_manager.py:43-45 | with fresh keys, every entry already in storage keeps its contents |
| PayloadCodec.StoredBlob | src/canceler/payload_manager.py:43-45 | the entry for an oversized payload holds that payload's serialisation |
| PayloadCodec.SmallWritesNothing | src/canceler/payload_manager.py:17-23 | when no payload exceeds the threshold, encode writes nothing |
| PayloadCodec.MarkerCheck | src/canceler/payload_manager.py:30 | the check succeeds with true iff the marker is present and equals "v1", and with false iff it is absent or valid UTF-8 other than "v1"; otherwise it fails with the decoding error |
| PayloadCodec.DecodedElementwise | src/canceler/payload_manager.py:27-40 | decode succeeds iff every payload decodes; it then returns one decoded payload per input, in order; otherwise it returns the error of the first payload that fails |
| PayloadCodec.MissingBlobFails | src/canceler/payload_manager.py:35-39 | a marked payload whose key is not in storage makes decode fail, never pass the payload through |
| PayloadCodec.UnmarkedPassThrough | src/canceler/payload_manager.py:30-34 | payloads without the v1 marker are returned unchanged |
| PayloadCodec.RoundTrip | src/canceler/payload_manager.py:14-53 | if parse undoes serialise, the keys are fresh, and no copied payload carries the marker, then decoding encode's output against encode's storage gives the original payloads |
| PayloadCodec.PrefixFailure | src/canceler/payload_manager.py:29-39 | once a prefix fails to decode, the whole list fails with that same error (decode stops at the first error) |
| Text.AsciiBytes | src/canceler/payload_manager.py:51 | UTF-8 encoding of an ASCII key: one byte per character, with the same code |
| Text.AsciiBytesInjective | src/canceler/payload_manager.py:43-51 | distinct ASCII keys have distinct encodings, so distinct uuids name distinct files |
| Text.AsciiIsValidUtf8 | src/canceler/payload_manager.py:35 | ASCII bytes are valid UTF-8, so the stored key decodes |
| Text.NatStringValue | src/canceler/activity.py:43 | the decimal rendering of n reads back as n |
| Text.IntString | src/canceler/activity.py:43 | `str(workload_id)` is non-empty, all digits apart from a leading '-' that appears exactly for negative ids, and so contains no quote |
| Text.NatStringInjective | src/canceler/activity.py:43 | distinct naturals render as distinct digit strings |
| Text.IntStringInjective | src/canceler/activity.py:43 | distinct workload ids render as distinct strings |
| Text.Padded | src/canceler/workflow.py:38 | a zero-padded field has exactly its width and is all digits |
| Text.PaddedValue | src/canceler/workflow.py:38 | a value below 10^width, zero-padded to width, reads back as that value |
| Text.PaddedDropThree | src/canceler/workflow.py:38 | dropping the last three digits of the 6-digit microseconds gives the 3-digit milliseconds |
| CancelerActivities.NewExecutionsQueryDetermines | src/canceler/activity.py:43 | the query text determines both the workload id and the timestamp it was built from |
| CancelerActivities.QueryNewWfExecutions | src/canceler/activity.py:40-49 | lists with exactly the new-executions query and returns one id per listed execution, in listing order |
| CancelerActivities.CountTrueIsCardinality | src/canceler/activity.py:111 | the count of true results is the number of positions holding true |
| CancelerActivities.CountTrueBounds | src/canceler/activity.py:111 | the count is at most the number of results; it equals it iff all are true and is zero iff none is |
| CancelerActivities.BulkCancelCounts | src/canceler/activity.py:96-111 | one attempt per id, duplicates included; the result is the number of successful terminations, between 0 and len(ids); all of them iff nothing raised, 0 iff everything raised |
| CancelerActivities.FailureIsLocal | src/canceler/activity.py:101-108 | a raising termination costs only its own position: runs that differ at one position differ in the count by that position alone |
| CancelerActivities.DefaultConfirmChecks | src/canceler/activity.py:119-120 | with the default 240 s deadline and 5 s poll, at most 48 checks |
| CancelerActivities.MaxChecksStep | src/canceler/activity.py:128-133 | another check fits exactly while the remaining time is positive, i.e. before ceil(deadline/poll) checks |
| CancelerActivities.ConfirmAllCanceled | src/canceler/activity.py:115-134 | true iff one of the first ceil(deadline/poll) checks finds nothing running, returned at the first such check; otherwise false after exactly that many checks, each finding something running (none when deadline <= 0); one sleep after each failed check |
| BulkCancel.TimestampLayout | src/canceler/workflow.py:38 | the timestamp is the zero-padded date and time, a dot, the microseconds truncated to milliseconds, and Z |
| BulkCancel.TimestampFields | src/canceler/workflow.py:38 | the timestamp has 24 characters with the separators at fixed positions, and each field reads back as the year, month, day, hour, minute, second and microsecond div 1000 |
| BulkCancel.PassFrom | src/canceler/workflow.py:36-82 | a pass only appends calls after those made before it |
| BulkCancel.OuterOutcome | src/canceler/workflow.py:35-84 | the loop is left only with the flag set, returning the response when one is bound; with the flag clear the run is still looping |
| BulkCancel.OuterFrom | src/canceler/workflow.py:25-35 | calls made before the loop stay in front of everything the loop appends |
| BulkCancel.AnyConfirmIff | src/canceler/workflow.py:46-70 | a run of attempts sets the flag iff one of them found nothing new and was confirmed |
| BulkCancel.AttemptsSplit | src/canceler/workflow.py:35-36 | consecutive stretches of attempts concatenate their calls |
| BulkCancel.PassShape | src/canceler/workflow.py:36-82 | a pass appends its attempts' calls; the flag, once set, stays set (it is only ever set to True); it becomes set exactly when an attempt confirms, and response is then "Cancelation Successful" |
| BulkCancel.PassesRun | src/canceler/workflow.py:35 | the number of passes run is at most the bound |
| BulkCancel.OuterFlag | src/canceler/workflow.py:35-72 | from a clear flag, the loop sets the flag iff some attempt within the bound confirms, and then holds "Cancelation Successful" |
| BulkCancel.OuterCalls | src/canceler/workflow.py:35-36 | from a clear flag, the loop runs whole passes with no early break, up to and including the first confirming pass |
| BulkCancel.PassesCallsFlat | src/canceler/workflow.py:35-36 | p whole passes are exactly p * MAX_POLLS consecutive attempts |
| BulkCancel.RunShape | src/canceler/workflow.py:25-84 | a fresh run makes one batch call followed by whole passes; it returns "Cancelation Successful" iff some attempt within the bound finds nothing new and is confirmed, is still looping iff none does, and never reaches `return` unbound; with the flag already set it reaches `return` with `response` unbound |
| BulkCancel.RunCallsOrder | src/canceler/workflow.py:25-44 | the batch cancel is the first call and is never repeated; every query uses the workload id and the single timestamp formatted from the time captured after the batch cancel |
| BulkCancel.AttemptShape | src/canceler/workflow.py:38-82 | an attempt queries once, first, with the timestamp; it calls bulk_cancel iff the query is non-empty (a null count reported as 0); it calls confirm once iff the query is empty and never otherwise; it sleeps iff confirm returned False |
| BulkCancel.AttemptsQueries | src/canceler/workflow.py:36-44 | n attempts make exactly n queries, all with the same workload id and timestamp, and no batch cancel |
| BulkCancel.AttemptsNeverConfirm | src/canceler/workflow.py:46-67 | attempts whose queries all find new executions make no confirm call and cannot set the flag |
| BulkCancel.PassesRunAll | src/canceler/workflow.py:35-36 | without a confirming attempt, the loop uses every pass it is allowed |
| BulkCancel.AttemptsSplitConfirm | src/canceler/workflow.py:35-36 | confirmation over consecutive stretches of attempts splits as a disjunction |
| BulkCancel.NeverEndsWhileNewExecutions | src/canceler/workflow.py:35-67 | as written, if every query finds new executions, the run never asks for confirmation and never ends: after any number of passes it has made 60 queries per pass and is still looping |
| BulkCancel.IntendedRunBounded | src/canceler/workflow.py:10-13 | the loop as the docstring describes it (confirm in every attempt, stop on the first success, give up after max_polls) succeeds iff some confirmation succeeds, is exhausted iff none does, confirms once per query, and makes at most max_polls queries, exactly that many when exhausted |
| BulkCancel.IntendedExhaustsWhileNewExecutions | src/canceler/workflow.py:10-13 | under the intended loop, a workload that keeps spawning and never confirms ends exhausted after exactly max_polls queries and confirmations |
| BulkCancel.BulkCancelWorkflow.constructor | src/canceler/workflow.py:14-15 | a new workflow is not fully canceled and has made no calls |
| BulkCancel.BulkCancelWorkflow.RunAttempt | src/canceler/workflow.py:37-82 | one attempt appends exactly the calls of `Attempt` and updates the flag and the response as `Attempt` does |
| BulkCancel.BulkCancelWorkflow.RunPass | src/canceler/workflow.py:36-82 | the `for` loop runs all MAX_POLLS attempts, with the calls, the flag and the response of `Pass` |
| BulkCancel.BulkCancelWorkflow.RunPasses | src/canceler/workflow.py:35-82 | the `while` loop, bounded by fuel, ends in the state of `Outer` |
| BulkCancel.BulkCancelWorkflow.Run | src/canceler/workflow.py:18-84 | the calls appended, the final flag and the outcome are those of `RunSpec` from the flag's old value; the properties are proved about `RunSpec` above |
| SpawnTree.ChildId | src/work/workflow.py:54 | the child id is "workflow-" followed by the uuid text |
| SpawnTree.ChildIdInjective | src/work/workflow.py:54 | distinct uuids give distinct workflow ids (the child's own `_start_one` builds ids the same way) |
| SpawnTree.RangeOnce | src/work/workflow.py:81 | `range(n)` holds every label 0..n-1 exactly once and nothing else |
| SpawnTree.HandlesAt | src/work/workflow.py:51-61 | the i-th appended child is the i-th in completion order, with its own id and the given spawn |
| SpawnTree.HandlesLabels | src/work/workflow.py:81 | the labels of the appended children are the completion order |
| SpawnTree.NoneSpawnAppend | src/work/workflow.py:149 | appending children started with spawn=False keeps "no grandchild spawns" |
| SpawnTree.StartOrderLength | src/work/workflow.py:81 | an admissible completion order of `range(n)` has max(n, 0) entries |
| SpawnTree.HandlesLabelOnce | src/work/workflow.py:79-88 | children started over `range(n)` (the parent's `executions`, or the child's 500) in any completion order number max(n, 0) and carry each label 0..n-1 exactly once (`LabelledOnce`) |
| SpawnTree.SignalsOncePerChild | src/work/workflow.py:96-101 | with distinct workflow ids, the cancel fan-out sends each direct child exactly one cancel signal |
| SpawnTree.SignalsNoneToOthers | src/work/workflow.py:96-101 | the cancel fan-out sends no signal to a workflow id that no direct child has: the signal reaches direct children only |
| SpawnTree.PyIndex | src/work/workflow.py:66 | Python indexing: defined iff -len <= idx < len, naming idx or idx + len |
| SpawnTree.ChildPass | src/work/workflow.py:144-157 | a child's pass either appends that pass's grandchildren and waits on all it holds, or sleeps once more, giving the state after one more pass |
| SpawnTree.ParentPass | src/work/workflow.py:78-102 | a pass appends the waits (on the first pass only), a 30-minute sleep, and the signals when cancelled, giving the trace of one more pass |
| SpawnTree.GrandchildrenGrow | src/work/workflow.py:145-154 | a spawning child holds 500 grandchildren per pass, none spawning |
| SpawnTree.ChildWaitsGrow | src/work/workflow.py:145-154 | each pass waits on every grandchild so far, so after p passes a spawning child has waited 500 * p * (p + 1) / 2 times |
| SpawnTree.PassesStartPerPass | src/work/workflow.py:148 | a pass that starts `range(500)` in some completion order starts exactly 500 grandchildren |
| SpawnTree.CancelableWorkflow.constructor | src/work/workflow.py:23-27 | not cancelled, spawn set, no children, no events |
| SpawnTree.CancelableWorkflow.StartOne | src/work/workflow.py:41-62 | appends exactly one handle, "workflow-" + uuid with its label and spawn, leaving earlier children and everything else unchanged |
| SpawnTree.CancelableWorkflow.StartAll | src/work/workflow.py:81 | appends the handles of all children in completion order |
| SpawnTree.CancelableWorkflow.WaitAllClosed | src/work/workflow.py:33-39 | waits once on each child and propagates no child's error |
| SpawnTree.CancelableWorkflow.BackupCancelByIndex | src/work/workflow.py:64-67 | an index outside the list raises IndexError and sends nothing; otherwise it signals only the child at that Python index and raises iff the signal fails |
| SpawnTree.CancelableWorkflow.Cancel | src/work/workflow.py:95-102 | one cancel signal to each direct child, index 0 to len-1, failures swallowed, then the flag set |
| SpawnTree.CancelableWorkflow.Step | src/work/workflow.py:78-91 | the spawn phase runs only while spawn is set: it appends children with spawn=True over `range(executions)`, max(executions, 0) of them carrying each label 0..executions-1 once, waits on all of them and clears spawn; the pass then sleeps 30 minutes |
| SpawnTree.CancelableWorkflow.Run | src/work/workflow.py:71-93 | from a new workflow, the loop ends only once cancelled: the children, started exactly once, are max(executions, 0) children labelled 0..executions-1 once each; each was waited on once, one sleep per pass, and one cancel signal per child |
| SpawnTree.ChildWorkflow.constructor | src/work/workflow.py:111-115 | id None, not cancelled, spawn set, no children, no events |
| SpawnTree.ChildWorkflow.StartOne | src/work/workflow.py:119-135 | appends exactly one handle, "workflow-" + uuid, leaving everything else unchanged |
| SpawnTree.ChildWorkflow.StartAll | src/work/workflow.py:149 | appends the handles of the grandchildren in completion order |
| SpawnTree.ChildWorkflow.WaitAllClosed | src/work/workflow.py:150-153 | waits once on every grandchild started so far, errors swallowed |
| SpawnTree.ChildWorkflow.Cancel | src/work/workflow.py:159-162 | only sets the flag: no signal is forwarded and nothing else changes |
| SpawnTree.ChildWorkflow.Step | src/work/workflow.py:145-157 | spawn is re-read from the argument; with true it appends 500 grandchildren with spawn=False, labelled 0..499 once each, and waits on all children; with false it only sleeps and children are unchanged |
| SpawnTree.ChildWorkflow.Run | src/work/workflow.py:138-157 | the id is set; the loop ends only once cancelled; a spawning child holds the grandchildren of every pass, 500 * (passes) of them, none spawning; a non-spawning one holds none and slept once per pass |

## Left out

- `_get_client` and its module-level client cache (src/canceler/activity.py:16-36): credentials and network
  connection. The client is an oracle: a listing function, one termination outcome per attempt, and one
  answer per check.
- The commented-out `batch_cancel_workflows` and `track_batch` activities, and the Java batch implementation
  behind the batch call: network-bound. The batch call is recorded as a single `BatchCancel` call.
- The worker and run scripts, `src/work/activity.py` (`uuid4`) and the config modules: runtime wiring and
  randomness. Uuids are supplied as parameters; configured values are constants or parameters.
- Logging and `print`: no effect on state. The one exception is the count logged after a
  termination batch (src/canceler/workflow.py:54), which is recorded as the `Reported` call. The other log
  lines are left out.
- Activity retry and timeout policies: a call is its oracle's answer.
- Concurrency of `asyncio.gather` and the semaphore caps (750 for termination, `CHILD_SPAWN_SEMAPHORE` for
  spawning): loops are modelled sequentially.
  - The order in which concurrently started children are appended is a supplied completion order. It is
    required to be a permutation of `range(n)`, the labels that were started.
  - Waits and cancel signals go in list order.
- CancelerActivities.ConfirmAllCanceled: the poll interval is a positive integer number of seconds, not a
  float. The check count is the same, ceil(deadline/poll), for integral polls. With a poll of zero or less
  the source's countdown never reaches zero, so it loops for as long as something is running. The model
  requires a positive poll and does not model that case.
- BulkCancel.BulkCancelWorkflow.Run: models at most `fuel` passes of the outer loop, which need not
  terminate. Beyond the bound the outcome is `StillRunning`. The poll interval is a whole number of seconds.
- PayloadCodec.Codec.Encode: storage is keyed by the file key's bytes. The directory prefix, the `.txt`
  suffix, `open` and write errors are left out. The fresh uuid keys are supplied, as ASCII strings that are
  pairwise distinct and not yet stored.
- PayloadCodec.Codec.Decode: invalid UTF-8 in the marker or the key is an error, but no UTF-8 decoder is
  modelled. The marker compares bytes with "v1", which is equivalent because UTF-8 is injective.
- Protobuf `ByteSize`/`SerializeToString`/`FromString` are abstract. `ByteSize` is the serialised length;
  parse undoing serialise is assumed only by the round-trip lemma.
- SpawnTree.CancelableWorkflow.Run: the cancel signal is handled during the sleep of a chosen pass. Signals
  arriving in the middle of the spawn phase are not modelled.
- SpawnTree.ChildWorkflow.Run: the cancel signal is handled at the end of a chosen pass, for the same
  reason.
- Search attributes and parent close policy of started children: passed through to the runtime, with no
  effect on the modelled state.
- BulkCancel.TimestampFields: the year is zero-padded to four digits. For years below 1000 the output of
  Python's `%Y` depends on the platform's `strftime`, so the model matches it only where that pads too.

## Findings

| source | as written | input that shows it | evidently intended | confidence | as-written member | corrected member |
|---|---|---|---|---|---|---|
| src/canceler/workflow.py:35-67 | `confirm_all_canceled` is called only when the query found nothing new, and the outer `while` has no poll limit | every query returns a non-empty list of new executions (a workload that keeps spawning) | as the docstring at lines 10-13 says: confirm after every attempt, stop on success, give up after MAX_POLLS | not executed | BulkCancel.NeverEndsWhileNewExecutions | BulkCancel.IntendedRunBounded |
