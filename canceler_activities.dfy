/**
 * The canceler's activities: the listing of executions started after the
 * batch operation, best-effort termination of a list of executions with a
 * success count, and the countdown poll that confirms nothing is left
 * running.  The Temporal client is an oracle: a listing function, one
 * termination outcome per attempt, one "anything running?" answer per check.
 */
module CancelerActivities {
  import opened Text

  type WorkflowId = string

  /** One entry of a visibility listing. */
  datatype WorkflowExecution = WorkflowExecution(id: WorkflowId)

  /** What a termination request does: succeed, or raise (not found, already closed, transport). */
  datatype TerminateOutcome = Terminated | Raised(reason: string)

  /** Defaults read from the environment by the activities. */
  const DefaultConfirmDeadlineSeconds: int := 240
  const DefaultConfirmPollSeconds: int := 5

  // ------------------------------------------------- query_new_wf_executions

  /** The visibility query for running executions of a workload started at or after `timestamp`. */
  function NewExecutionsQuery(workloadId: int, timestamp: string): string {
    "WorkloadId = \"" + IntString(workloadId) + "\"" + " AND ExecutionStatus = \"Running\" AND `StartTime`>="
      + "\"" + timestamp + "\""
  }

  /** The fixed text between the workload id and the timestamp. */
  const QueryMiddle: string := "\"" + " AND ExecutionStatus = \"Running\" AND `StartTime`>=" + "\""

  /** The query is a fixed head, the id, and a tail that opens with a quote and carries the timestamp. */
  lemma NewExecutionsQueryShape(w: int, t: string)
    ensures NewExecutionsQuery(w, t) == "WorkloadId = \"" + (IntString(w) + (QueryMiddle + t + "\""))
    ensures QueryMiddle[0] == '"'
  {
  }

  /** Equal strings that share a head agree after it. */
  lemma DropCommonHead(h: string, x: string, y: string)
    requires h + x == h + y
    ensures x == y
  {
    assert x == (h + x)[|h|..] && y == (h + y)[|h|..];
  }

  /** The query text pins down both the workload id and the timestamp it was built from. */
  lemma NewExecutionsQueryDetermines(w1: int, t1: string, w2: int, t2: string)
    ensures NewExecutionsQuery(w1, t1) == NewExecutionsQuery(w2, t2) ==> w1 == w2 && t1 == t2
  {
    if NewExecutionsQuery(w1, t1) == NewExecutionsQuery(w2, t2) {
      var a, b := IntString(w1), IntString(w2);
      var r1, r2 := QueryMiddle + t1 + "\"", QueryMiddle + t2 + "\"";
      NewExecutionsQueryShape(w1, t1);
      NewExecutionsQueryShape(w2, t2);
      DropCommonHead("WorkloadId = \"", a + r1, b + r2);
      assert r1[0] == '"' && r2[0] == '"';
      SplitAtQuote(a, r1, b, r2);
      IntStringInjective(w1, w2);
      assert t1 == r1[|QueryMiddle|..|r1| - 1] == r2[|QueryMiddle|..|r2| - 1] == t2;
    }
  }

  /** The position of the first double quote in `s` (|s| when there is none). */
  function FirstQuote(s: string): nat {
    if s == [] || s[0] == '"' then 0 else 1 + FirstQuote(s[1..])
  }

  /** A quote-free head followed by a quote ends where the first quote is. */
  lemma {:induction false} FirstQuoteAfter(a: string, r: string)
    requires |r| > 0 && r[0] == '"'
    requires forall i :: 0 <= i < |a| ==> a[i] != '"'
    ensures FirstQuote(a + r) == |a|
  {
    if a == [] {
      assert a + r == r;
    } else {
      assert (a + r)[0] == a[0];
      assert (a + r)[1..] == a[1..] + r;
      FirstQuoteAfter(a[1..], r);
    }
  }

  /** Two quote-free heads followed by a quote split a string at the same place. */
  lemma SplitAtQuote(a: string, r1: string, b: string, r2: string)
    requires a + r1 == b + r2
    requires |r1| > 0 && |r2| > 0 && r1[0] == '"' && r2[0] == '"'
    requires forall i :: 0 <= i < |a| ==> a[i] != '"'
    requires forall i :: 0 <= i < |b| ==> b[i] != '"'
    ensures a == b && r1 == r2
  {
    FirstQuoteAfter(a, r1);
    FirstQuoteAfter(b, r2);
    assert a == (a + r1)[..|a|] == (b + r2)[..|b|] == b;
    assert r1 == (a + r1)[|a|..] == (b + r2)[|b|..] == r2;
  }

  /** The ids of the listed executions, in listing order. */
  method QueryNewWfExecutions(workloadId: int, timestamp: string,
                              listWorkflows: string -> seq<WorkflowExecution>)
    returns (ids: seq<WorkflowId>)
    ensures var listed := listWorkflows(NewExecutionsQuery(workloadId, timestamp));
      |ids| == |listed| && forall i :: 0 <= i < |ids| ==> ids[i] == listed[i].id
  {
    var query := NewExecutionsQuery(workloadId, timestamp);
    var listed := listWorkflows(query);
    ids := [];
    for i := 0 to |listed|
      invariant |ids| == i
      invariant forall j :: 0 <= j < i ==> ids[j] == listed[j].id
    {
      ids := ids + [listed[i].id];
    }
  }

  // --------------------------------------------------- bulk_cancel_workflows

  /** `cancel_one`: a termination that raises yields False and goes no further. */
  function CancelOne(outcome: TerminateOutcome): bool {
    outcome.Terminated?
  }

  /** `sum(1 for ok in results if ok)`. */
  function CountTrue(results: seq<bool>): nat {
    if results == [] then 0
    else CountTrue(results[..|results| - 1]) + (if results[|results| - 1] then 1 else 0)
  }

  /** The positions whose flag is set. */
  function TruePositions(results: seq<bool>): set<nat> {
    set i: nat | i < |results| && results[i]
  }

  /** Counting the true flags is the number of positions that hold one. */
  lemma {:induction false} CountTrueIsCardinality(results: seq<bool>)
    ensures CountTrue(results) == |TruePositions(results)|
  {
    if results != [] {
      var n := |results| - 1;
      CountTrueIsCardinality(results[..n]);
      var before := TruePositions(results[..n]);
      assert n !in before;
      if results[n] {
        assert TruePositions(results) == before + {n};
      } else {
        assert TruePositions(results) == before;
      }
    }
  }

  /**
   * `bulk_cancel_workflows`: one termination attempt per listed position
   * (`terminate(i, ids[i])` is the outcome of the attempt for position i,
   * duplicates being separate attempts), every failure caught, and the
   * number of successful attempts returned.
   */
  function BulkCancelWorkflows(ids: seq<WorkflowId>, terminate: (nat, WorkflowId) -> TerminateOutcome): nat {
    CountTrue(seq(|ids|, i requires 0 <= i < |ids| => CancelOne(terminate(i, ids[i]))))
  }

  /** The successful attempts, by position. */
  function Succeeded(ids: seq<WorkflowId>, terminate: (nat, WorkflowId) -> TerminateOutcome): set<nat> {
    set i: nat | i < |ids| && terminate(i, ids[i]).Terminated?
  }

  /** At most one per flag; as many as flags exactly when all are set, none exactly when none is. */
  lemma {:induction false} CountTrueBounds(results: seq<bool>)
    ensures CountTrue(results) <= |results|
    ensures CountTrue(results) == |results| <==> forall i :: 0 <= i < |results| ==> results[i]
    ensures CountTrue(results) == 0 <==> forall i :: 0 <= i < |results| ==> !results[i]
  {
    if results != [] {
      var n := |results| - 1;
      CountTrueBounds(results[..n]);
      assert forall i :: 0 <= i < n ==> results[..n][i] == results[i];
    }
  }

  /**
   * The count is exactly the number of positions whose termination
   * succeeded: between 0 and the number of ids, all of them exactly when
   * nothing failed, none exactly when everything failed.
   */
  lemma BulkCancelCounts(ids: seq<WorkflowId>, terminate: (nat, WorkflowId) -> TerminateOutcome)
    ensures BulkCancelWorkflows(ids, terminate) == |Succeeded(ids, terminate)|
    ensures BulkCancelWorkflows(ids, terminate) <= |ids|
    ensures BulkCancelWorkflows(ids, terminate) == |ids| <==> forall i :: 0 <= i < |ids| ==> terminate(i, ids[i]).Terminated?
    ensures BulkCancelWorkflows(ids, terminate) == 0 <==> forall i :: 0 <= i < |ids| ==> terminate(i, ids[i]).Raised?
  {
    var results := seq(|ids|, i requires 0 <= i < |ids| => CancelOne(terminate(i, ids[i])));
    CountTrueIsCardinality(results);
    CountTrueBounds(results);
    assert forall i :: 0 <= i < |ids| ==> results[i] == terminate(i, ids[i]).Terminated?;
    assert TruePositions(results) == Succeeded(ids, terminate);
  }

  /** Two flag lists that agree except at position j count the same apart from that flag. */
  lemma {:induction false} CountTrueExceptAt(r1: seq<bool>, r2: seq<bool>, j: nat)
    requires |r1| == |r2| && j < |r1|
    requires forall i :: 0 <= i < |r1| && i != j ==> r1[i] == r2[i]
    ensures CountTrue(r1) - (if r1[j] then 1 else 0) == CountTrue(r2) - (if r2[j] then 1 else 0)
  {
    var n := |r1| - 1;
    if j < n {
      CountTrueExceptAt(r1[..n], r2[..n], j);
    } else {
      assert r1[..n] == r2[..n];
    }
  }

  /**
   * A failure stays local: two runs whose attempts agree everywhere except at
   * one position differ in their counts by exactly that position's outcome.
   */
  lemma FailureIsLocal(ids: seq<WorkflowId>, t1: (nat, WorkflowId) -> TerminateOutcome,
                       t2: (nat, WorkflowId) -> TerminateOutcome, j: nat)
    requires j < |ids|
    requires forall i :: 0 <= i < |ids| && i != j ==> t1(i, ids[i]) == t2(i, ids[i])
    ensures BulkCancelWorkflows(ids, t1) - (if t1(j, ids[j]).Terminated? then 1 else 0)
         == BulkCancelWorkflows(ids, t2) - (if t2(j, ids[j]).Terminated? then 1 else 0)
  {
    var r1 := seq(|ids|, i requires 0 <= i < |ids| => CancelOne(t1(i, ids[i])));
    var r2 := seq(|ids|, i requires 0 <= i < |ids| => CancelOne(t2(i, ids[i])));
    CountTrueExceptAt(r1, r2, j);
  }

  // ---------------------------------------------------- confirm_all_canceled

  /** The query `any_running` lists (note: the id unquoted, the status single-quoted). */
  function RunningQuery(workloadId: int): string {
    "WorkloadId = " + IntString(workloadId) + " and ExecutionStatus = 'Running'"
  }

  /** How many checks the countdown allows: ceil(deadline / poll), none for a deadline <= 0. */
  function MaxChecks(deadlineSeconds: int, pollSeconds: int): nat
    requires pollSeconds > 0
  {
    if deadlineSeconds <= 0 then 0 else (deadlineSeconds + pollSeconds - 1) / pollSeconds
  }

  /** With the default 240 s deadline and 5 s poll, the countdown checks at most 48 times. */
  lemma DefaultConfirmChecks()
    ensures MaxChecks(DefaultConfirmDeadlineSeconds, DefaultConfirmPollSeconds) == 48
  {
  }

  /** One more check fits exactly while the remaining time is positive. */
  lemma MaxChecksStep(deadlineSeconds: int, pollSeconds: int, checks: nat)
    requires pollSeconds > 0 && checks <= MaxChecks(deadlineSeconds, pollSeconds)
    ensures deadlineSeconds - checks * pollSeconds > 0 <==> checks < MaxChecks(deadlineSeconds, pollSeconds)
  {
    var d, p := deadlineSeconds, pollSeconds;
    if d > 0 {
      var m := MaxChecks(d, p);
      var x := d + p - 1;
      assert x == m * p + x % p;
      if checks < m {
        MulMonotone(checks + 1, m, p);
        assert (checks + 1) * p <= m * p;
        assert checks * p + p <= m * p;
      } else {
        assert checks == m;
        assert m * p + x % p >= d + 0;
        assert d - m * p <= x % p - p + 1;
      }
    }
  }

  lemma MulMonotone(a: nat, b: nat, p: nat)
    requires a <= b
    ensures a * p <= b * p
  {
    if a < b {
      MulMonotone(a, b - 1, p);
      assert b * p == (b - 1) * p + p;
    }
  }

  /**
   * `confirm_all_canceled`: check for a running execution of the workload
   * until one check finds none (True) or the countdown from the deadline runs
   * out (False), sleeping one poll interval after each check that still finds
   * one.  `anyRunning(q, k)` is the answer of the k-th check of query `q`.
   */
  method ConfirmAllCanceled(workloadId: int, deadlineSeconds: int, pollSeconds: int,
                            anyRunning: (string, nat) -> bool)
    returns (confirmed: bool, checks: nat, sleeps: nat)
    requires pollSeconds > 0
    ensures checks <= MaxChecks(deadlineSeconds, pollSeconds)
    ensures confirmed <==> exists k :: 0 <= k < MaxChecks(deadlineSeconds, pollSeconds)
                                       && !anyRunning(RunningQuery(workloadId), k)
    ensures confirmed ==> checks >= 1 && !anyRunning(RunningQuery(workloadId), checks - 1)
    ensures !confirmed ==> checks == MaxChecks(deadlineSeconds, pollSeconds)
    ensures forall k :: 0 <= k < checks && (k < checks - 1 || !confirmed) ==> anyRunning(RunningQuery(workloadId), k)
    ensures sleeps == if confirmed then checks - 1 else checks
  {
    var query := RunningQuery(workloadId);
    var remaining := deadlineSeconds;
    checks, sleeps := 0, 0;
    while remaining > 0
      invariant checks <= MaxChecks(deadlineSeconds, pollSeconds)
      invariant remaining == deadlineSeconds - checks * pollSeconds
      invariant sleeps == checks
      invariant forall k :: 0 <= k < checks ==> anyRunning(query, k)
      decreases remaining
    {
      MaxChecksStep(deadlineSeconds, pollSeconds, checks);
      checks := checks + 1;
      if !anyRunning(query, checks - 1) {
        return true, checks, sleeps;
      }
      sleeps := sleeps + 1;
      remaining := remaining - pollSeconds;
    }
    MaxChecksStep(deadlineSeconds, pollSeconds, checks);
    confirmed := false;
  }
}
