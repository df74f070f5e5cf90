/**
 * The bulk-cancel reconciliation workflow, as written: one batch-cancel
 * call, the batch start time captured after it, then passes of exactly
 * MAX_POLLS attempts for as long as the run is not fully canceled.  Each
 * attempt queries the executions started since the batch; when it finds
 * some it terminates them and goes on to the next attempt, and only when it
 * finds none does it ask for confirmation (and sleeps when that fails).
 *
 * The activities are oracles indexed by the attempt number, counted from 0
 * across passes: attempt `k` sees `newExecutions(k)`, `canceled(k)` and
 * `confirmed(k)`.  Every activity call and sleep is recorded as a `Call`.
 */
module BulkCancel {
  import opened Wrappers
  import opened Text

  /** The global attempt count per pass. */
  const MaxPolls: nat := 60
  const Successful: string := "Cancelation Successful"

  // ------------------------------------------------------------ timestamp

  /** A `datetime` in UTC. */
  datatype DateTime = DateTime(year: int, month: int, day: int, hour: int, minute: int, second: int, microsecond: int)

  /** The ranges Python's `datetime` guarantees for its fields. */
  predicate ValidDateTime(t: DateTime) {
    && 1 <= t.year <= 9999 && 1 <= t.month <= 12 && 1 <= t.day <= 31
    && 0 <= t.hour < 24 && 0 <= t.minute < 60 && 0 <= t.second < 60
    && 0 <= t.microsecond < 1000000
  }

  /** `t.strftime("%Y-%m-%dT%H:%M:%S.%f")[:-3] + "Z"`. */
  function FormatTimestamp(t: DateTime): string
    requires ValidDateTime(t)
  {
    var full := Padded(t.year, 4) + "-" + Padded(t.month, 2) + "-" + Padded(t.day, 2) + "T"
                + Padded(t.hour, 2) + ":" + Padded(t.minute, 2) + ":" + Padded(t.second, 2)
                + "." + Padded(t.microsecond, 6);
    full[..|full| - 3] + "Z"
  }

  /** The timestamp is ISO-8601 with milliseconds (microseconds truncated) and a `Z`. */
  lemma TimestampLayout(t: DateTime)
    requires ValidDateTime(t)
    ensures FormatTimestamp(t) == Padded(t.year, 4) + "-" + Padded(t.month, 2) + "-" + Padded(t.day, 2) + "T"
                                  + Padded(t.hour, 2) + ":" + Padded(t.minute, 2) + ":" + Padded(t.second, 2)
                                  + "." + Padded(t.microsecond / 1000, 3) + "Z"
  {
    var head := Padded(t.year, 4) + "-" + Padded(t.month, 2) + "-" + Padded(t.day, 2) + "T"
                + Padded(t.hour, 2) + ":" + Padded(t.minute, 2) + ":" + Padded(t.second, 2) + ".";
    var us := Padded(t.microsecond, 6);
    PaddedDropThree(t.microsecond);
    assert us == us[..3] + us[3..];
    assert (head + us)[..|head + us| - 3] == head + us[..3];
  }

  /**
   * The 24 characters of the timestamp read back as the date, the time and
   * the milliseconds they were written from.
   */
  lemma TimestampFields(t: DateTime)
    requires ValidDateTime(t)
    ensures var s := FormatTimestamp(t);
      && |s| == 24
      && s[4] == '-' && s[7] == '-' && s[10] == 'T' && s[13] == ':' && s[16] == ':' && s[19] == '.' && s[23] == 'Z'
      && AllDigits(s[..4]) && DigitsValue(s[..4]) == t.year
      && AllDigits(s[5..7]) && DigitsValue(s[5..7]) == t.month
      && AllDigits(s[8..10]) && DigitsValue(s[8..10]) == t.day
      && AllDigits(s[11..13]) && DigitsValue(s[11..13]) == t.hour
      && AllDigits(s[14..16]) && DigitsValue(s[14..16]) == t.minute
      && AllDigits(s[17..19]) && DigitsValue(s[17..19]) == t.second
      && AllDigits(s[20..23]) && DigitsValue(s[20..23]) == t.microsecond / 1000
  {
    TimestampLayout(t);
    Layout(Padded(t.year, 4), Padded(t.month, 2), Padded(t.day, 2), Padded(t.hour, 2),
           Padded(t.minute, 2), Padded(t.second, 2), Padded(t.microsecond / 1000, 3));
    PaddedValue(t.year, 4);
    PaddedValue(t.month, 2);
    PaddedValue(t.day, 2);
    PaddedValue(t.hour, 2);
    PaddedValue(t.minute, 2);
    PaddedValue(t.second, 2);
    PaddedValue(t.microsecond / 1000, 3);
  }

  /** Where each field sits in the fixed-width layout. */
  lemma Layout(y: string, mo: string, d: string, h: string, mi: string, se: string, ms: string)
    requires |y| == 4 && |mo| == 2 && |d| == 2 && |h| == 2 && |mi| == 2 && |se| == 2 && |ms| == 3
    ensures var s := y + "-" + mo + "-" + d + "T" + h + ":" + mi + ":" + se + "." + ms + "Z";
      && |s| == 24
      && s[4] == '-' && s[7] == '-' && s[10] == 'T' && s[13] == ':' && s[16] == ':' && s[19] == '.' && s[23] == 'Z'
      && s[..4] == y && s[5..7] == mo && s[8..10] == d && s[11..13] == h
      && s[14..16] == mi && s[17..19] == se && s[20..23] == ms
  {
    var s := y + "-" + mo + "-" + d + "T" + h + ":" + mi + ":" + se + "." + ms + "Z";
    var c4 := y + "-" + mo + "-";
    var c8 := c4 + d + "T" + h + ":";
    var c12 := c8 + mi + ":" + se + ".";
    assert s == c12 + ms + "Z";
    assert s[..|c12|] == c12;
    assert c12[..|c8|] == c8;
    assert c8[..|c4|] == c4;
  }

  // ------------------------------------------------------ calls and oracles

  /** What the workflow asks of the runtime, in order. */
  datatype Call =
    | BatchCancel                                 // the batch_cancel_workflows activity
    | QueryNew(workloadId: int, timestamp: string) // query_new_wf_executions
    | BulkCancelIds(ids: seq<string>)             // bulk_cancel_workflows
    | Reported(canceled: int)                     // the count it logs afterwards
    | Confirm(workloadId: int)                    // confirm_all_canceled
    | Sleep(seconds: nat)                         // workflow.sleep(poll_interval)

  /** The results the runtime hands back. */
  datatype Oracles = Oracles(
    now: DateTime,                        // workflow.now() after the batch call
    newExecutions: nat -> seq<string>,    // the query's result in attempt k
    canceled: nat -> Option<int>,         // bulk_cancel_workflows' result in attempt k (None: null)
    confirmed: nat -> bool)               // confirm_all_canceled's result in attempt k

  /** `int(canceled or 0)`. */
  function CanceledCount(r: Option<int>): int {
    match r
    case None => 0
    case Some(n) => n
  }

  datatype RunState = RunState(calls: seq<Call>, fullyCanceled: bool, response: Option<string>)

  /**
   * How `run` ends: it returns its response; it reaches `return response`
   * with no response bound (UnboundLocalError); or it is still looping when
   * the model's bound on the number of passes runs out.
   */
  datatype Outcome = Returned(response: string) | UnboundResponse | StillRunning

  /** Attempt k sets the flag: its query came back empty and confirmation succeeded. */
  predicate ConfirmsIn(env: Oracles, k: nat) {
    env.newExecutions(k) == [] && env.confirmed(k)
  }

  /** The calls of attempt k. */
  function AttemptCalls(env: Oracles, workloadId: int, ts: string, poll: nat, k: nat): seq<Call> {
    var ids := env.newExecutions(k);
    [QueryNew(workloadId, ts)]
      + if ids != [] then [BulkCancelIds(ids), Reported(CanceledCount(env.canceled(k)))]
        else if env.confirmed(k) then [Confirm(workloadId)]
        else [Confirm(workloadId), Sleep(poll)]
  }

  function Attempt(env: Oracles, workloadId: int, ts: string, poll: nat, k: nat, s: RunState): RunState {
    RunState(s.calls + AttemptCalls(env, workloadId, ts, poll, k),
             s.fullyCanceled || ConfirmsIn(env, k),
             if ConfirmsIn(env, k) then Some(Successful) else s.response)
  }

  /** The state after the first n attempts of the pass whose first attempt is `first`. */
  function Pass(env: Oracles, workloadId: int, ts: string, poll: nat, first: nat, n: nat, s: RunState): RunState {
    if n == 0 then s
    else Attempt(env, workloadId, ts, poll, first + n - 1, Pass(env, workloadId, ts, poll, first, n - 1, s))
  }

  /** A pass only appends to the calls before it. */
  lemma {:induction false} PassFrom(env: Oracles, workloadId: int, ts: string, poll: nat, first: nat, n: nat,
                                    calls: seq<Call>, flag: bool, response: Option<string>)
    ensures var p := Pass(env, workloadId, ts, poll, first, n, RunState([], flag, response));
      Pass(env, workloadId, ts, poll, first, n, RunState(calls, flag, response))
        == RunState(calls + p.calls, p.fullyCanceled, p.response)
  {
    if n > 0 {
      PassFrom(env, workloadId, ts, poll, first, n - 1, calls, flag, response);
      var p := Pass(env, workloadId, ts, poll, first, n - 1, RunState([], flag, response));
      var a := AttemptCalls(env, workloadId, ts, poll, first + n - 1);
      assert calls + p.calls + a == calls + (p.calls + a);
    }
  }

  /** The outer `while not self.fully_canceled` loop, allowed at most `fuel` more passes. */
  function Outer(env: Oracles, workloadId: int, ts: string, poll: nat, first: nat, fuel: nat, s: RunState): (RunState, Outcome)
    decreases fuel
  {
    if s.fullyCanceled then (s, if s.response.Some? then Returned(s.response.value) else UnboundResponse)
    else if fuel == 0 then (s, StillRunning)
    else Outer(env, workloadId, ts, poll, first + MaxPolls, fuel - 1, Pass(env, workloadId, ts, poll, first, MaxPolls, s))
  }

  /**
   * The loop ends either with the flag set, returning the response (if one
   * was bound), or with the flag clear and the passes used up.
   */
  lemma {:induction false} OuterOutcome(env: Oracles, workloadId: int, ts: string, poll: nat, first: nat, fuel: nat, s: RunState)
    ensures var (t, o) := Outer(env, workloadId, ts, poll, first, fuel, s);
      o == if !t.fullyCanceled then StillRunning
           else if t.response.Some? then Returned(t.response.value) else UnboundResponse
    decreases fuel
  {
    if !s.fullyCanceled && fuel > 0 {
      OuterOutcome(env, workloadId, ts, poll, first + MaxPolls, fuel - 1, Pass(env, workloadId, ts, poll, first, MaxPolls, s));
    }
  }

  /** Calls made before the loop stay in front of everything it appends. */
  lemma {:induction false} OuterFrom(env: Oracles, workloadId: int, ts: string, poll: nat, first: nat, fuel: nat,
                                     pre: seq<Call>, calls: seq<Call>, flag: bool, response: Option<string>)
    ensures var (s, o) := Outer(env, workloadId, ts, poll, first, fuel, RunState(calls, flag, response));
      Outer(env, workloadId, ts, poll, first, fuel, RunState(pre + calls, flag, response))
        == (RunState(pre + s.calls, s.fullyCanceled, s.response), o)
    decreases fuel
  {
    if !flag && fuel > 0 {
      PassFrom(env, workloadId, ts, poll, first, MaxPolls, calls, flag, response);
      PassFrom(env, workloadId, ts, poll, first, MaxPolls, pre + calls, flag, response);
      var p := Pass(env, workloadId, ts, poll, first, MaxPolls, RunState([], flag, response));
      assert pre + calls + p.calls == pre + (calls + p.calls);
      OuterFrom(env, workloadId, ts, poll, first + MaxPolls, fuel - 1, pre, calls + p.calls, p.fullyCanceled, p.response);
    }
  }

  /** `run` from a given value of the flag, allowed at most `fuel` passes. */
  function RunSpec(env: Oracles, workloadId: int, poll: nat, fuel: nat, initiallyCanceled: bool): (RunState, Outcome)
    requires ValidDateTime(env.now)
  {
    Outer(env, workloadId, FormatTimestamp(env.now), poll, 0, fuel, RunState([BatchCancel], initiallyCanceled, None))
  }

  // ------------------------------------------------------- properties of run

  /** The calls of attempts lo, lo + 1, ..., lo + n - 1, in order. */
  function AttemptsCalls(env: Oracles, workloadId: int, ts: string, poll: nat, lo: nat, n: nat): seq<Call> {
    if n == 0 then [] else AttemptsCalls(env, workloadId, ts, poll, lo, n - 1) + AttemptCalls(env, workloadId, ts, poll, lo + n - 1)
  }

  /** Some attempt among lo, ..., lo + n - 1 sets the flag. */
  predicate AnyConfirm(env: Oracles, lo: nat, n: nat) {
    n > 0 && (AnyConfirm(env, lo, n - 1) || ConfirmsIn(env, lo + n - 1))
  }

  lemma {:induction false} AnyConfirmIff(env: Oracles, lo: nat, n: nat)
    ensures AnyConfirm(env, lo, n) <==> exists k: nat :: lo <= k < lo + n && ConfirmsIn(env, k)
  {
    if n > 0 {
      AnyConfirmIff(env, lo, n - 1);
    }
  }

  /** Consecutive runs of attempts concatenate. */
  lemma {:induction false} AttemptsSplit(env: Oracles, workloadId: int, ts: string, poll: nat, lo: nat, a: nat, b: nat)
    ensures AttemptsCalls(env, workloadId, ts, poll, lo, a + b)
            == AttemptsCalls(env, workloadId, ts, poll, lo, a) + AttemptsCalls(env, workloadId, ts, poll, lo + a, b)
  {
    if b > 0 {
      AttemptsSplit(env, workloadId, ts, poll, lo, a, b - 1);
      var x := AttemptsCalls(env, workloadId, ts, poll, lo, a);
      var y := AttemptsCalls(env, workloadId, ts, poll, lo + a, b - 1);
      var z := AttemptCalls(env, workloadId, ts, poll, lo + a + b - 1);
      assert x + y + z == x + (y + z);
    }
  }

  /**
   * The first n attempts of a pass append their calls, set the flag exactly
   * when one of them confirms, and bind the response exactly then.
   */
  lemma {:induction false} PassShape(env: Oracles, workloadId: int, ts: string, poll: nat, first: nat, n: nat, s: RunState)
    ensures var any := AnyConfirm(env, first, n);
      Pass(env, workloadId, ts, poll, first, n, s)
      == RunState(s.calls + AttemptsCalls(env, workloadId, ts, poll, first, n),
                  s.fullyCanceled || any,
                  if any then Some(Successful) else s.response)
  {
    if n > 0 {
      PassShape(env, workloadId, ts, poll, first, n - 1, s);
      var x := AttemptsCalls(env, workloadId, ts, poll, first, n - 1);
      var z := AttemptCalls(env, workloadId, ts, poll, first + n - 1);
      assert s.calls + x + z == s.calls + (x + z);
    }
  }

  /** The number of passes the outer loop runs: up to and including the first that confirms. */
  function PassesRun(env: Oracles, first: nat, fuel: nat): (p: nat)
    ensures p <= fuel
    decreases fuel
  {
    if fuel == 0 then 0
    else if AnyConfirm(env, first, MaxPolls) then 1
    else 1 + PassesRun(env, first + MaxPolls, fuel - 1)
  }

  /** Attempt counts of consecutive passes. */
  lemma PassArith(fuel: nat, p: nat)
    ensures (1 + p) * MaxPolls == MaxPolls + p * MaxPolls
    ensures fuel > 0 ==> fuel * MaxPolls == MaxPolls + (fuel - 1) * MaxPolls
  {
  }

  /**
   * From a clear flag, the outer loop sets the flag exactly when some
   * attempt within its bound confirms, and then holds "Cancelation
   * Successful" as the response.
   */
  lemma {:induction false} OuterFlag(env: Oracles, workloadId: int, ts: string, poll: nat, first: nat, fuel: nat, s: RunState)
    requires !s.fullyCanceled
    ensures var (t, _) := Outer(env, workloadId, ts, poll, first, fuel, s);
      && (t.fullyCanceled <==> AnyConfirm(env, first, fuel * MaxPolls))
      && t.response == if t.fullyCanceled then Some(Successful) else s.response
    decreases fuel
  {
    if fuel > 0 {
      PassArith(fuel, 0);
      PassShape(env, workloadId, ts, poll, first, MaxPolls, s);
      AttemptsSplitConfirm(env, first, MaxPolls, (fuel - 1) * MaxPolls);
      if !AnyConfirm(env, first, MaxPolls) {
        OuterFlag(env, workloadId, ts, poll, first + MaxPolls, fuel - 1, Pass(env, workloadId, ts, poll, first, MaxPolls, s));
      }
    }
  }

  /** The calls of p whole passes, the first of which starts at attempt `first`. */
  function PassesCalls(env: Oracles, workloadId: int, ts: string, poll: nat, first: nat, p: nat): seq<Call>
    decreases p
  {
    if p == 0 then []
    else AttemptsCalls(env, workloadId, ts, poll, first, MaxPolls) + PassesCalls(env, workloadId, ts, poll, first + MaxPolls, p - 1)
  }

  /** p whole passes are p * MaxPolls consecutive attempts. */
  lemma {:induction false} PassesCallsFlat(env: Oracles, workloadId: int, ts: string, poll: nat, first: nat, p: nat)
    ensures PassesCalls(env, workloadId, ts, poll, first, p) == AttemptsCalls(env, workloadId, ts, poll, first, p * MaxPolls)
    decreases p
  {
    if p > 0 {
      PassesCallsFlat(env, workloadId, ts, poll, first + MaxPolls, p - 1);
      PassArith(p, p - 1);
      AttemptsSplit(env, workloadId, ts, poll, first, MaxPolls, (p - 1) * MaxPolls);
    }
  }

  /**
   * From a clear flag, the outer loop runs whole passes: no pass stops
   * early, and the calls are those of the first `PassesRun` passes.
   */
  lemma {:induction false} OuterCalls(env: Oracles, workloadId: int, ts: string, poll: nat, first: nat, fuel: nat, s: RunState)
    requires !s.fullyCanceled
    ensures Outer(env, workloadId, ts, poll, first, fuel, s).0.calls
            == s.calls + PassesCalls(env, workloadId, ts, poll, first, PassesRun(env, first, fuel))
    decreases fuel
  {
    if fuel > 0 {
      PassShape(env, workloadId, ts, poll, first, MaxPolls, s);
      var s1 := Pass(env, workloadId, ts, poll, first, MaxPolls, s);
      var x := AttemptsCalls(env, workloadId, ts, poll, first, MaxPolls);
      assert s1.calls == s.calls + x;
      if !AnyConfirm(env, first, MaxPolls) {
        OuterCalls(env, workloadId, ts, poll, first + MaxPolls, fuel - 1, s1);
        var y := PassesCalls(env, workloadId, ts, poll, first + MaxPolls, PassesRun(env, first + MaxPolls, fuel - 1));
        assert s.calls + x + y == s.calls + (x + y);
      } else {
        assert PassesCalls(env, workloadId, ts, poll, first, 1) == x + [];
      }
    }
  }

  /**
   * `run` on a fresh workflow (flag clear): the calls are the batch cancel
   * followed by whole passes of attempts; the run returns "Cancelation
   * Successful" exactly when some attempt within the bound finds no new
   * executions and confirms, never reaches `return` with `response`
   * unbound, and otherwise is still looping.  With the flag already set it
   * skips the loop and reaches `return` with `response` unbound.
   */
  lemma RunShape(env: Oracles, workloadId: int, poll: nat, fuel: nat, initiallyCanceled: bool)
    requires ValidDateTime(env.now)
    ensures var (s, o) := RunSpec(env, workloadId, poll, fuel, initiallyCanceled);
      && (initiallyCanceled ==> s == RunState([BatchCancel], true, None) && o == UnboundResponse)
      && (!initiallyCanceled ==>
            && s.calls == [BatchCancel] + AttemptsCalls(env, workloadId, FormatTimestamp(env.now), poll, 0,
                                                   PassesRun(env, 0, fuel) * MaxPolls)
            && o != UnboundResponse
            && (o == Returned(Successful) <==> exists k: nat :: k < fuel * MaxPolls && ConfirmsIn(env, k))
            && (o == StillRunning <==> forall k: nat :: k < fuel * MaxPolls ==> !ConfirmsIn(env, k)))
  {
    var ts := FormatTimestamp(env.now);
    var s0 := RunState([BatchCancel], initiallyCanceled, None);
    OuterOutcome(env, workloadId, ts, poll, 0, fuel, s0);
    if !initiallyCanceled {
      OuterFlag(env, workloadId, ts, poll, 0, fuel, s0);
      OuterCalls(env, workloadId, ts, poll, 0, fuel, s0);
      PassesCallsFlat(env, workloadId, ts, poll, 0, PassesRun(env, 0, fuel));
      AnyConfirmIff(env, 0, fuel * MaxPolls);
    }
  }

  /**
   * The batch cancel is the first call of `run` and is never repeated, and
   * every query of the run carries the workload id and the one timestamp
   * formatted from the time captured after the batch cancel.
   */
  lemma RunCallsOrder(env: Oracles, workloadId: int, poll: nat, fuel: nat, initiallyCanceled: bool)
    requires ValidDateTime(env.now)
    ensures var (s, _) := RunSpec(env, workloadId, poll, fuel, initiallyCanceled);
      && |s.calls| > 0 && s.calls[0] == BatchCancel && BatchCancel !in s.calls[1..]
      && (forall x :: x in s.calls && x.QueryNew? ==> x == QueryNew(workloadId, FormatTimestamp(env.now)))
  {
    var ts := FormatTimestamp(env.now);
    RunShape(env, workloadId, poll, fuel, initiallyCanceled);
    var (s, _) := RunSpec(env, workloadId, poll, fuel, initiallyCanceled);
    if initiallyCanceled {
      assert s.calls[1..] == [];
    } else {
      var n := PassesRun(env, 0, fuel) * MaxPolls;
      AttemptsQueries(env, workloadId, ts, poll, 0, n);
      assert s.calls[1..] == AttemptsCalls(env, workloadId, ts, poll, 0, n);
    }
  }

  /** How many calls satisfy `f`. */
  function Count(calls: seq<Call>, f: Call -> bool): (n: nat)
    ensures n <= |calls|
  {
    if calls == [] then 0 else (if f(calls[0]) then 1 else 0) + Count(calls[1..], f)
  }

  lemma {:induction false} CountAppend(a: seq<Call>, b: seq<Call>, f: Call -> bool)
    ensures Count(a + b, f) == Count(a, f) + Count(b, f)
  {
    if a == [] {
      assert a + b == b;
    } else {
      CountAppend(a[1..], b, f);
      assert (a + b)[1..] == a[1..] + b;
    }
  }

  lemma CountUnfold(calls: seq<Call>, f: Call -> bool)
    requires calls != []
    ensures Count(calls, f) == (if f(calls[0]) then 1 else 0) + Count(calls[1..], f)
  {
  }

  /** Counts of the calls of a short sequence, element by element. */
  lemma CountSmall(calls: seq<Call>, f: Call -> bool)
    requires |calls| <= 4
    ensures Count(calls, f) == (if |calls| > 0 && f(calls[0]) then 1 else 0) + (if |calls| > 1 && f(calls[1]) then 1 else 0)
                               + (if |calls| > 2 && f(calls[2]) then 1 else 0) + (if |calls| > 3 && f(calls[3]) then 1 else 0)
  {
    var c := calls;
    if |c| > 0 {
      CountUnfold(c, f);
      if |c| > 1 {
        CountUnfold(c[1..], f);
        assert c[1..][1..] == c[2..];
        if |c| > 2 {
          CountUnfold(c[2..], f);
          assert c[2..][1..] == c[3..];
          if |c| > 3 {
            CountUnfold(c[3..], f);
            assert c[3..][1..] == [];
          } else {
            assert c[3..] == [];
          }
        } else {
          assert c[2..] == [];
        }
      } else {
        assert c[1..] == [];
      }
    }
  }

  predicate IsQuery(c: Call) { c.QueryNew? }
  predicate IsConfirm(c: Call) { c.Confirm? }

  /**
   * Each attempt queries first, then either terminates the new executions
   * (when there are any) or asks for confirmation (when there are none),
   * and sleeps only after a confirmation that failed.
   */
  lemma AttemptShape(env: Oracles, workloadId: int, ts: string, poll: nat, k: nat)
    ensures var c := AttemptCalls(env, workloadId, ts, poll, k);
      && c[0] == QueryNew(workloadId, ts) && Count(c, IsQuery) == 1
      && (forall x :: x in c && x.QueryNew? ==> x == QueryNew(workloadId, ts))
      && BatchCancel !in c
      && (Count(c, IsConfirm) == 1 <==> env.newExecutions(k) == [])
      && (Count(c, IsConfirm) == 0 <==> env.newExecutions(k) != [])
      && (BulkCancelIds(env.newExecutions(k)) in c <==> env.newExecutions(k) != [])
      && (env.newExecutions(k) != [] && env.canceled(k) == None ==> Reported(0) in c)
      && (Sleep(poll) in c <==> env.newExecutions(k) == [] && !env.confirmed(k))
  {
    var c := AttemptCalls(env, workloadId, ts, poll, k);
    CountSmall(c, IsQuery);
    CountSmall(c, IsConfirm);
  }

  /**
   * Across attempts: one query per attempt, and every query carries the
   * workload id and the single timestamp taken after the batch cancel.
   */
  lemma {:induction false} AttemptsQueries(env: Oracles, workloadId: int, ts: string, poll: nat, lo: nat, n: nat)
    ensures var c := AttemptsCalls(env, workloadId, ts, poll, lo, n);
      && Count(c, IsQuery) == n
      && (forall x :: x in c && x.QueryNew? ==> x == QueryNew(workloadId, ts))
      && BatchCancel !in c
  {
    if n > 0 {
      AttemptsQueries(env, workloadId, ts, poll, lo, n - 1);
      AttemptShape(env, workloadId, ts, poll, lo + n - 1);
      CountAppend(AttemptsCalls(env, workloadId, ts, poll, lo, n - 1), AttemptCalls(env, workloadId, ts, poll, lo + n - 1), IsQuery);
    }
  }

  /** Attempts whose queries all find new executions never ask for confirmation. */
  lemma {:induction false} AttemptsNeverConfirm(env: Oracles, workloadId: int, ts: string, poll: nat, lo: nat, n: nat)
    requires forall k: nat :: lo <= k < lo + n ==> env.newExecutions(k) != []
    ensures Count(AttemptsCalls(env, workloadId, ts, poll, lo, n), IsConfirm) == 0
    ensures !AnyConfirm(env, lo, n)
  {
    if n > 0 {
      AttemptsNeverConfirm(env, workloadId, ts, poll, lo, n - 1);
      AttemptShape(env, workloadId, ts, poll, lo + n - 1);
      CountAppend(AttemptsCalls(env, workloadId, ts, poll, lo, n - 1), AttemptCalls(env, workloadId, ts, poll, lo + n - 1), IsConfirm);
    }
  }

  /** Without a confirming attempt the loop uses up every pass it is allowed. */
  lemma {:induction false} PassesRunAll(env: Oracles, first: nat, fuel: nat)
    requires !AnyConfirm(env, first, fuel * MaxPolls)
    ensures PassesRun(env, first, fuel) == fuel
    decreases fuel
  {
    if fuel > 0 {
      PassArith(fuel, 0);
      AttemptsSplitConfirm(env, first, MaxPolls, (fuel - 1) * MaxPolls);
      PassesRunAll(env, first + MaxPolls, fuel - 1);
    }
  }

  lemma {:induction false} AttemptsSplitConfirm(env: Oracles, lo: nat, a: nat, b: nat)
    ensures AnyConfirm(env, lo, a + b) <==> AnyConfirm(env, lo, a) || AnyConfirm(env, lo + a, b)
  {
    if b > 0 {
      AttemptsSplitConfirm(env, lo, a, b - 1);
    }
  }

  /**
   * As written, a run in which every query keeps finding new executions
   * never asks for confirmation and never ends: after any number of passes
   * it has made 60 queries per pass and no confirm call, and is still looping.
   */
  lemma NeverEndsWhileNewExecutions(env: Oracles, workloadId: int, poll: nat, fuel: nat)
    requires ValidDateTime(env.now)
    requires forall k: nat :: env.newExecutions(k) != []
    ensures var (s, o) := RunSpec(env, workloadId, poll, fuel, false);
      o == StillRunning && Count(s.calls, IsConfirm) == 0 && Count(s.calls, IsQuery) == fuel * MaxPolls
  {
    var ts := FormatTimestamp(env.now);
    RunShape(env, workloadId, poll, fuel, false);
    AttemptsNeverConfirm(env, workloadId, ts, poll, 0, fuel * MaxPolls);
    PassesRunAll(env, 0, fuel);
    var c := AttemptsCalls(env, workloadId, ts, poll, 0, fuel * MaxPolls);
    AttemptsQueries(env, workloadId, ts, poll, 0, fuel * MaxPolls);
    CountAppend([BatchCancel], c, IsConfirm);
    CountAppend([BatchCancel], c, IsQuery);
    assert [BatchCancel][..0] == [];
  }

  // ----------------------------------------- the loop as its docstring describes it

  datatype IntendedOutcome = Done(response: string) | Exhausted

  /**
   * The reconciliation loop as the class docstring describes it: attempts
   * k, k + 1, ... up to `maxPolls`; each queries, terminates what it found,
   * then always asks for confirmation; it stops on the first confirmation,
   * sleeps after a failed one, and gives up once `maxPolls` attempts are spent.
   */
  function IntendedRun(env: Oracles, workloadId: int, ts: string, poll: nat, maxPolls: nat, k: nat): (seq<Call>, IntendedOutcome)
    decreases maxPolls - k
  {
    if k >= maxPolls then ([], Exhausted)
    else
      var ids := env.newExecutions(k);
      var head := [QueryNew(workloadId, ts)]
                  + (if ids != [] then [BulkCancelIds(ids), Reported(CanceledCount(env.canceled(k)))] else [])
                  + [Confirm(workloadId)];
      if env.confirmed(k) then (head, Done(Successful))
      else
        var (rest, o) := IntendedRun(env, workloadId, ts, poll, maxPolls, k + 1);
        (head + [Sleep(poll)] + rest, o)
  }

  /**
   * The intended loop always ends within its bound: it succeeds exactly
   * when some attempt's confirmation succeeds, confirms in every attempt it
   * makes, and when exhausted has made exactly the remaining attempts.
   */
  lemma {:induction false} IntendedRunBounded(env: Oracles, workloadId: int, ts: string, poll: nat, maxPolls: nat, k: nat)
    requires k <= maxPolls
    ensures var (c, o) := IntendedRun(env, workloadId, ts, poll, maxPolls, k);
      && (o == Done(Successful) <==> exists j: nat :: k <= j < maxPolls && env.confirmed(j))
      && (o == Exhausted <==> forall j: nat :: k <= j < maxPolls ==> !env.confirmed(j))
      && Count(c, IsQuery) <= maxPolls - k
      && Count(c, IsConfirm) == Count(c, IsQuery)
      && (o == Exhausted ==> Count(c, IsQuery) == maxPolls - k)
    decreases maxPolls - k
  {
    if k < maxPolls {
      var ids := env.newExecutions(k);
      var head := [QueryNew(workloadId, ts)]
                  + (if ids != [] then [BulkCancelIds(ids), Reported(CanceledCount(env.canceled(k)))] else [])
                  + [Confirm(workloadId)];
      HeadCounts(head, workloadId, ts, ids, CanceledCount(env.canceled(k)));
      if !env.confirmed(k) {
        IntendedRunBounded(env, workloadId, ts, poll, maxPolls, k + 1);
        var (rest, o) := IntendedRun(env, workloadId, ts, poll, maxPolls, k + 1);
        CountAppend(head, [Sleep(poll)], IsQuery);
        CountAppend(head, [Sleep(poll)], IsConfirm);
        CountAppend(head + [Sleep(poll)], rest, IsQuery);
        CountAppend(head + [Sleep(poll)], rest, IsConfirm);
        assert [Sleep(poll)][..0] == [];
      }
    }
  }

  lemma HeadCounts(head: seq<Call>, workloadId: int, ts: string, ids: seq<string>, canceled: int)
    requires head == [QueryNew(workloadId, ts)]
                     + (if ids != [] then [BulkCancelIds(ids), Reported(canceled)] else [])
                     + [Confirm(workloadId)]
    ensures Count(head, IsQuery) == 1 && Count(head, IsConfirm) == 1
  {
    CountSmall(head, IsQuery);
    CountSmall(head, IsConfirm);
  }

  /**
   * The behaviour the workflow evidently intends for a workload that keeps
   * spawning: with new executions in every attempt and no confirmation, it
   * gives up after exactly `maxPolls` attempts.
   */
  lemma IntendedExhaustsWhileNewExecutions(env: Oracles, workloadId: int, ts: string, poll: nat, maxPolls: nat)
    requires forall k: nat :: env.newExecutions(k) != [] && !env.confirmed(k)
    ensures var (c, o) := IntendedRun(env, workloadId, ts, poll, maxPolls, 0);
      o == Exhausted && Count(c, IsQuery) == maxPolls && Count(c, IsConfirm) == maxPolls
  {
    IntendedRunBounded(env, workloadId, ts, poll, maxPolls, 0);
  }

  // ------------------------------------------------------------ the class

  class BulkCancelWorkflow {
    var fullyCanceled: bool
    /** The calls made so far. */
    var calls: seq<Call>

    constructor ()
      ensures !fullyCanceled && calls == []
    {
      fullyCanceled := false;
      calls := [];
    }

    /** One attempt of the inner `for` loop; `response` is the local of `run`. */
    method RunAttempt(workloadId: int, pollSeconds: nat, env: Oracles, batchStartTime: DateTime, k: nat,
                      response: Option<string>)
      returns (response': Option<string>)
      requires ValidDateTime(batchStartTime)
      modifies this
      ensures var s := Attempt(env, workloadId, FormatTimestamp(batchStartTime), pollSeconds, k,
                               RunState([], old(fullyCanceled), response));
        calls == old(calls) + s.calls && fullyCanceled == s.fullyCanceled && response' == s.response
    {
      response' := response;
      var timestamp := FormatTimestamp(batchStartTime);
      var workflowIds := env.newExecutions(k);
      calls := calls + [QueryNew(workloadId, timestamp)];
      if workflowIds != [] {
        var canceled := CanceledCount(env.canceled(k));
        calls := calls + [BulkCancelIds(workflowIds), Reported(canceled)];
      } else {
        calls := calls + [Confirm(workloadId)];
        var confirmed := env.confirmed(k);
        if confirmed {
          fullyCanceled := true;
          response' := Some(Successful);
        } else {
          calls := calls + [Sleep(pollSeconds)];
        }
      }
    }

    /** One pass of the outer loop: the `for attempt in range(1, MAX_POLLS + 1)` loop. */
    method RunPass(workloadId: int, pollSeconds: nat, env: Oracles, batchStartTime: DateTime, first: nat,
                   response: Option<string>)
      returns (response': Option<string>)
      requires ValidDateTime(batchStartTime)
      modifies this
      ensures var s := Pass(env, workloadId, FormatTimestamp(batchStartTime), pollSeconds, first, MaxPolls,
                            RunState([], old(fullyCanceled), response));
        calls == old(calls) + s.calls && fullyCanceled == s.fullyCanceled && response' == s.response
    {
      ghost var ts := FormatTimestamp(batchStartTime);
      ghost var start := RunState([], fullyCanceled, response);
      ghost var trace: seq<Call> := [];
      response' := response;
      for attempt := 1 to MaxPolls + 1
        invariant calls == old(calls) + trace
        invariant RunState(trace, fullyCanceled, response') == Pass(env, workloadId, ts, pollSeconds, first, attempt - 1, start)
      {
        ghost var a := AttemptCalls(env, workloadId, ts, pollSeconds, first + attempt - 1);
        ghost var prev := RunState(trace, fullyCanceled, response');
        response' := RunAttempt(workloadId, pollSeconds, env, batchStartTime, first + attempt - 1, response');
        assert calls == old(calls) + (trace + a);
        trace := trace + a;
        assert Pass(env, workloadId, ts, pollSeconds, first, attempt, start)
               == Attempt(env, workloadId, ts, pollSeconds, first + attempt - 1, prev);
      }
    }

    /**
     * The outer `while not self.fully_canceled` loop, cut off after `fuel`
     * passes; `response` is the local of `run`.
     */
    method RunPasses(workloadId: int, pollSeconds: nat, env: Oracles, batchStartTime: DateTime, fuel: nat,
                     response: Option<string>)
      returns (response': Option<string>)
      requires ValidDateTime(batchStartTime)
      modifies this
      ensures var (s, _) := Outer(env, workloadId, FormatTimestamp(batchStartTime), pollSeconds, 0, fuel,
                                  RunState(old(calls), old(fullyCanceled), response));
        calls == s.calls && fullyCanceled == s.fullyCanceled && response' == s.response
    {
      ghost var ts := FormatTimestamp(batchStartTime);
      ghost var spec := Outer(env, workloadId, ts, pollSeconds, 0, fuel, RunState(calls, fullyCanceled, response));
      response' := response;
      var pass: nat := 0;
      var first: nat := 0;
      while !fullyCanceled && pass < fuel
        invariant pass <= fuel
        invariant Outer(env, workloadId, ts, pollSeconds, first, fuel - pass, RunState(calls, fullyCanceled, response')) == spec
        decreases fuel - pass
      {
        ghost var before := RunState(calls, fullyCanceled, response');
        response' := RunPass(workloadId, pollSeconds, env, batchStartTime, first, response');
        PassFrom(env, workloadId, ts, pollSeconds, first, MaxPolls, before.calls, before.fullyCanceled, before.response);
        pass := pass + 1;
        first := first + MaxPolls;
      }
      assert spec == Outer(env, workloadId, ts, pollSeconds, first, fuel - pass, RunState(calls, fullyCanceled, response'));
    }

    /**
     * `run`.  `maxPolls` appears only in a log line in the source; the number
     * of attempts per pass is the global MaxPolls.
     */
    method Run(workloadId: int, pollSeconds: nat, maxPolls: int, env: Oracles, fuel: nat) returns (outcome: Outcome)
      requires ValidDateTime(env.now)
      modifies this
      ensures var (s, o) := RunSpec(env, workloadId, pollSeconds, fuel, old(fullyCanceled));
        calls == old(calls) + s.calls && fullyCanceled == s.fullyCanceled && outcome == o
    {
      calls := calls + [BatchCancel];
      var batchStartTime := env.now;
      var response: Option<string> := None;
      OuterFrom(env, workloadId, FormatTimestamp(batchStartTime), pollSeconds, 0, fuel, old(calls), [BatchCancel],
                fullyCanceled, None);
      OuterOutcome(env, workloadId, FormatTimestamp(batchStartTime), pollSeconds, 0, fuel,
                   RunState([BatchCancel], fullyCanceled, None));
      response := RunPasses(workloadId, pollSeconds, env, batchStartTime, fuel, response);
      if !fullyCanceled {
        outcome := StillRunning;
      } else if response.None? {
        outcome := UnboundResponse;
      } else {
        outcome := Returned(response.value);
      }
    }
  }
}
