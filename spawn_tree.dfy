/**
 * The load-generating spawn tree: a parent workflow that starts a batch of
 * children once and then sleeps until it is cancelled, and a child workflow
 * that, when asked to, starts 500 grandchildren on every pass of its loop.
 *
 * Starting a child is "append one handle"; the workflow id comes from a
 * supplied uuid text, and the order in which concurrently started children
 * are appended is a supplied completion order, required to be a
 * permutation of the labels `range(n)` that were started.  Waiting on,
 * signalling and sleeping are recorded as events; whether a child failed
 * or a signal reached it is a supplied oracle.
 */
module SpawnTree {
  import opened Wrappers

  /** Grandchildren started by a spawning child on each pass. */
  const GrandchildrenPerPass: nat := 500
  /** `workflow.sleep(timedelta(minutes=30))`. */
  const SleepMinutes: nat := 30

  /** A started child workflow: its workflow id and the `(n, spawn)` it was started with. */
  datatype ChildHandle = ChildHandle(id: string, n: int, spawn: bool)

  /** What a workflow does that the model records. */
  datatype Event =
    | WaitedClosed(id: string)      // _wait_closed on the child with this id
    | CancelSignalled(id: string)   // child.signal(ChildWorkflow.cancel)
    | Slept(minutes: nat)           // workflow.sleep

  /** Why `_backup_cancel_by_index` raised. */
  datatype SignalError = IndexError | SignalFailed(id: string)

  /** The workflow id of a child started with uuid text `wfid`. */
  function ChildId(wfid: string): (id: string)
    ensures |id| == |wfid| + 9 && id[9..] == wfid
  {
    "workflow-" + wfid
  }

  /** Distinct uuids give distinct workflow ids. */
  lemma ChildIdInjective(a: string, b: string)
    ensures ChildId(a) == ChildId(b) ==> a == b
  {
    if ChildId(a) == ChildId(b) {
      assert a == ChildId(a)[9..];
    }
  }

  /** `range(n)`. */
  function Range(n: int): (r: seq<int>)
    ensures |r| == if n < 0 then 0 else n
    ensures forall i :: 0 <= i < |r| ==> r[i] == i
  {
    seq(if n < 0 then 0 else n, i => i)
  }

  /** Every label below n appears in `range(n)` exactly once and nothing else does. */
  lemma {:induction false} RangeOnce(n: int, j: int)
    ensures multiset(Range(n))[j] == if 0 <= j < n then 1 else 0
  {
    if n > 0 {
      RangeOnce(n - 1, j);
      assert Range(n) == Range(n - 1) + [n - 1];
      assert multiset(Range(n)) == multiset(Range(n - 1)) + multiset{n - 1};
    }
  }

  /** The handles of children started in `order` with uuids `wfids`. */
  function Handles(order: seq<int>, wfids: seq<string>, spawn: bool): (hs: seq<ChildHandle>)
    requires |order| == |wfids|
    ensures |hs| == |order|
  {
    if order == [] then []
    else Handles(order[..|order| - 1], wfids[..|wfids| - 1], spawn)
         + [ChildHandle(ChildId(wfids[|wfids| - 1]), order[|order| - 1], spawn)]
  }

  function Labels(hs: seq<ChildHandle>): (ls: seq<int>)
    ensures |ls| == |hs|
  {
    if hs == [] then [] else Labels(hs[..|hs| - 1]) + [hs[|hs| - 1].n]
  }

  /**
   * The i-th child appended is the i-th in completion order, with its own
   * uuid and the `spawn` it was given.
   */
  lemma {:induction false} HandlesAt(order: seq<int>, wfids: seq<string>, spawn: bool)
    requires |order| == |wfids|
    ensures forall i :: 0 <= i < |order| ==> Handles(order, wfids, spawn)[i] == ChildHandle(ChildId(wfids[i]), order[i], spawn)
  {
    if order != [] {
      var m := |order| - 1;
      HandlesAt(order[..m], wfids[..m], spawn);
      var hs := Handles(order, wfids, spawn);
      forall i | 0 <= i < |order|
        ensures hs[i] == ChildHandle(ChildId(wfids[i]), order[i], spawn)
      {
        if i < m {
          assert hs[i] == Handles(order[..m], wfids[..m], spawn)[i];
          assert order[..m][i] == order[i] && wfids[..m][i] == wfids[i];
        }
      }
    }
  }

  /** The labels of the appended children are the completion order itself. */
  lemma {:induction false} HandlesLabels(order: seq<int>, wfids: seq<string>, spawn: bool)
    requires |order| == |wfids|
    ensures Labels(Handles(order, wfids, spawn)) == order
  {
    if order != [] {
      var m := |order| - 1;
      HandlesLabels(order[..m], wfids[..m], spawn);
      var hs := Handles(order, wfids, spawn);
      assert hs[..m] == Handles(order[..m], wfids[..m], spawn);
      assert order == order[..m] + [order[m]];
    }
  }

  /** None of `hs` was started with `spawn=True`. */
  predicate NoneSpawn(hs: seq<ChildHandle>) {
    forall i :: 0 <= i < |hs| ==> !hs[i].spawn
  }

  /** Appending children started with `spawn=False` keeps NoneSpawn. */
  lemma NoneSpawnAppend(old_: seq<ChildHandle>, order: seq<int>, wfids: seq<string>)
    requires |order| == |wfids| && NoneSpawn(old_)
    ensures NoneSpawn(old_ + Handles(order, wfids, false))
  {
    HandlesAt(order, wfids, false);
  }

  /** An admissible completion order of `asyncio.gather` over `range(n)`. */
  predicate StartOrder(order: seq<int>, n: int) {
    multiset(order) == multiset(Range(n))
  }

  lemma StartOrderLength(order: seq<int>, n: int)
    requires StartOrder(order, n)
    ensures |order| == if n < 0 then 0 else n
  {
    assert |order| == |multiset(order)| == |multiset(Range(n))| == |Range(n)|;
  }

  /** `hs` are max(n, 0) children that carry each label 0..n-1 exactly once. */
  ghost predicate LabelledOnce(hs: seq<ChildHandle>, n: int) {
    && |hs| == (if n < 0 then 0 else n)
    && forall j :: multiset(Labels(hs))[j] == if 0 <= j < n then 1 else 0
  }

  /**
   * Children started over `range(n)` in any admissible order are max(n, 0)
   * children carrying each label 0..n-1 exactly once.
   */
  lemma HandlesLabelOnce(order: seq<int>, wfids: seq<string>, spawn: bool, n: int)
    requires |order| == |wfids| && StartOrder(order, n)
    ensures LabelledOnce(Handles(order, wfids, spawn), n)
  {
    HandlesLabels(order, wfids, spawn);
    StartOrderLength(order, n);
    forall j ensures multiset(order)[j] == if 0 <= j < n then 1 else 0 {
      RangeOnce(n, j);
    }
  }

  function Waits(hs: seq<ChildHandle>): (es: seq<Event>)
    ensures |es| == |hs|
  {
    if hs == [] then [] else Waits(hs[..|hs| - 1]) + [WaitedClosed(hs[|hs| - 1].id)]
  }

  function Signals(hs: seq<ChildHandle>): (es: seq<Event>)
    ensures |es| == |hs|
  {
    if hs == [] then [] else Signals(hs[..|hs| - 1]) + [CancelSignalled(hs[|hs| - 1].id)]
  }

  function Sleeps(k: nat): (es: seq<Event>)
    ensures |es| == k
  {
    if k == 0 then [] else Sleeps(k - 1) + [Slept(SleepMinutes)]
  }

  /** How many events are the cancel signal sent to the child with id `id`. */
  function SignalsTo(es: seq<Event>, id: string): nat {
    if es == [] then 0
    else SignalsTo(es[..|es| - 1], id) + if es[|es| - 1] == CancelSignalled(id) then 1 else 0
  }

  /** The fan-out's last signal goes to the last child. */
  lemma SignalsLast(hs: seq<ChildHandle>, id: string)
    requires hs != []
    ensures var n := |hs| - 1;
      SignalsTo(Signals(hs), id) == SignalsTo(Signals(hs[..n]), id) + if hs[n].id == id then 1 else 0
  {
    var n := |hs| - 1;
    var es := Signals(hs);
    assert es[..n] == Signals(hs[..n]) && es[n] == CancelSignalled(hs[n].id);
  }

  /** The cancel fan-out sends nothing to a workflow that is not a direct child. */
  lemma {:induction false} SignalsNoneToOthers(hs: seq<ChildHandle>, id: string)
    requires forall i :: 0 <= i < |hs| ==> hs[i].id != id
    ensures SignalsTo(Signals(hs), id) == 0
  {
    if hs != [] {
      var n := |hs| - 1;
      assert forall i :: 0 <= i < n ==> hs[..n][i] == hs[i];
      SignalsNoneToOthers(hs[..n], id);
      SignalsLast(hs, id);
    }
  }

  /** With distinct workflow ids, the cancel fan-out signals each direct child exactly once. */
  lemma {:induction false} SignalsOncePerChild(hs: seq<ChildHandle>, j: nat)
    requires j < |hs|
    requires forall a, b :: 0 <= a < b < |hs| ==> hs[a].id != hs[b].id
    ensures SignalsTo(Signals(hs), hs[j].id) == 1
  {
    var n := |hs| - 1;
    var init := hs[..n];
    var id := hs[j].id;
    SignalsLast(hs, id);
    if j == n {
      forall i | 0 <= i < n ensures init[i].id != id {
        assert init[i] == hs[i];
      }
      SignalsNoneToOthers(init, id);
    } else {
      forall a, b | 0 <= a < b < n ensures init[a].id != init[b].id {
        assert init[a] == hs[a] && init[b] == hs[b];
      }
      assert init[j] == hs[j];
      assert hs[n].id != id;
      SignalsOncePerChild(init, j);
    }
  }

  /**
   * Python's `list[idx]`: a negative index counts from the end; anything
   * else outside the list raises IndexError (None here).
   */
  function PyIndex(idx: int, len: nat): (r: Option<nat>)
    ensures r.Some? <==> -(len as int) <= idx < len
    ensures r.Some? ==> r.value < len && (r.value == idx || r.value == idx + len)
  {
    if 0 <= idx < len then Some(idx)
    else if -(len as int) <= idx < 0 then Some(idx + len)
    else None
  }

  /**
   * The parent's events after `pass` passes of its loop: one wait on each
   * child, one sleep per pass, and (once cancelled) one signal per child.
   */
  function ParentTrace(started: seq<ChildHandle>, pass: nat, cancelled: bool): seq<Event> {
    if pass == 0 then []
    else Waits(started) + Sleeps(pass) + if cancelled then Signals(started) else []
  }

  /**
   * One more pass of the parent's loop appends the waits (first pass only),
   * a 30-minute sleep, and the signals when the pass is cancelled.
   */
  lemma ParentPass(started: seq<ChildHandle>, pass: nat, cancelled: bool, before: seq<Event>, after: seq<Event>)
    requires before == ParentTrace(started, pass, false)
    requires pass == 0 ==> after == before + Waits(started) + [Slept(SleepMinutes)]
                                    + (if cancelled then Signals(started) else [])
    requires pass > 0 ==> after == before + [Slept(SleepMinutes)] + (if cancelled then Signals(started) else [])
    ensures after == ParentTrace(started, pass + 1, cancelled)
  {
    assert Sleeps(pass + 1) == Sleeps(pass) + [Slept(SleepMinutes)];
    if pass == 0 {
      assert Sleeps(0) == [];
    }
  }

  // ------------------------------------------------------------ the parent

  class CancelableWorkflow {
    var cancelled: bool
    var spawn: bool
    var children: seq<ChildHandle>
    /** Waits, signals and sleeps so far. */
    var events: seq<Event>

    constructor ()
      ensures !cancelled && spawn && children == [] && events == []
    {
      cancelled := false;
      spawn := true;
      children := [];
      events := [];
    }

    /** `_start_one`: start one child and append its handle. */
    method StartOne(n: int, spawnChild: bool, wfid: string) returns (h: ChildHandle)
      modifies this
      ensures h == ChildHandle(ChildId(wfid), n, spawnChild)
      ensures children == old(children) + [h]
      ensures cancelled == old(cancelled) && spawn == old(spawn) && events == old(events)
    {
      h := ChildHandle("workflow-" + wfid, n, spawnChild);
      children := children + [h];
    }

    /** The `gather` of `_start_one` calls, appending in the order they complete. */
    method StartAll(order: seq<int>, wfids: seq<string>, spawnChild: bool)
      requires |order| == |wfids|
      modifies this
      ensures children == old(children) + Handles(order, wfids, spawnChild)
      ensures cancelled == old(cancelled) && spawn == old(spawn) && events == old(events)
    {
      for i := 0 to |order|
        invariant children == old(children) + Handles(order[..i], wfids[..i], spawnChild)
        invariant cancelled == old(cancelled) && spawn == old(spawn) && events == old(events)
      {
        var _ := StartOne(order[i], spawnChild, wfids[i]);
        assert order[..i + 1][..i] == order[..i] && wfids[..i + 1][..i] == wfids[..i];
      }
      assert order[..|order|] == order && wfids[..|wfids|] == wfids;
    }

    /**
     * The `gather` of `_wait_closed` over the children: each child is
     * waited on once, and whatever it ended with is swallowed.
     */
    method WaitAllClosed(result: string -> Result<(), string>)
      modifies this
      ensures events == old(events) + Waits(children)
      ensures cancelled == old(cancelled) && spawn == old(spawn) && children == old(children)
    {
      for i := 0 to |children|
        invariant cancelled == old(cancelled) && spawn == old(spawn) && children == old(children)
        invariant events == old(events) + Waits(children[..i])
      {
        var _ := result(children[i].id);
        events := events + [WaitedClosed(children[i].id)];
        assert children[..i + 1][..i] == children[..i];
      }
      assert children[..|children|] == children;
    }

    /**
     * `_backup_cancel_by_index`: signal the child at a Python index; an
     * index outside the list raises before anything is sent, and a signal
     * the child does not accept raises after it was sent.
     */
    method BackupCancelByIndex(idx: int, accepts: string -> bool) returns (r: Option<SignalError>)
      modifies this
      ensures PyIndex(idx, |children|).None? ==> r == Some(IndexError) && events == old(events)
      ensures PyIndex(idx, |children|).Some? ==>
        var c := children[PyIndex(idx, |children|).value];
        && events == old(events) + [CancelSignalled(c.id)]
        && r == if accepts(c.id) then None else Some(SignalFailed(c.id))
      ensures cancelled == old(cancelled) && spawn == old(spawn) && children == old(children)
    {
      var j := PyIndex(idx, |children|);
      if j.None? {
        return Some(IndexError);
      }
      var child := children[j.value];
      events := events + [CancelSignalled(child.id)];
      r := if accepts(child.id) then None else Some(SignalFailed(child.id));
    }

    /**
     * The `cancel` signal: one cancel signal to each direct child, index 0
     * to len-1, failures swallowed, then the flag.
     */
    method Cancel(accepts: string -> bool)
      modifies this
      ensures events == old(events) + Signals(children)
      ensures cancelled && spawn == old(spawn) && children == old(children)
    {
      for i := 0 to |children|
        invariant cancelled == old(cancelled) && spawn == old(spawn) && children == old(children)
        invariant events == old(events) + Signals(children[..i])
      {
        var _ := BackupCancelByIndex(i, accepts);
        assert children[..i + 1][..i] == children[..i];
      }
      assert children[..|children|] == children;
      cancelled := true;
    }

    /**
     * One pass of the `while not self._cancelled` loop: while `spawn` is
     * set, start `executions` children with `spawn=True`, wait for all of
     * them and clear `spawn`; then sleep, and handle the cancel signal
     * during the sleep when `cancelNow`.
     */
    method Step(executions: int, order: seq<int>, wfids: seq<string>, result: string -> Result<(), string>,
                cancelNow: bool, accepts: string -> bool)
      requires |wfids| == |order| && StartOrder(order, executions)
      modifies this
      ensures old(spawn) ==>
        && children == old(children) + Handles(order, wfids, true)
        && LabelledOnce(children[|old(children)|..], executions)
        && events == old(events) + Waits(children) + [Slept(SleepMinutes)] + (if cancelNow then Signals(children) else [])
      ensures !old(spawn) ==>
        && children == old(children)
        && events == old(events) + [Slept(SleepMinutes)] + (if cancelNow then Signals(children) else [])
      ensures !spawn && cancelled == (old(cancelled) || cancelNow)
    {
      if spawn {
        StartAll(order, wfids, true);
        assert children[|old(children)|..] == Handles(order, wfids, true);
        HandlesLabelOnce(order, wfids, true, executions);
        WaitAllClosed(result);
        spawn := false;
      }
      events := events + [Slept(SleepMinutes)];
      if cancelNow {
        Cancel(accepts);
      }
    }

    /**
     * `run` on a new workflow, with the cancel signal handled during the
     * sleep of pass `cancelDuring`: the children are started once, waited
     * on once, each is sent one cancel signal, and the loop ends.
     */
    method Run(executions: int, order: seq<int>, wfids: seq<string>, result: string -> Result<(), string>,
               cancelDuring: nat, accepts: string -> bool)
      requires |wfids| == |order| && StartOrder(order, executions)
      requires !cancelled && spawn && children == [] && events == []
      modifies this
      ensures cancelled && !spawn
      ensures children == Handles(order, wfids, true) && LabelledOnce(children, executions)
      ensures events == ParentTrace(children, cancelDuring + 1, true)
    {
      ghost var started := Handles(order, wfids, true);
      var pass: nat := 0;
      while !cancelled
        invariant pass <= cancelDuring + 1
        invariant cancelled <==> pass == cancelDuring + 1
        invariant spawn <==> pass == 0
        invariant children == if pass == 0 then [] else started
        invariant events == ParentTrace(started, pass, cancelled)
        decreases cancelDuring + 1 - pass
      {
        ghost var before := events;
        Step(executions, order, wfids, result, pass == cancelDuring, accepts);
        assert children == started;
        ParentPass(started, pass, pass == cancelDuring, before, events);
        pass := pass + 1;
      }
      HandlesLabelOnce(order, wfids, true, executions);
    }
  }

  // ------------------------------------------------------------- the child

  /**
   * The grandchildren a spawning child has started after `p` passes.  Pass
   * k pairs the labels `orders(k)` with the uuids `wfids(k)`; `Run` requires
   * them to have equal lengths, and a pass where they do not adds nothing.
   */
  function Grandchildren(orders: nat -> seq<int>, wfids: nat -> seq<string>, p: nat): seq<ChildHandle> {
    if p == 0 then []
    else Grandchildren(orders, wfids, p - 1)
         + if |orders(p - 1)| == |wfids(p - 1)| then Handles(orders(p - 1), wfids(p - 1), false) else []
  }

  /** A spawning child's waits after `p` passes: each pass waits on every grandchild so far. */
  function ChildTrace(orders: nat -> seq<int>, wfids: nat -> seq<string>, p: nat): seq<Event> {
    if p == 0 then [] else ChildTrace(orders, wfids, p - 1) + Waits(Grandchildren(orders, wfids, p))
  }

  /**
   * Because `spawn` is re-read on every pass, a spawning child holds 500
   * grandchildren per pass, none of them spawning.
   */
  lemma {:induction false} GrandchildrenGrow(orders: nat -> seq<int>, wfids: nat -> seq<string>, p: nat)
    requires forall k: nat :: |orders(k)| == |wfids(k)| == GrandchildrenPerPass
    ensures |Grandchildren(orders, wfids, p)| == GrandchildrenPerPass * p
    ensures NoneSpawn(Grandchildren(orders, wfids, p))
  {
    if p > 0 {
      GrandchildrenGrow(orders, wfids, p - 1);
      NoneSpawnAppend(Grandchildren(orders, wfids, p - 1), orders(p - 1), wfids(p - 1));
      assert GrandchildrenPerPass * p == GrandchildrenPerPass * (p - 1) + GrandchildrenPerPass;
    }
  }

  /** c * (p - 1) * p / 2 waits, plus c * p more, make c * p * (p + 1) / 2. */
  lemma TriangleStep(c: int, waits: int, g: int, p: int)
    requires 2 * waits == c * ((p - 1) * p) && g == c * p
    ensures 2 * (waits + g) == c * (p * (p + 1))
  {
    assert p * (p + 1) == (p - 1) * p + 2 * p;
    assert c * (p * (p + 1)) == c * ((p - 1) * p) + 2 * (c * p);
  }

  /**
   * Each pass waits on every grandchild started so far, so a spawning
   * child has waited 500 * p * (p + 1) / 2 times after p passes.
   */
  lemma {:induction false} ChildWaitsGrow(orders: nat -> seq<int>, wfids: nat -> seq<string>, p: nat)
    requires forall k: nat :: |orders(k)| == |wfids(k)| == GrandchildrenPerPass
    ensures 2 * |ChildTrace(orders, wfids, p)| == GrandchildrenPerPass * (p * (p + 1))
  {
    if p > 0 {
      ChildWaitsGrow(orders, wfids, p - 1);
      GrandchildrenGrow(orders, wfids, p);
      assert |ChildTrace(orders, wfids, p)| == |ChildTrace(orders, wfids, p - 1)| + |Grandchildren(orders, wfids, p)|;
      TriangleStep(GrandchildrenPerPass, |ChildTrace(orders, wfids, p - 1)|, |Grandchildren(orders, wfids, p)|, p);
    }
  }

  /**
   * One more pass of the child's loop: a spawning child appends the pass's
   * grandchildren and waits on all it holds; otherwise it sleeps once more.
   */
  lemma ChildPass(orders: nat -> seq<int>, wfids: nat -> seq<string>, pass: nat, spawnArg: bool,
                  children: seq<ChildHandle>, events: seq<Event>, children': seq<ChildHandle>, events': seq<Event>)
    requires |orders(pass)| == |wfids(pass)|
    requires spawnArg ==> && children == Grandchildren(orders, wfids, pass) && events == ChildTrace(orders, wfids, pass)
                          && children' == children + Handles(orders(pass), wfids(pass), false)
                          && events' == events + Waits(children')
    requires !spawnArg ==> children == [] && events == Sleeps(pass) && children' == children
                           && events' == events + [Slept(SleepMinutes)]
    ensures spawnArg ==> children' == Grandchildren(orders, wfids, pass + 1) && events' == ChildTrace(orders, wfids, pass + 1)
    ensures !spawnArg ==> children' == [] && events' == Sleeps(pass + 1)
  {
  }

  /** Every pass starting `range(500)` in some completion order starts exactly 500 grandchildren. */
  lemma PassesStartPerPass(orders: nat -> seq<int>, wfids: nat -> seq<string>)
    requires forall k: nat :: |orders(k)| == |wfids(k)|
    requires forall k: nat {:trigger StartOrder(orders(k), GrandchildrenPerPass)} :: StartOrder(orders(k), GrandchildrenPerPass)
    ensures forall k: nat :: |orders(k)| == |wfids(k)| == GrandchildrenPerPass
  {
    forall k: nat ensures |orders(k)| == GrandchildrenPerPass {
      StartOrderLength(orders(k), GrandchildrenPerPass);
    }
  }

  class ChildWorkflow {
    var id: Option<int>
    var cancelled: bool
    var spawn: bool
    var children: seq<ChildHandle>
    /** Waits and sleeps so far. */
    var events: seq<Event>

    constructor ()
      ensures id == None && !cancelled && spawn && children == [] && events == []
    {
      id := None;
      cancelled := false;
      spawn := true;
      children := [];
      events := [];
    }

    /** `_start_one`: start one grandchild and append its handle. */
    method StartOne(n: int, spawnChild: bool, wfid: string) returns (h: ChildHandle)
      modifies this
      ensures h == ChildHandle(ChildId(wfid), n, spawnChild)
      ensures children == old(children) + [h]
      ensures id == old(id) && cancelled == old(cancelled) && spawn == old(spawn) && events == old(events)
    {
      h := ChildHandle("workflow-" + wfid, n, spawnChild);
      children := children + [h];
    }

    /** The `gather` of `_start_one` calls, appending in the order they complete. */
    method StartAll(order: seq<int>, wfids: seq<string>, spawnChild: bool)
      requires |order| == |wfids|
      modifies this
      ensures children == old(children) + Handles(order, wfids, spawnChild)
      ensures id == old(id) && cancelled == old(cancelled) && spawn == old(spawn) && events == old(events)
    {
      for i := 0 to |order|
        invariant children == old(children) + Handles(order[..i], wfids[..i], spawnChild)
        invariant id == old(id) && cancelled == old(cancelled) && spawn == old(spawn) && events == old(events)
      {
        var _ := StartOne(order[i], spawnChild, wfids[i]);
        assert order[..i + 1][..i] == order[..i] && wfids[..i + 1][..i] == wfids[..i];
      }
      assert order[..|order|] == order && wfids[..|wfids|] == wfids;
    }

    /** `CancelableWorkflow._wait_closed` over every grandchild started so far. */
    method WaitAllClosed(result: string -> Result<(), string>)
      modifies this
      ensures events == old(events) + Waits(children)
      ensures id == old(id) && cancelled == old(cancelled) && spawn == old(spawn) && children == old(children)
    {
      for i := 0 to |children|
        invariant id == old(id) && cancelled == old(cancelled) && spawn == old(spawn) && children == old(children)
        invariant events == old(events) + Waits(children[..i])
      {
        var _ := result(children[i].id);
        events := events + [WaitedClosed(children[i].id)];
        assert children[..i + 1][..i] == children[..i];
      }
      assert children[..|children|] == children;
    }

    /** The `cancel` signal: set the flag and forward nothing. */
    method Cancel()
      modifies this
      ensures cancelled
      ensures id == old(id) && spawn == old(spawn) && children == old(children) && events == old(events)
    {
      cancelled := true;
    }

    /**
     * One pass of the `while not self._cancelled` loop: `spawn` is re-read
     * from the argument, so a child started with `spawn=True` starts 500
     * more grandchildren with `spawn=False` (and waits on all it has) on
     * every pass; otherwise it sleeps.  The cancel signal is handled at the
     * end of the pass when `cancelNow`.
     */
    method Step(spawnArg: bool, order: seq<int>, wfids: seq<string>, result: string -> Result<(), string>,
                cancelNow: bool)
      requires |order| == |wfids| && StartOrder(order, GrandchildrenPerPass)
      modifies this
      ensures spawnArg ==>
        && children == old(children) + Handles(order, wfids, false)
        && LabelledOnce(children[|old(children)|..], GrandchildrenPerPass)
        && events == old(events) + Waits(children)
      ensures !spawnArg ==> children == old(children) && events == old(events) + [Slept(SleepMinutes)]
      ensures !spawn && id == old(id) && cancelled == (old(cancelled) || cancelNow)
    {
      spawn := spawnArg;
      if spawn {
        StartAll(order, wfids, false);
        assert children[|old(children)|..] == Handles(order, wfids, false);
        HandlesLabelOnce(order, wfids, false, GrandchildrenPerPass);
        WaitAllClosed(result);
        spawn := false;
      } else {
        events := events + [Slept(SleepMinutes)];
      }
      if cancelNow {
        Cancel();
      }
    }

    /**
     * `run(id, spawn)` on a new workflow, with the cancel signal handled
     * after pass `cancelDuring`; pass k starts its grandchildren in
     * `orders(k)` with uuids `wfids(k)`.  A spawning child starts a fresh
     * batch on every pass; a non-spawning one only sleeps.
     */
    method Run(runId: int, spawnArg: bool, orders: nat -> seq<int>, wfids: nat -> seq<string>,
               result: string -> Result<(), string>, cancelDuring: nat)
      requires forall k: nat :: |orders(k)| == |wfids(k)|
      requires forall k: nat {:trigger StartOrder(orders(k), GrandchildrenPerPass)} :: StartOrder(orders(k), GrandchildrenPerPass)
      requires !cancelled && children == [] && events == []
      modifies this
      ensures cancelled && !spawn && id == Some(runId)
      ensures spawnArg ==> children == Grandchildren(orders, wfids, cancelDuring + 1)
                           && |children| == GrandchildrenPerPass * (cancelDuring + 1) && NoneSpawn(children)
                           && events == ChildTrace(orders, wfids, cancelDuring + 1)
      ensures !spawnArg ==> children == [] && events == Sleeps(cancelDuring + 1)
    {
      id := Some(runId);
      var pass: nat := 0;
      while !cancelled
        invariant pass <= cancelDuring + 1
        invariant cancelled <==> pass == cancelDuring + 1
        invariant id == Some(runId)
        invariant pass > 0 ==> !spawn
        invariant spawnArg ==> children == Grandchildren(orders, wfids, pass) && events == ChildTrace(orders, wfids, pass)
        invariant !spawnArg ==> children == [] && events == Sleeps(pass)
        decreases cancelDuring + 1 - pass
      {
        ghost var children0, events0 := children, events;
        Step(spawnArg, orders(pass), wfids(pass), result, pass == cancelDuring);
        ChildPass(orders, wfids, pass, spawnArg, children0, events0, children, events);
        pass := pass + 1;
      }
      if spawnArg {
        PassesStartPerPass(orders, wfids);
        GrandchildrenGrow(orders, wfids, pass);
      }
    }
  }
}
