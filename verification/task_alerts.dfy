/** Alerts of task runs: raises and resolves that arrive late, twice or out of
    order, held together by the order of the task's terminal runs. */
module TaskAlerts {
  import opened Basics
  import opened AlertStates
  import AlertRows

  datatype RunStatus = Queued | Running | Retrying | Success | Failed | Canceled | Warning | Skipped

  predicate Terminal(s: RunStatus) { s.Success? || s.Failed? || s.Canceled? || s.Warning? || s.Skipped? }

  datatype Trigger = Restore | Drill | Other(name: string)

  datatype Run = Run(task: nat, trigger: Trigger, status: RunStatus)

  datatype Lane = OrdinaryRuns | RestoreRuns

  predicate InLane(trigger: Trigger, lane: Lane) {
    match lane
    case RestoreRuns => trigger == Restore
    case OrdinaryRuns => trigger != Restore && trigger != Drill
  }

  datatype Alert = Alert(node: nat, task: Option<nat>, run: Option<nat>, code: string, status: AlertStatus,
      createdAt: int)

  datatype Action = TaskFailure | VerificationFailure

  function ExpectedStatus(action: Action): RunStatus { if action == TaskFailure then Failed else Warning }

  function CodeOf(action: Action, task: nat): string {
    (if action == TaskFailure then "XR-EXEC-" else "XR-VRFY-") + AlertRows.Digits(task)
  }

  datatype World = World(tasks: set<nat>, runs: map<nat, Run>, alerts: map<nat, Alert>)

  predicate TaskRun(runs: map<nat, Run>, id: nat, task: nat, lane: Lane) {
    id in runs && runs[id].task == task && InLane(runs[id].trigger, lane)
  }

  predicate TerminalRun(runs: map<nat, Run>, id: nat, task: nat, lane: Lane) {
    TaskRun(runs, id, task, lane) && Terminal(runs[id].status)
  }

  /** id is the newest terminal run of the task in its lane. */
  ghost predicate Newest(runs: map<nat, Run>, id: nat, task: nat, lane: Lane) {
    && TerminalRun(runs, id, task, lane)
    && forall k: nat :: TerminalRun(runs, k, task, lane) ==> k <= id
  }

  predicate IsReceipt(a: Alert, task: nat, run: nat, code: string) {
    a.task == Some(task) && a.run == Some(run) && a.code == code
  }

  ghost predicate HasReceipt(alerts: map<nat, Alert>, task: nat, run: nat, code: string) {
    exists id :: id in alerts && IsReceipt(alerts[id], task, run, code)
  }

  predicate Unresolved(a: Alert) { a.status != Resolved }

  // ------------------------------------------------------------ transactions

  datatype Raise = Raise(task: nat, node: nat, run: nat, action: Action, lane: Lane)

  /** The run is the newest of its lane, ended as expected, and was not raised yet. */
  ghost predicate Admits(w: World, q: Raise) {
    && Newest(w.runs, q.run, q.task, q.lane) && w.runs[q.run].status == ExpectedStatus(q.action)
    && !HasReceipt(w.alerts, q.task, q.run, CodeOf(q.action, q.task))
  }

  predicate Recent(a: Alert, q: Raise, code: string, since: int) {
    a.node == q.node && a.code == code && a.createdAt >= since && a.task == Some(q.task) && a.run == Some(q.run)
      && Unresolved(a)
  }

  /** What a raise leaves behind: a replayed, superseded or contradicted failure
      leaves everything as it was. */
  ghost function Raised(w: World, q: Raise, id: nat, now: int): Result<World> {
    if q.task == 0 || q.run == 0 then Err(InvalidState)
    else if q.task !in w.tasks then Err(NotFound)
    else if HasReceipt(w.alerts, q.task, q.run, CodeOf(q.action, q.task)) then Ok(w)
    else if !Newest(w.runs, q.run, q.task, q.lane) || w.runs[q.run].status != ExpectedStatus(q.action) then Ok(w)
    else Ok(w.(alerts := w.alerts[id := Alert(q.node, Some(q.task), Some(q.run), CodeOf(q.action, q.task), Open, now)]))
  }

  predicate Covered(w: World, a: Alert, task: nat, run: nat, lane: Lane) {
    a.task == Some(task) && a.run.Some? && a.run.value <= run && TaskRun(w.runs, a.run.value, task, lane)
  }

  predicate Succeeded(w: World, task: nat, run: nat, lane: Lane) {
    task in w.tasks && TaskRun(w.runs, run, task, lane) && w.runs[run].status == Success
  }

  function ResolvedFor(w: World, task: nat, run: nat, lane: Lane): Result<World> {
    if task == 0 || run == 0 then Err(InvalidState)
    else if task !in w.tasks then Err(NotFound)
    else if !Succeeded(w, task, run, lane) then Ok(w)
    else Ok(w.(alerts := map id | id in w.alerts ::
      if Covered(w, w.alerts[id], task, run, lane) && Unresolved(w.alerts[id]) then w.alerts[id].(status := Resolved)
        else w.alerts[id]))
  }

  // -------------------------------------------------------------------- runs

  datatype Op =
    | Raising(raise: Raise, id: nat, now: int)
    | Resolving(task: nat, run: nat, lane: Lane)
    | Environment

  ghost function Effect(w: World, r: Result<World>): World { if r.Ok? then r.value else w }

  /** Everything else: tasks come and go, runs are created and finish but keep
      their row, their task, their trigger and a terminal status; alerts of other
      kinds appear, and any alert moves forward or is pruned. */
  ghost predicate Elsewhere(w: World, v: World) {
    && (forall r :: r in w.runs ==>
          && r in v.runs && v.runs[r].task == w.runs[r].task && v.runs[r].trigger == w.runs[r].trigger
          && (Terminal(w.runs[r].status) ==> v.runs[r].status == w.runs[r].status))
    && (forall id :: id in v.alerts ==>
          if id in w.alerts
          then v.alerts[id] == w.alerts[id].(status := v.alerts[id].status)
            && Forward(w.alerts[id].status, v.alerts[id].status)
          else v.alerts[id].run.None?)
  }

  ghost predicate Step(w: World, op: Op, v: World) {
    match op
    case Raising(q, id, now) => id !in w.alerts && v == Effect(w, Raised(w, q, id, now))
    case Resolving(task, run, lane) => v == Effect(w, ResolvedFor(w, task, run, lane))
    case Environment => Elsewhere(w, v)
  }

  /** A run-scoped alert belongs to a run of its task, once per code. */
  ghost predicate Inv(w: World) {
    && (forall id :: id in w.alerts && w.alerts[id].run.Some? ==>
          w.alerts[id].run.value in w.runs && w.alerts[id].task == Some(w.runs[w.alerts[id].run.value].task))
    && (forall i, j :: i in w.alerts && j in w.alerts && SameReceipt(w.alerts[i], w.alerts[j]) ==> i == j)
  }

  predicate SameReceipt(a: Alert, b: Alert) { a.run.Some? && a.task == b.task && a.run == b.run && a.code == b.code }

  ghost predicate StepAt(ws: seq<World>, ops: seq<Op>, i: nat)
    requires i < |ops| && |ws| == |ops| + 1
  {
    Step(ws[i], ops[i], ws[i + 1])
  }

  ghost predicate IsRun(ws: seq<World>, ops: seq<Op>) {
    && |ws| == |ops| + 1 && Inv(ws[0])
    && forall i: nat :: i < |ops| ==> StepAt(ws, ops, i)
  }

  /** Runs keep their rows, and a run that ended keeps its end. */
  lemma StepKeepsRuns(w: World, op: Op, v: World, r: nat)
    requires Step(w, op, v) && r in w.runs
    ensures r in v.runs && v.runs[r].task == w.runs[r].task && v.runs[r].trigger == w.runs[r].trigger
    ensures Terminal(w.runs[r].status) ==> v.runs[r].status == w.runs[r].status
  {
  }

  lemma StepKeepsAlerts(w: World, op: Op, v: World, id: nat)
    requires Step(w, op, v) && id in v.alerts
    ensures id in w.alerts ==>
      v.alerts[id] == w.alerts[id].(status := v.alerts[id].status) && Forward(w.alerts[id].status, v.alerts[id].status)
    ensures id !in w.alerts && v.alerts[id].run.Some? ==>
      op.Raising? && id == op.id && Admits(w, op.raise)
        && IsReceipt(v.alerts[id], op.raise.task, op.raise.run, CodeOf(op.raise.action, op.raise.task))
  {
  }

  lemma StepKeepsInv(w: World, op: Op, v: World)
    requires Inv(w) && Step(w, op, v)
    ensures Inv(v)
  {
    forall id | id in v.alerts && v.alerts[id].run.Some?
      ensures v.alerts[id].run.value in v.runs && v.alerts[id].task == Some(v.runs[v.alerts[id].run.value].task)
    {
      StepKeepsAlerts(w, op, v, id);
      StepKeepsRuns(w, op, v, v.alerts[id].run.value);
    }
    forall i, j | i in v.alerts && j in v.alerts && SameReceipt(v.alerts[i], v.alerts[j]) ensures i == j {
      StepKeepsAlerts(w, op, v, i);
      StepKeepsAlerts(w, op, v, j);
      if i in w.alerts && j in w.alerts {
        assert SameReceipt(w.alerts[i], w.alerts[j]);
      }
    }
  }

  lemma {:induction false} RunInv(ws: seq<World>, ops: seq<Op>, k: nat)
    requires IsRun(ws, ops) && k < |ws|
    ensures Inv(ws[k])
  {
    if k > 0 {
      RunInv(ws, ops, k - 1);
      assert StepAt(ws, ops, k - 1);
      StepKeepsInv(ws[k - 1], ops[k - 1], ws[k]);
    }
  }

  /** Whatever the order of raises, resolves and replays, a task, run and code
      have at most one alert. */
  lemma OneAlertPerReceipt(ws: seq<World>, ops: seq<Op>, k: nat, i: nat, j: nat, task: nat, run: nat, code: string)
    requires IsRun(ws, ops) && k < |ws| && i in ws[k].alerts && j in ws[k].alerts
    requires IsReceipt(ws[k].alerts[i], task, run, code) && IsReceipt(ws[k].alerts[j], task, run, code)
    ensures i == j
  {
    RunInv(ws, ops, k);
    assert SameReceipt(ws[k].alerts[i], ws[k].alerts[j]);
  }

  /** Run R of the lane succeeded, and nothing up to it is unresolved. */
  ghost predicate Settled(w: World, task: nat, run: nat, lane: Lane) {
    && TaskRun(w.runs, run, task, lane) && w.runs[run].status == Success
    && forall id :: id in w.alerts && Covered(w, w.alerts[id], task, run, lane) ==> !Unresolved(w.alerts[id])
  }

  lemma StepKeepsSettled(w: World, op: Op, v: World, task: nat, run: nat, lane: Lane)
    requires Inv(w) && Step(w, op, v) && Settled(w, task, run, lane)
    ensures Settled(v, task, run, lane)
  {
    StepKeepsRuns(w, op, v, run);
    forall id | id in v.alerts && Covered(v, v.alerts[id], task, run, lane) ensures !Unresolved(v.alerts[id]) {
      StepKeepsAlerts(w, op, v, id);
      var r := v.alerts[id].run.value;
      assert TerminalRun(w.runs, run, task, lane);
      if id in w.alerts {
        StepKeepsRuns(w, op, v, r);
        assert Covered(w, w.alerts[id], task, run, lane);
      } else {
        assert false;
      }
    }
  }

  /** Once the resolve for a successful run has committed, no alert of a run up to
      it in the same lane is ever open or acknowledged again: a failure that
      arrives late cannot reopen what a newer success closed. */
  lemma {:induction false} NeverOpenAgain(ws: seq<World>, ops: seq<Op>, i: nat, j: nat, id: nat, run: nat)
    requires IsRun(ws, ops) && i < j < |ws|
    requires ops[i].Resolving? && ops[i].task != 0 && ops[i].run != 0
      && Succeeded(ws[i], ops[i].task, ops[i].run, ops[i].lane)
    requires id in ws[j].alerts && ws[j].alerts[id].task == Some(ops[i].task) && ws[j].alerts[id].run == Some(run)
    requires run <= ops[i].run && TaskRun(ws[j].runs, run, ops[i].task, ops[i].lane)
    ensures ws[j].alerts[id].status == Resolved
  {
    SettledAfter(ws, ops, i, j);
    assert Covered(ws[j], ws[j].alerts[id], ops[i].task, ops[i].run, ops[i].lane);
  }

  lemma {:induction false} SettledAfter(ws: seq<World>, ops: seq<Op>, i: nat, j: nat)
    requires IsRun(ws, ops) && i < j < |ws|
    requires ops[i].Resolving? && ops[i].task != 0 && ops[i].run != 0
      && Succeeded(ws[i], ops[i].task, ops[i].run, ops[i].lane)
    ensures Settled(ws[j], ops[i].task, ops[i].run, ops[i].lane)
  {
    assert StepAt(ws, ops, j - 1);
    if j > i + 1 {
      SettledAfter(ws, ops, i, j - 1);
      RunInv(ws, ops, j - 1);
      StepKeepsSettled(ws[j - 1], ops[j - 1], ws[j], ops[i].task, ops[i].run, ops[i].lane);
    }
  }

  /** Codes tell actions and tasks apart. */
  lemma CodesInjective(a: Action, task: nat, b: Action, other: nat)
    requires CodeOf(a, task) == CodeOf(b, other)
    ensures a == b && task == other
  {
    assert CodeOf(a, task)[3] == CodeOf(b, other)[3];
    assert CodeOf(a, task)[8..] == AlertRows.Digits(task) && CodeOf(b, other)[8..] == AlertRows.Digits(other);
    AlertRows.DigitsReadBack(task);
    AlertRows.DigitsReadBack(other);
  }

  /** A raise of this very failure. */
  predicate Raises(op: Op, task: nat, run: nat, code: string) {
    op.Raising? && op.raise.task == task && op.raise.run == run && CodeOf(op.raise.action, task) == code
  }

  /** Every alert has a cause: it was there from the start, or some raise of this very
      failure opened it, at a moment when the run was the newest terminal one of its
      lane and had ended as the raise expects. */
  lemma {:induction false} AlertHasCause(ws: seq<World>, ops: seq<Op>, j: nat, task: nat, run: nat, code: string)
    returns (i: nat)
    requires IsRun(ws, ops) && j < |ws| && HasReceipt(ws[j].alerts, task, run, code)
    requires !HasReceipt(ws[0].alerts, task, run, code)
    ensures i < j && Raises(ops[i], task, run, code) && Admits(ws[i], ops[i].raise)
    ensures ws[i].runs[run].status == if ops[i].raise.action == TaskFailure then RunStatus.Failed else RunStatus.Warning
  {
    assert StepAt(ws, ops, j - 1);
    if HasReceipt(ws[j - 1].alerts, task, run, code) {
      i := AlertHasCause(ws, ops, j - 1, task, run, code);
    } else {
      var id :| id in ws[j].alerts && IsReceipt(ws[j].alerts[id], task, run, code);
      StepKeepsAlerts(ws[j - 1], ops[j - 1], ws[j], id);
      i := j - 1;
    }
  }

  /** No failure is swallowed: the first raise of a failure whose run is the newest
      terminal one of its lane, ended as expected, leaves exactly one alert for it,
      and that one is open, whatever happened before. */
  lemma FirstRaiseOpens(ws: seq<World>, ops: seq<Op>, i: nat, k: nat)
    requires IsRun(ws, ops) && i < |ops| && ops[i].Raising?
    requires ops[i].raise.task != 0 && ops[i].raise.run != 0 && ops[i].raise.task in ws[i].tasks
    requires Newest(ws[i].runs, ops[i].raise.run, ops[i].raise.task, ops[i].raise.lane)
    requires ws[i].runs[ops[i].raise.run].status ==
      if ops[i].raise.action == TaskFailure then RunStatus.Failed else RunStatus.Warning
    requires !HasReceipt(ws[0].alerts, ops[i].raise.task, ops[i].raise.run,
      CodeOf(ops[i].raise.action, ops[i].raise.task))
    requires forall h: nat :: h < i ==>
      !Raises(ops[h], ops[i].raise.task, ops[i].raise.run, CodeOf(ops[i].raise.action, ops[i].raise.task))
    ensures var q, after := ops[i].raise, ws[i + 1].alerts;
      && (k in after && IsReceipt(after[k], q.task, q.run, CodeOf(q.action, q.task)) <==> k == ops[i].id)
      && ops[i].id in after && after[ops[i].id].status == Open
  {
    var q := ops[i].raise;
    var code := CodeOf(q.action, q.task);
    assert StepAt(ws, ops, i);
    if HasReceipt(ws[i].alerts, q.task, q.run, code) {
      var h := AlertHasCause(ws, ops, i, q.task, q.run, code);
      assert false;
    }
    var after := ws[i + 1].alerts;
    assert after == ws[i].alerts[ops[i].id := Alert(q.node, Some(q.task), Some(q.run), code, Open, ops[i].now)];
    assert k in ws[i].alerts ==> !IsReceipt(ws[i].alerts[k], q.task, q.run, code);
  }

  /** A resolve for a successful run closes its own alerts and no others: alerts of later
      runs, of the other lane, of other tasks or without a run stay exactly as they
      were, and so do runs and tasks. Without such a success nothing changes. */
  lemma ResolveTouchesOnlyEarlier(w: World, task: nat, run: nat, lane: Lane, v: World, id: nat)
    requires Step(w, Resolving(task, run, lane), v) && id in w.alerts
    ensures v.runs == w.runs && v.tasks == w.tasks && v.alerts.Keys == w.alerts.Keys
    ensures v.alerts[id] == w.alerts[id].(status := v.alerts[id].status)
    ensures v.alerts[id].status != w.alerts[id].status ==>
      && task in w.tasks && run in w.runs && w.runs[run].status == Success
      && w.alerts[id].task == Some(task) && w.alerts[id].run.Some? && w.alerts[id].run.value <= run
      && w.alerts[id].run.value in w.runs && w.runs[w.alerts[id].run.value].task == task
      && (InLane(w.runs[w.alerts[id].run.value].trigger, lane) && InLane(w.runs[run].trigger, lane))
      && v.alerts[id].status == Resolved
  {
  }

  /** Exactly which requests are refused, and with which error. */
  lemma RefusalsIff(w: World, q: Raise, id: nat, now: int, task: nat, run: nat, lane: Lane)
    ensures Raised(w, q, id, now).Err? <==> q.task == 0 || q.run == 0 || q.task !in w.tasks
    ensures Raised(w, q, id, now) == Err(NotFound) <==> q.task != 0 && q.run != 0 && q.task !in w.tasks
    ensures ResolvedFor(w, task, run, lane).Err? <==> task == 0 || run == 0 || task !in w.tasks
    ensures ResolvedFor(w, task, run, lane) == Err(NotFound) <==> task != 0 && run != 0 && task !in w.tasks
  {
  }

  /** The two lanes are disjoint, and drills are in neither. */
  lemma LanesDisjoint(trigger: Trigger)
    ensures !(InLane(trigger, OrdinaryRuns) && InLane(trigger, RestoreRuns))
    ensures (trigger == Drill) <==> !InLane(trigger, OrdinaryRuns) && !InLane(trigger, RestoreRuns)
  {
  }

  // ----------------------------------------------------------------- service

  class TaskAlertService {
    var world: World

    constructor (world: World)
      ensures this.world == world
    {
      this.world := world;
    }

    /** ORDER BY id DESC LIMIT 1 among the terminal runs of the lane. */
    method LatestTerminalRun(task: nat, lane: Lane) returns (latest: Option<nat>)
      ensures latest.Some? ==> Newest(world.runs, latest.value, task, lane)
      ensures latest.None? ==> forall k: nat :: !TerminalRun(world.runs, k, task, lane)
    {
      latest := None;
      var pending := world.runs.Keys;
      while pending != {}
        invariant pending <= world.runs.Keys
        invariant latest.Some? ==> TerminalRun(world.runs, latest.value, task, lane)
        invariant forall k: nat :: TerminalRun(world.runs, k, task, lane) && k !in pending ==>
          latest.Some? && k <= latest.value
        decreases pending
      {
        var id :| id in pending;
        if TerminalRun(world.runs, id, task, lane) && (latest.None? || latest.value < id) {
          latest := Some(id);
        }
        pending := pending - {id};
      }
    }

    /** The notification window is asked after the permanent receipt, so it never
        holds a raise back: the window does not appear in the specification. */
    method RaiseFailureForCurrentRun(q: Raise, window: nat, id: nat, now: int) returns (r: Result<bool>)
      requires id !in world.alerts
      modifies this
      ensures match Raised(old(world), q, id, now)
        case Ok(after) => world == after && r == Ok(id in after.alerts)
        case Err(e) => world == old(world) && r == Err(e)
    {
      if q.task == 0 || q.run == 0 { return Err(InvalidState); }
      if q.task !in world.tasks { return Err(NotFound); }
      var code := CodeOf(q.action, q.task);
      var existing := set k | k in world.alerts && IsReceipt(world.alerts[k], q.task, q.run, code);
      if |existing| > 0 {
        assert exists k :: k in existing;
        return Ok(false);
      }
      assert forall k :: k in world.alerts && IsReceipt(world.alerts[k], q.task, q.run, code) ==> k in existing;
      var latest := LatestTerminalRun(q.task, q.lane);
      if latest != Some(q.run) || world.runs[q.run].status != ExpectedStatus(q.action) {
        return Ok(false);
      }
      if window > 0 {
        var recent := set k | k in world.alerts && Recent(world.alerts[k], q, code, now - window);
        if |recent| > 0 { return Ok(false); }
      }
      world := world.(alerts := world.alerts[id := Alert(q.node, Some(q.task), Some(q.run), code, Open, now)]);
      return Ok(true);
    }

    method ResolveTaskAlertsForRun(task: nat, run: nat, lane: Lane) returns (r: Result<()>)
      modifies this
      ensures match ResolvedFor(old(world), task, run, lane)
        case Ok(after) => world == after && r == Ok(())
        case Err(e) => world == old(world) && r == Err(e)
    {
      if task == 0 || run == 0 { return Err(InvalidState); }
      if task !in world.tasks { return Err(NotFound); }
      if run !in world.runs || world.runs[run].task != task || world.runs[run].status != Success
        || !InLane(world.runs[run].trigger, lane) {
        return Ok(());
      }
      var due := set id | id in world.alerts && Covered(world, world.alerts[id], task, run, lane)
        && Unresolved(world.alerts[id]);
      world := world.(alerts := map id | id in world.alerts ::
        if id in due then world.alerts[id].(status := Resolved) else world.alerts[id]);
      return Ok(());
    }
  }
}
