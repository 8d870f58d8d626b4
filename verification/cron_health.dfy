/** The cron-backup health cursor: a high-water mark and a source fence over a
    stream of observations, with one alert per fault cycle. */
module CronHealth {
  import opened Basics
  import opened AlertStates

  datatype JobStatus =
    | StateUnavailable | StateInvalid | ClockAnomaly | JobFailed | Interrupted | OverdueRunning | Stale
    | NotInitialized | NeverRun | Running | Success | NotConfigured | InvalidConfiguration

  /** initializedAt 0 is the zero time. */
  datatype Observation = Observation(
    status: JobStatus, present: bool, valid: bool, sourceId: string, revision: nat, initializedAt: int,
      lastSuccess: Option<int>)

  datatype Cursor = Cursor(sourceId: string, highest: nat, enrolledAt: int, faultActive: bool, alertId: Option<nat>)

  /** mine: the alert carries the error code of this source. */
  datatype Alert = Alert(mine: bool, status: AlertStatus)

  datatype World = World(cursor: Option<Cursor>, alerts: map<nat, Alert>)

  predicate Usable(o: Observation) { o.present && o.valid }

  /** A usable state of another source, or one older than the high-water mark. */
  predicate Fenced(c: Cursor, o: Observation) {
    Usable(o) && ((c.sourceId != "" && o.sourceId != c.sourceId) || c.highest > o.revision)
  }

  /** The source id is adopted once and the mark only rises. */
  function Advanced(c: Cursor, o: Observation): Cursor {
    if !Usable(o) || Fenced(c, o) then c
    else c.(sourceId := if c.sourceId == "" then o.sourceId else c.sourceId,
            highest := if o.revision > c.highest then o.revision else c.highest)
  }

  predicate WithinInitialGrace(c: Cursor, o: Observation, maxAge: int, now: int) {
    var anchor := if o.initializedAt != 0 && (c.enrolledAt == 0 || o.initializedAt < c.enrolledAt)
      then o.initializedAt else c.enrolledAt;
    anchor != 0 && now <= anchor + maxAge
  }

  /** c is the cursor after it advanced. */
  predicate Fault(c: Cursor, o: Observation, fenced: bool, maxAge: int, now: int) {
    fenced ||
    match o.status
    case NotInitialized => c.sourceId != "" || c.highest > 0 || !WithinInitialGrace(c, o, maxAge, now)
    case NeverRun => !WithinInitialGrace(c, o, maxAge, now)
    case Running => false
    case Success => false
    case _ => true
  }

  predicate HealthySuccess(o: Observation) { o.status == Success && o.lastSuccess.Some? && Usable(o) }

  function Closed(alerts: map<nat, Alert>, id: nat): map<nat, Alert>
    requires id in alerts
  {
    if alerts[id].status == Resolved then alerts else alerts[id := alerts[id].(status := Resolved)]
  }

  /** fresh alert id: id. */
  function Reconciled(w: World, o: Observation, maxAge: int, now: int, id: nat): Result<World> {
    if w.cursor.None? then Err(NotFound)
    else if o.status == StateUnavailable then Ok(w)
    else
      var c := Advanced(w.cursor.value, o);
      if Fault(c, o, Fenced(w.cursor.value, o), maxAge, now) then
        if !c.faultActive then Ok(World(Some(c.(faultActive := true, alertId := Some(id))),
          w.alerts[id := Alert(true, Open)]))
        else if c.alertId.None? then Err(InvalidState)
        else Ok(w.(cursor := Some(c)))
      else if HealthySuccess(o) && c.faultActive then
        if c.alertId.None? then Err(InvalidState)
        else if c.alertId.value !in w.alerts then Err(NotFound)
        else Ok(World(Some(c.(faultActive := false)), Closed(w.alerts, c.alertId.value)))
      else Ok(w.(cursor := Some(c)))
  }

  function Enrolled(w: World, now: int): World {
    if w.cursor.Some? then w else w.(cursor := Some(Cursor("", 0, now, false, None)))
  }

  // -------------------------------------------------------------------- runs

  datatype Op =
    | Enroll(now: int)
    | Observe(observation: Observation, maxAge: int, now: int, id: nat)
    | Environment

  /** The alert row that the cursor names. */
  predicate Named(w: World, id: nat) { w.cursor.Some? && w.cursor.value.alertId == Some(id) }

  /** Alerts of other kinds appear, and any alert is acknowledged or resolved. Any
      but the one the cursor names may be pruned: the cursor's reference to it
      restricts its deletion. */
  ghost predicate Elsewhere(w: World, v: World) {
    && v.cursor == w.cursor
    && (forall id: nat :: Named(w, id) && id in w.alerts ==> id in v.alerts)
    && (forall id :: id in v.alerts ==>
          if id in w.alerts
          then v.alerts[id].mine == w.alerts[id].mine && Forward(w.alerts[id].status, v.alerts[id].status)
          else !v.alerts[id].mine)
  }

  ghost predicate Step(w: World, op: Op, v: World) {
    match op
    case Enroll(now) => v == Enrolled(w, now)
    case Observe(o, maxAge, now, id) => id !in w.alerts
      && v == (var r := Reconciled(w, o, maxAge, now, id); if r.Ok? then r.value else w)
    case Environment => Elsewhere(w, v)
  }

  ghost predicate StepAt(ws: seq<World>, ops: seq<Op>, i: nat)
    requires i < |ops| && |ws| == |ops| + 1
  {
    Step(ws[i], ops[i], ws[i + 1])
  }

  ghost predicate IsRun(ws: seq<World>, ops: seq<Op>) {
    && |ws| == |ops| + 1 && ws[0].cursor.None? && (forall id :: id in ws[0].alerts ==> !ws[0].alerts[id].mine)
    && forall i: nat :: i < |ops| ==> StepAt(ws, ops, i)
  }

  predicate Unresolved(w: World, id: nat) { id in w.alerts && w.alerts[id].mine && w.alerts[id].status != Resolved }

  predicate Active(w: World) { w.cursor.Some? && w.cursor.value.faultActive }

  /** An active fault names its alert, the named alert exists and is the source's,
      and no other alert of the source is open. */
  ghost predicate Inv(w: World) {
    && (Active(w) ==> w.cursor.value.alertId.Some?)
    && (forall id: nat :: Named(w, id) ==> id in w.alerts && w.alerts[id].mine)
    && (forall id: nat :: Unresolved(w, id) ==> Active(w) && w.cursor.value.alertId == Some(id))
  }

  lemma StepKeepsInv(w: World, op: Op, v: World)
    requires Inv(w) && Step(w, op, v)
    ensures Inv(v)
  {
    forall id: nat | Unresolved(v, id) ensures Active(v) && v.cursor.value.alertId == Some(id) {
      if id in w.alerts {
        assert Unresolved(w, id);
      }
    }
  }

  lemma {:induction false} RunInv(ws: seq<World>, ops: seq<Op>, k: nat)
    requires IsRun(ws, ops) && k < |ws|
    ensures Inv(ws[k])
  {
    if k > 0 {
      RunInv(ws, ops, k - 1);
      assert StepAt(ws, ops, k - 1);
      StepKeepsInv(ws[k - 1], ops[k - 1], ws[k]);
    }
  }

  /** At most one alert of the source is open or acknowledged, and only while the
      fault it reports is active. */
  lemma OneOpenAlert(ws: seq<World>, ops: seq<Op>, k: nat, i: nat, j: nat)
    requires IsRun(ws, ops) && k < |ws| && Unresolved(ws[k], i) && Unresolved(ws[k], j)
    ensures i == j && Active(ws[k])
  {
    RunInv(ws, ops, k);
  }

  /** Once set the source id stays, and the high-water mark never falls. */
  lemma {:induction false} CursorOnlyAdvances(ws: seq<World>, ops: seq<Op>, i: nat, j: nat)
    requires IsRun(ws, ops) && i <= j < |ws| && ws[i].cursor.Some?
    ensures ws[j].cursor.Some?
    ensures ws[i].cursor.value.sourceId != "" ==> ws[j].cursor.value.sourceId == ws[i].cursor.value.sourceId
    ensures ws[i].cursor.value.highest <= ws[j].cursor.value.highest
    ensures ws[j].cursor.value.enrolledAt == ws[i].cursor.value.enrolledAt
  {
    if i < j {
      CursorOnlyAdvances(ws, ops, i, j - 1);
      assert StepAt(ws, ops, j - 1);
    }
  }

  /** In every run, once the source is enrolled every observation commits: the error
      branches for a fault without an alert or without its row are never taken. */
  lemma ObservationsCommit(ws: seq<World>, ops: seq<Op>, k: nat, o: Observation, maxAge: int, now: int, id: nat)
    requires IsRun(ws, ops) && k < |ws| && ws[k].cursor.Some?
    ensures Reconciled(ws[k], o, maxAge, now, id).Ok?
  {
    RunInv(ws, ops, k);
    if Active(ws[k]) {
      assert Named(ws[k], ws[k].cursor.value.alertId.value);
    }
  }

  predicate Mine(w: World, id: nat) { id in w.alerts && w.alerts[id].mine }

  /** The alerts of the source that a step creates: none, or the one that the fault
      starting in this step names. */
  lemma StepCreates(w: World, op: Op, v: World, id: nat)
    requires Step(w, op, v)
    ensures Mine(v, id) && !Mine(w, id) ==>
      && op.Observe? && id == op.id
      && !Active(w) && Active(v) && v.cursor.value.alertId == Some(id) && v.alerts[id].status == Open
    ensures !Active(w) && Active(v) ==>
      v.cursor.value.alertId.Some? && Mine(v, v.cursor.value.alertId.value) && !Mine(w, v.cursor.value.alertId.value)
  {
  }

  /** A fault cycle has exactly one alert: starting creates it, and as long as the
      fault stays active no other alert of the source appears and the cursor keeps
      naming the same one. */
  lemma {:induction false} OneAlertPerCycle(ws: seq<World>, ops: seq<Op>, i: nat, j: nat, id: nat)
    requires IsRun(ws, ops) && i <= j < |ws| && forall k :: i <= k <= j ==> Active(ws[k])
    ensures Active(ws[i]) && Active(ws[j]) && ws[j].cursor.value.alertId == ws[i].cursor.value.alertId
    ensures Mine(ws[j], id) ==> Mine(ws[i], id)
    ensures i > 0 && !Active(ws[i - 1]) && Mine(ws[j], id) && !Mine(ws[i - 1], id) ==>
      ws[i].cursor.value.alertId == Some(id)
  {
    if i > 0 {
      assert StepAt(ws, ops, i - 1);
      StepCreates(ws[i - 1], ops[i - 1], ws[i], id);
    }
    if i < j {
      OneAlertPerCycle(ws, ops, i, j - 1, id);
      assert StepAt(ws, ops, j - 1);
      assert Active(ws[j - 1]);
      StepCreates(ws[j - 1], ops[j - 1], ws[j], id);
    }
  }

  /** A step ends an active fault if and only if it observes a valid success of a
      source the fence admits, at or above the mark; the alert is then resolved. */
  lemma ClearsExactlyWhen(w: World, op: Op, v: World)
    requires Inv(w) && Step(w, op, v) && Active(w)
    ensures !Active(v) <==>
      && op.Observe? && op.observation.status == Success && op.observation.lastSuccess.Some?
      && op.observation.present && op.observation.valid
      && (w.cursor.value.sourceId == "" || op.observation.sourceId == w.cursor.value.sourceId)
      && op.observation.revision >= w.cursor.value.highest
    ensures !Active(v) ==>
      && v.cursor.value.highest == op.observation.revision && v.cursor.value.sourceId == op.observation.sourceId
      && forall id: nat :: !Unresolved(v, id)
  {
    StepKeepsInv(w, op, v);
    assert Named(w, w.cursor.value.alertId.value);
  }

  /** Over a whole run: wherever a fault is active at one moment and not at a later
      one, some step between observed a valid success of the source, not below any
      revision the cursor had recorded before it. */
  lemma {:induction false} RecoveryNeedsSuccess(ws: seq<World>, ops: seq<Op>, i: nat, j: nat) returns (k: nat)
    requires IsRun(ws, ops) && i < j < |ws| && Active(ws[i]) && !Active(ws[j])
    ensures i <= k < j && ops[k].Observe? && ops[k].observation.status == Success
      && ops[k].observation.lastSuccess.Some?
    ensures ops[k].observation.present && ops[k].observation.valid
    ensures ops[k].observation.revision >= ws[i].cursor.value.highest
    ensures ws[i].cursor.value.sourceId != "" ==> ops[k].observation.sourceId == ws[i].cursor.value.sourceId
  {
    assert StepAt(ws, ops, j - 1);
    if Active(ws[j - 1]) {
      k := j - 1;
      RunInv(ws, ops, k);
      CursorOnlyAdvances(ws, ops, i, k);
      ClearsExactlyWhen(ws[k], ops[k], ws[j]);
    } else {
      k := RecoveryNeedsSuccess(ws, ops, i, j - 1);
    }
  }

  // --------------------------------------------------------------- detection

  /** The source is watched and this step is an observation that could be made. */
  predicate Sees(w: World, op: Op) {
    w.cursor.Some? && op.Observe? && op.observation.status != StateUnavailable
  }

  /** One of the two instants that are known lies more than maxAge back, or neither is
      known. */
  predicate GraceOver(c: Cursor, o: Observation, maxAge: int, now: int) {
    || (c.enrolledAt == 0 && o.initializedAt == 0)
    || (c.enrolledAt != 0 && now > c.enrolledAt + maxAge)
    || (o.initializedAt != 0 && now > o.initializedAt + maxAge)
  }

  /** An observation that reports trouble leaves the fault active and its alert named;
      a fault that was not active before has a new, open alert. A state of another
      source, or older than the mark, is trouble whatever it reports. */
  lemma TroubleIsReported(w: World, op: Op, v: World)
    requires Inv(w) && Step(w, op, v) && Sees(w, op)
    requires op.observation.status in {JobFailed, Interrupted, OverdueRunning, Stale, ClockAnomaly, StateInvalid,
                                       NotConfigured, InvalidConfiguration}
      || (op.observation.present && op.observation.valid
          && (op.observation.revision < w.cursor.value.highest
              || (w.cursor.value.sourceId != "" && op.observation.sourceId != w.cursor.value.sourceId)))
    ensures Active(v) && v.cursor.value.alertId.Some?
    ensures Active(w) ==> v.cursor.value.alertId == w.cursor.value.alertId && v.alerts == w.alerts
    ensures !Active(w) ==>
      && v.cursor.value.alertId == Some(op.id) && op.id !in w.alerts
      && v.alerts == w.alerts[op.id := Alert(true, Open)]
  {
  }

  /** An observation that could not be made changes nothing; any other one of an
      admitted, usable state moves the cursor to its source and at least to its
      revision, and an unusable or fenced one moves neither. */
  lemma ObservationsAdvance(w: World, op: Op, v: World)
    requires Inv(w) && Step(w, op, v) && w.cursor.Some? && op.Observe?
    ensures op.observation.status == StateUnavailable ==> v == w
    ensures var o, a, b := op.observation, w.cursor.value, v.cursor.value;
      var admitted := o.present && o.valid && o.revision >= a.highest && (a.sourceId == "" || o.sourceId == a.sourceId);
      v.cursor.Some? &&
      (if Sees(w, op) && admitted then b.sourceId == o.sourceId && b.highest == o.revision
       else b.sourceId == a.sourceId && b.highest == a.highest)
  {
  }

  /** A running or successful job of an admitted source never starts a fault. */
  lemma HealthStartsNothing(w: World, op: Op, v: World)
    requires Inv(w) && Step(w, op, v) && Sees(w, op) && !Active(w)
    requires op.observation.status == Running || op.observation.status == Success
    requires op.observation.present && op.observation.valid ==>
      && op.observation.revision >= w.cursor.value.highest
      && (w.cursor.value.sourceId == "" || op.observation.sourceId == w.cursor.value.sourceId)
    ensures !Active(v) && v.alerts == w.alerts
  {
  }

  /** A job that never ran starts a fault exactly when the grace since the earlier of
      enrolment and initialisation is over; a state that is not initialised also as
      soon as a source id or a revision is known. */
  lemma SilenceIsReportedIff(w: World, op: Op, v: World)
    requires Inv(w) && Step(w, op, v) && Sees(w, op) && !Active(w)
    requires op.observation.present && op.observation.valid ==>
      && op.observation.revision >= w.cursor.value.highest
      && (w.cursor.value.sourceId == "" || op.observation.sourceId == w.cursor.value.sourceId)
    ensures op.observation.status == NeverRun ==>
      (Active(v) <==> GraceOver(w.cursor.value, op.observation, op.maxAge, op.now))
    ensures op.observation.status == NotInitialized ==>
      (Active(v) <==> GraceOver(w.cursor.value, op.observation, op.maxAge, op.now)
                      || v.cursor.value.sourceId != "" || v.cursor.value.highest > 0)
  {
  }

  /** Over a whole run: from the first observation after the grace that neither is a
      running nor a successful job, the fault is active until a success is observed. */
  lemma {:induction false} SilentSourceIsReported(ws: seq<World>, ops: seq<Op>, i: nat, j: nat)
    requires IsRun(ws, ops) && i < j < |ws| && Sees(ws[i], ops[i])
    requires ops[i].observation.status != Running && ops[i].observation.status != Success
    requires GraceOver(ws[i].cursor.value, ops[i].observation, ops[i].maxAge, ops[i].now)
    requires forall k :: i < k < j ==> !(ops[k].Observe? && ops[k].observation.status == Success)
    ensures Active(ws[j])
  {
    RunInv(ws, ops, j - 1);
    assert StepAt(ws, ops, j - 1);
    if j == i + 1 {
      FirstReport(ws[i], ops[i], ws[j]);
    } else {
      SilentSourceIsReported(ws, ops, i, j - 1);
      ClearsExactlyWhen(ws[j - 1], ops[j - 1], ws[j]);
    }
  }

  lemma FirstReport(w: World, op: Op, v: World)
    requires Inv(w) && Step(w, op, v) && Sees(w, op)
    requires op.observation.status != Running && op.observation.status != Success
    requires GraceOver(w.cursor.value, op.observation, op.maxAge, op.now)
    ensures Active(v)
  {
    if Active(w) {
      ClearsExactlyWhen(w, op, v);
    }
  }

  // ----------------------------------------------------------------- worker

  class CronBackupWorker {
    const maxAge: int
    var world: World

    constructor (maxAge: int, world: World)
      ensures this.maxAge == maxAge && this.world == world
    {
      this.maxAge := maxAge;
      this.world := world;
    }

    method EnrollSource(now: int)
      modifies this
      ensures world == Enrolled(old(world), now)
    {
      if world.cursor.None? {
        world := world.(cursor := Some(Cursor("", 0, now, false, None)));
      }
    }

    /** Resolve the alert of the cycle unless somebody else already did. */
    method ResolveAlert(id: nat) returns (r: Result<()>)
      modifies this
      ensures id in old(world).alerts ==> r == Ok(()) && world == old(world).(alerts := Closed(old(world).alerts, id))
      ensures id !in old(world).alerts ==> r == Err(NotFound) && world == old(world)
    {
      if id !in world.alerts { return Err(NotFound); }
      var alert := world.alerts[id];
      if alert.status != Open && alert.status != Acked { return Ok(()); }
      world := world.(alerts := world.alerts[id := alert.(status := Resolved)]);
      return Ok(());
    }

    method Reconcile(o: Observation, now: int, id: nat) returns (r: Result<()>)
      requires id !in world.alerts
      modifies this
      ensures match Reconciled(old(world), o, maxAge, now, id)
        case Ok(after) => world == after && r == Ok(())
        case Err(e) => world == old(world) && r == Err(e)
    {
      if world.cursor.None? { return Err(NotFound); }
      var cursor := world.cursor.value;
      if o.status == StateUnavailable { return Ok(()); }
      var usable := o.present && o.valid;
      var fenced := false;
      if usable {
        if cursor.sourceId != "" && o.sourceId != cursor.sourceId { fenced := true; }
        if cursor.highest > o.revision { fenced := true; }
      }
      var changed := false;
      if usable && !fenced {
        if cursor.sourceId == "" { cursor := cursor.(sourceId := o.sourceId); changed := true; }
        if o.revision > cursor.highest { cursor := cursor.(highest := o.revision); changed := true; }
      }
      assert cursor == Advanced(world.cursor.value, o);
      if Fault(cursor, o, fenced, maxAge, now) {
        if !cursor.faultActive {
          world := world.(alerts := world.alerts[id := Alert(true, Open)]);
          cursor := cursor.(faultActive := true, alertId := Some(id));
          changed := true;
        } else if cursor.alertId.None? {
          return Err(InvalidState);
        }
      } else if HealthySuccess(o) && cursor.faultActive {
        if cursor.alertId.None? { return Err(InvalidState); }
        r := ResolveAlert(cursor.alertId.value);
        if r.Err? { return; }
        cursor := cursor.(faultActive := false);
        changed := true;
      }
      if changed { world := world.(cursor := Some(cursor)); }
      return Ok(());
    }
  }
}
