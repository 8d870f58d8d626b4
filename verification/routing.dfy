/** The durable routing decision of an alert and the intents committed with it. */
module AlertRouting {
  import opened Basics
  import opened AlertRows
  import opened DeliveryProtocol
  import opened DeliveryRepair

  /** The delivery table with its next unused id. */
  datatype Deliveries = Deliveries(rows: Table, next: nat)

  ghost predicate KeyTaken(t: Table, key: string) { exists id :: id in t && t[id].key == key }

  /** The oldest unkeyed row of the lane that is not marked unknown. */
  ghost predicate IsOldestKnown(t: Table, lane: Lane, id: nat) {
    Known(t, lane, id) && forall k: nat :: Known(t, lane, k) ==> id <= k
  }

  function NewIntent(id: nat, lane: Lane, key: string): Row {
    Row(id, lane.alert, lane.channel, key, Deliver, Pending, None, None, 0, None, None)
  }

  /** Find the intent with this key, adopt a legacy row for it, or create it. */
  ghost function Ensured(d: Deliveries, lane: Lane, key: string, adoptLegacy: bool,
      facts: AlertFacts): Result<Deliveries> {
    if KeyTaken(d.rows, key) then Ok(d)
    else if adoptLegacy && !Repairable(facts) then Err(NotFound)
    else if adoptLegacy && exists id :: IsOldestKnown(d.rows, lane, id) then
      var id :| IsOldestKnown(d.rows, lane, id);
      Ok(d.(rows := d.rows[id := Adopted(d.rows[id], key)]))
    else Ok(Deliveries(d.rows[d.next := NewIntent(d.next, lane, key)], d.next + 1))
  }

  /** The row that ensuring an intent answers with. */
  ghost predicate Answers(d: Deliveries, lane: Lane, key: string, adoptLegacy: bool, id: nat) {
    if KeyTaken(d.rows, key) then id in d.rows && d.rows[id].key == key
    else if adoptLegacy && exists x :: IsOldestKnown(d.rows, lane, x) then IsOldestKnown(d.rows, lane, id)
    else id == d.next
  }

  ghost function EnsuredAll(d: Deliveries, alert: nat, channels: seq<nat>, facts: AlertFacts): Result<Deliveries> {
    if channels == [] then Ok(d)
    else
      match EnsuredAll(d, alert, channels[..|channels| - 1], facts)
      case Err(e) => Err(e)
      case Ok(before) =>
        var channel := channels[|channels| - 1];
        Ensured(before, Lane(alert, channel), DirectKey(alert, channel), true, facts)
  }

  /** The boundary between routing and network: intents and decision, or neither. */
  ghost function Committed(d: Deliveries, alert: nat, facts: AlertFacts, decision: Decision,
      channels: seq<nat>): Result<(Deliveries, Decision)> {
    var intents := if decision == Direct && CanBeDirect(facts.decision) then EnsuredAll(d, alert, channels, facts)
      else Ok(d);
    match intents
    case Err(e) => Err(e)
    case Ok(after) =>
      Ok((after, if facts.decision == Undecided || facts.decision == PendingDecision then decision else facts.decision))
  }

  // -------------------------------------------------------------------- runs

  datatype Op =
    | Commit(decision: Decision, channels: seq<nat>)
    | Escalate(event: nat, channel: nat)
    | Progress(rows: Table)
    | Elsewhere(after: Deliveries)

  /** One alert among the deliveries of all alerts. */
  datatype Moment = Moment(facts: AlertFacts, deliveries: Deliveries)

  predicate OwnKey(row: Row, event: Option<nat>) {
    row.key == if event.None? then DirectKey(row.alert, row.channel)
      else EscalationKey(row.alert, event.value, row.channel)
  }

  /** Keys are unique, a key names its own alert and channel, and ids stay below
      the next one to be issued. */
  ghost predicate WellKeyed(d: Deliveries) {
    && (forall id :: id in d.rows ==> d.rows[id].id == id < d.next)
    && (forall id :: id in d.rows && !IsBlank(d.rows[id].key) ==> exists event :: OwnKey(d.rows[id], event))
    && (forall i, j :: i in d.rows && j in d.rows && !IsBlank(d.rows[i].key) && d.rows[i].key == d.rows[j].key ==>
      i == j)
  }

  /** Claims, results and repairs move a row along without touching its identity. */
  ghost predicate SameIdentities(t: Table, u: Table) {
    && t.Keys == u.Keys
    && forall id :: id in t ==> u[id].id == t[id].id && LaneOf(u[id]) == LaneOf(t[id]) && u[id].key == t[id].key
  }

  ghost predicate OnlyOtherAlerts(alert: nat, t: Table, u: Table) {
    forall id :: (id in t && t[id].alert == alert) || (id in u && u[id].alert == alert) ==>
      id in t && id in u && t[id] == u[id]
  }

  ghost predicate Step(alert: nat, m: Moment, op: Op, n: Moment) {
    match op
    case Commit(decision, channels) =>
      && decision != PendingDecision && decision != Undecided
      && n.facts.escalationHistory == m.facts.escalationHistory
      && (match Committed(m.deliveries, alert, m.facts, decision, channels)
          case Ok(after) => n.deliveries == after.0 && n.facts.decision == after.1
          case Err(_) => n == m)
    case Escalate(event, channel) =>
      && n.facts == m.facts.(escalationHistory := true)
      && (match Ensured(m.deliveries, Lane(alert, channel), EscalationKey(alert, event, channel), false, m.facts)
          case Ok(after) => n.deliveries == after
          case Err(_) => n.deliveries == m.deliveries)
    case Progress(rows) =>
      SameIdentities(m.deliveries.rows, rows) && n == m.(deliveries := m.deliveries.(rows := rows))
    case Elsewhere(after) =>
      OnlyOtherAlerts(alert, m.deliveries.rows, after.rows) && WellKeyed(after) && n == m.(deliveries := after)
  }

  ghost predicate StepAt(alert: nat, ms: seq<Moment>, ops: seq<Op>, i: nat)
    requires i < |ops| && |ms| == |ops| + 1
  {
    Step(alert, ms[i], ops[i], ms[i + 1])
  }

  /** An alert born pending: no delivery row of its own yet. */
  ghost predicate Born(alert: nat, m: Moment) {
    && m.facts == AlertFacts(PendingDecision, false)
    && WellKeyed(m.deliveries)
    && forall id :: id in m.deliveries.rows ==> m.deliveries.rows[id].alert != alert
  }

  ghost predicate IsRun(alert: nat, ms: seq<Moment>, ops: seq<Op>) {
    && |ms| == |ops| + 1
    && Born(alert, ms[0])
    && forall i: nat :: i < |ops| ==> StepAt(alert, ms, ops, i)
  }

  // -------------------------------------------------------------- invariants

  /** Every row of the alert is keyed, and a direct key needs a direct decision. */
  ghost predicate DirectOnlyIfDecided(alert: nat, d: Deliveries, decision: Decision) {
    forall id :: id in d.rows && d.rows[id].alert == alert ==>
      && !IsBlank(d.rows[id].key)
      && (d.rows[id].key == DirectKey(alert, d.rows[id].channel) ==> decision == Direct)
  }

  ghost predicate Inv(alert: nat, m: Moment) {
    && WellKeyed(m.deliveries)
    && DirectOnlyIfDecided(alert, m.deliveries, m.facts.decision)
    && m.facts.decision != Undecided
  }

  /** A keyed row is found by no other alert, channel or event. */
  lemma OwnKeyLane(row: Row, alert: nat, channel: nat, event: Option<nat>)
    requires exists e :: OwnKey(row, e)
    requires row.key == if event.None? then DirectKey(alert, channel) else EscalationKey(alert, event.value, channel)
    ensures LaneOf(row) == Lane(alert, channel)
  {
    var e: Option<nat> :| OwnKey(row, e);
    if e.None? && event.None? {
      DirectKeysInjective(row.alert, row.channel, alert, channel);
    } else if e.None? {
      KeysNeverCollide(row.alert, row.channel, alert, event.value, channel);
    } else if event.None? {
      KeysNeverCollide(alert, channel, row.alert, e.value, row.channel);
    } else {
      EscalationKeysInjective(row.alert, e.value, row.channel, alert, event.value, channel);
    }
  }

  /** The key of an intent of this alert: direct, or of one escalation event. */
  function IntentKey(lane: Lane, event: Option<nat>): string {
    if event.None? then DirectKey(lane.alert, lane.channel) else EscalationKey(lane.alert, event.value, lane.channel)
  }

  /** A table that only lacks this key takes it on any unkeyed row of the lane. */
  lemma AdoptKeepsWellKeyed(d: Deliveries, lane: Lane, event: Option<nat>, x: nat)
    requires WellKeyed(d) && Unkeyed(d.rows, lane, x) && !KeyTaken(d.rows, IntentKey(lane, event))
    ensures WellKeyed(d.(rows := d.rows[x := Adopted(d.rows[x], IntentKey(lane, event))]))
  {
    assert OwnKey(Adopted(d.rows[x], IntentKey(lane, event)), event);
  }

  lemma CreateKeepsWellKeyed(d: Deliveries, lane: Lane, event: Option<nat>)
    requires WellKeyed(d) && !KeyTaken(d.rows, IntentKey(lane, event))
    ensures WellKeyed(Deliveries(d.rows[d.next := NewIntent(d.next, lane, IntentKey(lane, event))], d.next + 1))
  {
    assert OwnKey(NewIntent(d.next, lane, IntentKey(lane, event)), event);
  }

  /** Whatever branch it takes, ensuring an intent keeps the keys in order. */
  lemma EnsureKeepsWellKeyed(d: Deliveries, lane: Lane, event: Option<nat>, adopt: bool, facts: AlertFacts)
    requires WellKeyed(d)
    ensures var r := Ensured(d, lane, IntentKey(lane, event), adopt, facts); r.Ok? ==> WellKeyed(r.value)
  {
    var key := IntentKey(lane, event);
    if !KeyTaken(d.rows, key) {
      CreateKeepsWellKeyed(d, lane, event);
      forall x | IsOldestKnown(d.rows, lane, x) ensures WellKeyed(d.(rows := d.rows[x := Adopted(d.rows[x], key)])) {
        AdoptKeepsWellKeyed(d, lane, event, x);
      }
    }
  }

  lemma NoLegacyRows(alert: nat, d: Deliveries, decision: Decision, channel: nat)
    requires DirectOnlyIfDecided(alert, d, decision)
    ensures !exists id :: IsOldestKnown(d.rows, Lane(alert, channel), id)
  {
  }

  /** Ensuring an intent of an alert without legacy rows finds or creates it. */
  lemma EnsureKeepsDecided(alert: nat, d: Deliveries, channel: nat, event: Option<nat>, facts: AlertFacts,
      decision: Decision)
    requires WellKeyed(d) && DirectOnlyIfDecided(alert, d, decision) && (event.None? ==> decision == Direct)
    ensures var lane := Lane(alert, channel);
      var r := Ensured(d, lane, IntentKey(lane, event), event.None?, facts);
      r.Ok? ==> DirectOnlyIfDecided(alert, r.value, decision)
  {
    KeysNotBlank(alert, if event.None? then 0 else event.value, channel);
    NoLegacyRows(alert, d, decision, channel);
    if event.Some? {
      KeysNeverCollide(alert, channel, alert, event.value, channel);
    }
  }

  lemma {:induction false} EnsureAllKeepsWellKeyed(alert: nat, d: Deliveries, channels: seq<nat>, facts: AlertFacts)
    requires WellKeyed(d)
    ensures var r := EnsuredAll(d, alert, channels, facts); r.Ok? ==> WellKeyed(r.value)
  {
    if channels != [] {
      var init, channel := channels[..|channels| - 1], channels[|channels| - 1];
      EnsureAllKeepsWellKeyed(alert, d, init, facts);
      var before := EnsuredAll(d, alert, init, facts);
      if before.Ok? {
        EnsureKeepsWellKeyed(before.value, Lane(alert, channel), None, true, facts);
      }
    }
  }

  lemma {:induction false} EnsureAllKeepsDecided(alert: nat, d: Deliveries, channels: seq<nat>, facts: AlertFacts)
    requires WellKeyed(d) && DirectOnlyIfDecided(alert, d, Direct)
    ensures var r := EnsuredAll(d, alert, channels, facts); r.Ok? ==> DirectOnlyIfDecided(alert, r.value, Direct)
  {
    if channels != [] {
      var init, channel := channels[..|channels| - 1], channels[|channels| - 1];
      EnsureAllKeepsDecided(alert, d, init, facts);
      EnsureAllKeepsWellKeyed(alert, d, init, facts);
      var before := EnsuredAll(d, alert, init, facts);
      if before.Ok? {
        EnsureKeepsDecided(alert, before.value, channel, None, facts, Direct);
      }
    }
  }

  ghost predicate HasIntent(d: Deliveries, lane: Lane) { exists id :: DirectRow(d.rows, lane, id) }

  /** Whatever branch it takes, finding, adopting or creating, ensuring an intent
      leaves one with that key for that alert and channel, answers with it, and loses
      none. */
  lemma EnsureProvides(d: Deliveries, lane: Lane, facts: AlertFacts, other: Lane)
    requires WellKeyed(d)
    ensures var r := Ensured(d, lane, IntentKey(lane, None), true, facts);
      r.Ok? ==> HasIntent(r.value, lane) && (HasIntent(d, other) ==> HasIntent(r.value, other))
    ensures var r := Ensured(d, lane, IntentKey(lane, None), true, facts);
      r.Ok? ==> forall id :: Answers(d, lane, IntentKey(lane, None), true, id) ==> DirectRow(r.value.rows, lane, id)
  {
    var key := IntentKey(lane, None);
    KeysNotBlank(lane.alert, 0, lane.channel);
    KeysNotBlank(other.alert, 0, other.channel);
    var r := Ensured(d, lane, key, true, facts);
    if r.Ok? {
      if KeyTaken(d.rows, key) {
        var id :| id in d.rows && d.rows[id].key == key;
        OwnKeyLane(d.rows[id], lane.alert, lane.channel, None);
        assert DirectRow(d.rows, lane, id);
      } else if exists x :: IsOldestKnown(d.rows, lane, x) {
        var x :| IsOldestKnown(d.rows, lane, x) && r.value == d.(rows := d.rows[x := Adopted(d.rows[x], key)]);
        assert DirectRow(r.value.rows, lane, x);
      } else {
        assert DirectRow(r.value.rows, lane, d.next);
      }
      if HasIntent(d, other) {
        var id :| DirectRow(d.rows, other, id);
        assert DirectRow(r.value.rows, other, id);
      }
    }
  }

  /** Ensuring fails exactly where a legacy row could be meant but its alert can no
      longer be repaired; otherwise exactly the row it answers may change, only in key
      and decision unless it is new, and a new one can be claimed at once. */
  lemma EnsureChangesOneRow(d: Deliveries, lane: Lane, event: Option<nat>, adopt: bool, facts: AlertFacts, id: nat)
    requires WellKeyed(d)
    ensures var key, r := IntentKey(lane, event), Ensured(d, lane, IntentKey(lane, event), adopt, facts);
      && (r.Err? <==> !KeyTaken(d.rows, key) && adopt && !Repairable(facts))
      && (r.Ok? && id in d.rows ==>
            && id in r.value.rows && SameDelivery(d.rows[id], r.value.rows[id])
            && (!Answers(d, lane, key, adopt, id) || KeyTaken(d.rows, key) ==> r.value.rows[id] == d.rows[id]))
      && (r.Ok? && id !in d.rows && id in r.value.rows ==>
            && Answers(d, lane, key, adopt, id) && LaneOf(r.value.rows[id]) == lane && r.value.rows[id].key == key
            && forall now, force :: Claimable(r.value.rows[id], now, force))
  {
  }

  lemma {:induction false} EnsureAllProvides(alert: nat, d: Deliveries, channels: seq<nat>, facts: AlertFacts, k: nat)
    requires WellKeyed(d) && k < |channels|
    ensures var r := EnsuredAll(d, alert, channels, facts); r.Ok? ==> HasIntent(r.value, Lane(alert, channels[k]))
  {
    var init, channel := channels[..|channels| - 1], channels[|channels| - 1];
    var before := EnsuredAll(d, alert, init, facts);
    EnsureAllKeepsWellKeyed(alert, d, init, facts);
    if before.Ok? {
      if k < |channels| - 1 {
        EnsureAllProvides(alert, d, init, facts, k);
      }
      EnsureProvides(before.value, Lane(alert, channel), facts, Lane(alert, channels[k]));
    }
  }

  /** A routing pass that decides direct, and finds or makes that the committed
      decision, leaves an intent for every routed channel, adopted rows included. */
  lemma CommitCoversChannels(alert: nat, d: Deliveries, channels: seq<nat>, facts: AlertFacts, k: nat)
    requires WellKeyed(d) && k < |channels|
    ensures var r := Committed(d, alert, facts, Direct, channels);
      r.Ok? && r.value.1 == Direct ==> WellKeyed(r.value.0) && HasIntent(r.value.0, Lane(alert, channels[k]))
    ensures var r := Committed(d, alert, facts, Direct, channels);
      r.Ok? && (facts.decision == PendingDecision || facts.decision == Undecided) ==> r.value.1 == Direct
  {
    EnsureAllKeepsWellKeyed(alert, d, channels, facts);
    EnsureAllProvides(alert, d, channels, facts, k);
  }

  lemma CommitKeepsInv(alert: nat, m: Moment, op: Op, n: Moment)
    requires Inv(alert, m) && Step(alert, m, op, n) && op.Commit?
    ensures Inv(alert, n)
  {
    if op.decision == Direct && CanBeDirect(m.facts.decision) {
      assert DirectOnlyIfDecided(alert, m.deliveries, Direct);
      EnsureAllKeepsWellKeyed(alert, m.deliveries, op.channels, m.facts);
      EnsureAllKeepsDecided(alert, m.deliveries, op.channels, m.facts);
    }
  }

  lemma ProgressKeepsInv(alert: nat, m: Moment, op: Op, n: Moment)
    requires Inv(alert, m) && Step(alert, m, op, n) && op.Progress?
    ensures Inv(alert, n)
  {
    var t, u := m.deliveries.rows, op.rows;
    forall id | id in u && !IsBlank(u[id].key) ensures exists event :: OwnKey(u[id], event) {
      assert id in t;
      var event :| OwnKey(t[id], event);
      assert OwnKey(u[id], event);
    }
  }

  lemma StepKeepsInv(alert: nat, m: Moment, op: Op, n: Moment)
    requires Inv(alert, m) && Step(alert, m, op, n)
    ensures Inv(alert, n)
    ensures m.facts.decision != PendingDecision ==> n.facts.decision == m.facts.decision
  {
    match op
    case Commit(_, _) => CommitKeepsInv(alert, m, op, n);
    case Escalate(event, channel) =>
      EnsureKeepsWellKeyed(m.deliveries, Lane(alert, channel), Some(event), false, m.facts);
      EnsureKeepsDecided(alert, m.deliveries, channel, Some(event), m.facts, m.facts.decision);
    case Progress(_) => ProgressKeepsInv(alert, m, op, n);
    case Elsewhere(_) =>
  }

  lemma {:induction false} RunInv(alert: nat, ms: seq<Moment>, ops: seq<Op>, i: nat)
    requires IsRun(alert, ms, ops) && i < |ms|
    ensures Inv(alert, ms[i])
  {
    if i > 0 {
      RunInv(alert, ms, ops, i - 1);
      assert StepAt(alert, ms, ops, i - 1);
      StepKeepsInv(alert, ms[i - 1], ops[i - 1], ms[i]);
    }
  }

  /** Once an alert's decision has left pending it never changes again, whatever
      routing passes still race. */
  lemma {:induction false} DecisionIsFinal(alert: nat, ms: seq<Moment>, ops: seq<Op>, i: nat, j: nat)
    requires IsRun(alert, ms, ops) && i <= j < |ms| && ms[i].facts.decision != PendingDecision
    ensures ms[j].facts.decision == ms[i].facts.decision
  {
    if i < j {
      DecisionIsFinal(alert, ms, ops, i, j - 1);
      RunInv(alert, ms, ops, j - 1);
      assert StepAt(alert, ms, ops, j - 1);
      StepKeepsInv(alert, ms[j - 1], ops[j - 1], ms[j]);
    }
  }

  /** Direct intents exist only under a direct decision, at most one per channel. */
  lemma DirectIntentsFollowDecision(alert: nat, ms: seq<Moment>, ops: seq<Op>, i: nat, id: nat, other: nat)
    requires IsRun(alert, ms, ops) && i < |ms|
    requires id in ms[i].deliveries.rows && ms[i].deliveries.rows[id].alert == alert
    requires ms[i].deliveries.rows[id].key == DirectKey(alert, ms[i].deliveries.rows[id].channel)
    ensures ms[i].facts.decision == Direct
    ensures other in ms[i].deliveries.rows && ms[i].deliveries.rows[other].key == ms[i].deliveries.rows[id].key ==>
      other == id
  {
    RunInv(alert, ms, ops, i);
  }
}
