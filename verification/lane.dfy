/** Everything that can happen to the direct delivery of one alert on one channel:
    repairs, claims, reports, intents and routing decisions in any order. */
module DeliveryLane {
  import opened Basics
  import opened AlertRows
  import opened DeliveryProtocol
  import opened DeliveryRepair
  import opened AlertRouting

  datatype Op =
    | Prepare(candidate: nat)
    | TryClaim(row: nat, attempt: nat, force: bool)
    | Report(row: nat, attempt: nat, status: Status, nextRetry: Option<int>)
    | Ensure
    | Commit(decision: Decision, channels: seq<nat>)
    | Elsewhere(after: Deliveries, escalated: bool)

  /** The alert, the table, and the rows that workers have prepared for a claim. */
  datatype Moment = Moment(now: int, facts: AlertFacts, deliveries: Deliveries, prepared: set<nat>)

  /** Other lanes, other alerts and escalation intents change in any way that keeps
      the keys in order; rows from which this lane's direct delivery can start do
      not. */
  ghost predicate OnlyOthers(d: Deliveries, e: Deliveries, lane: Lane) {
    && WellKeyed(e)
    && forall id :: Candidate(d.rows, lane, id) || Candidate(e.rows, lane, id) ==>
         id in d.rows && id in e.rows && d.rows[id] == e.rows[id]
  }

  /** A worker first repairs, in its own transaction, and later tries to claim what
      repair answered; it reports as late as it likes, whatever it likes. Intents
      are ensured by routing passes and by manual retries. Escalation history only
      grows, and a decision is written once. */
  ghost predicate Step(lane: Lane, m: Moment, op: Op, n: Moment) {
    && m.now <= n.now
    && match op
       case Prepare(c) => Prepares(lane, m, c, n)
       case TryClaim(id, attempt, force) => Claims(m, id, attempt, force, n)
       case Report(id, attempt, status, next) => Reports(m, id, attempt, status, next, n)
       case Ensure => Ensures(lane, m, n)
       case Commit(decision, channels) => Commits(lane, m, decision, channels, n)
       case Elsewhere(after, escalated) =>
         && OnlyOthers(m.deliveries, after, lane)
         && n == m.(now := n.now, deliveries := after,
                    facts := m.facts.(escalationHistory := m.facts.escalationHistory || escalated))
  }

  ghost predicate Prepares(lane: Lane, m: Moment, c: nat, n: Moment) {
    && Candidate(m.deliveries.rows, lane, c)
    && var r := Repaired(m.deliveries.rows, m.facts, n.now, c);
       n == m.(now := n.now, deliveries := m.deliveries.(rows := r.table),
               prepared := m.prepared + (if r.eligible then {r.row} else {}))
  }

  ghost predicate Claims(m: Moment, id: nat, attempt: nat, force: bool, n: Moment) {
    var t := m.deliveries.rows;
    && id in m.prepared && id in t
    && var row := if Claimable(t[id], n.now, force) then ClaimedRow(t[id], attempt, n.now) else t[id];
       n == m.(now := n.now, deliveries := m.deliveries.(rows := t[id := row]))
  }

  ghost predicate Reports(m: Moment, id: nat, attempt: nat, status: Status, next: Option<int>, n: Moment) {
    var t := m.deliveries.rows;
    && id in t
    && var row := if Completable(t[id], attempt, n.now) then CompletedRow(t[id], status, next, n.now) else t[id];
       n == m.(now := n.now, deliveries := m.deliveries.(rows := t[id := row]))
  }

  ghost predicate Ensures(lane: Lane, m: Moment, n: Moment) {
    match Ensured(m.deliveries, lane, IntentKey(lane, None), true, m.facts)
    case Ok(after) => n == m.(now := n.now, deliveries := after)
    case Err(_) => n == m.(now := n.now)
  }

  ghost predicate Commits(lane: Lane, m: Moment, decision: Decision, channels: seq<nat>, n: Moment) {
    && decision != PendingDecision && decision != Undecided
    && match Committed(m.deliveries, lane.alert, m.facts, decision, channels)
       case Ok(after) => n == m.(now := n.now, deliveries := after.0, facts := m.facts.(decision := after.1))
       case Err(_) => n == m.(now := n.now)
  }

  ghost predicate StepAt(lane: Lane, ms: seq<Moment>, ops: seq<Op>, i: nat)
    requires i < |ops| && |ms| == |ops| + 1
  {
    Step(lane, ms[i], ops[i], ms[i + 1])
  }

  /** Workers may already be in flight. No legacy row of the lane is marked unknown
      unless its alert has already stopped being repairable, as the migrations that
      mark rows leave it. */
  ghost predicate IsRun(lane: Lane, ms: seq<Moment>, ops: seq<Op>) {
    && |ms| == |ops| + 1
    && WellKeyed(ms[0].deliveries) && MarksAreFinal(ms[0].deliveries.rows, lane, ms[0].facts)
    && forall i: nat :: i < |ops| ==> StepAt(lane, ms, ops, i)
  }

  // -------------------------------------------------------------------- keys

  lemma WellKeyedIsKeyed(d: Deliveries)
    requires WellKeyed(d)
    ensures Keyed(d.rows)
  {
    forall lane, i, j | DirectRow(d.rows, lane, i) && DirectRow(d.rows, lane, j) ensures i == j {
      DirectKeyNotBlank(lane);
    }
  }

  /** Without a direct row in its lane a direct key is free. */
  lemma DirectKeyFree(d: Deliveries, lane: Lane)
    requires WellKeyed(d) && !exists id :: DirectRow(d.rows, lane, id)
    ensures !KeyTaken(d.rows, IntentKey(lane, None))
  {
    var key := IntentKey(lane, None);
    DirectKeyNotBlank(lane);
    if KeyTaken(d.rows, key) {
      var id :| id in d.rows && d.rows[id].key == key;
      OwnKeyLane(d.rows[id], lane.alert, lane.channel, None);
      assert DirectRow(d.rows, lane, id);
    }
  }

  /** A change that keeps a row's identity keeps the keys in order. */
  lemma ChangeKeepsWellKeyed(d: Deliveries, id: nat, row: Row)
    requires WellKeyed(d) && id in d.rows
    requires row.id == d.rows[id].id && row.key == d.rows[id].key && LaneOf(row) == LaneOf(d.rows[id])
    ensures WellKeyed(d.(rows := d.rows[id := row]))
  {
    if !IsBlank(row.key) {
      var event :| OwnKey(d.rows[id], event);
      assert OwnKey(row, event);
    }
  }

  lemma RepairKeepsWellKeyed(d: Deliveries, a: AlertFacts, now: int, c: nat)
    requires WellKeyed(d) && c in d.rows
    ensures WellKeyed(d.(rows := Repaired(d.rows, a, now, c).table))
  {
    var t, lane := d.rows, LaneOf(d.rows[c]);
    assert d.(rows := t) == d;
    if !IsBlank(t[c].key) {
      ChangeKeepsWellKeyed(d, c, Promoted(t[c]));
    } else if !Repairable(a) {
      ChangeKeepsWellKeyed(d, c, Marked(t[c]));
    } else if exists x :: DirectRow(t, lane, x) {
      forall x | DirectRow(t, lane, x) ensures WellKeyed(d.(rows := t[x := Promoted(t[x])])) {
        ChangeKeepsWellKeyed(d, x, Promoted(t[x]));
      }
    } else {
      DirectKeyFree(d, lane);
      forall x | IsChosen(t, lane, now, x)
        ensures WellKeyed(d.(rows := t[x := Adopted(t[x], DirectKey(lane.alert, lane.channel))]))
      {
        AdoptKeepsWellKeyed(d, lane, None, x);
      }
    }
  }

  lemma StepKeepsWellKeyed(lane: Lane, m: Moment, op: Op, n: Moment)
    requires WellKeyed(m.deliveries) && Step(lane, m, op, n)
    ensures WellKeyed(n.deliveries)
  {
    var d := m.deliveries;
    match op
    case Prepare(c) => RepairKeepsWellKeyed(d, m.facts, n.now, c);
    case TryClaim(id, attempt, force) => ChangeKeepsWellKeyed(d, id, n.deliveries.rows[id]);
    case Report(id, attempt, status, next) => ChangeKeepsWellKeyed(d, id, n.deliveries.rows[id]);
    case Ensure => EnsureKeepsWellKeyed(d, lane, None, true, m.facts);
    case Commit(decision, channels) => EnsureAllKeepsWellKeyed(lane.alert, d, channels, m.facts);
    case Elsewhere(after, escalated) =>
  }

  // ------------------------------------------------------------------- marks

  lemma StepStopsForGood(lane: Lane, m: Moment, op: Op, n: Moment)
    requires Step(lane, m, op, n) && Repairable(n.facts)
    ensures Repairable(m.facts)
  {
  }

  ghost predicate NoMarks(t: Table, lane: Lane) {
    forall id :: Unkeyed(t, lane, id) ==> t[id].decision != UnknownIntent
  }

  /** Ensuring any direct intent marks no row and unkeys none. */
  lemma EnsureKeepsNoMarks(d: Deliveries, lane: Lane, other: Lane, facts: AlertFacts)
    requires NoMarks(d.rows, lane)
    ensures var r := Ensured(d, other, IntentKey(other, None), true, facts); r.Ok? ==> NoMarks(r.value.rows, lane)
  {
    DirectKeyNotBlank(other);
  }

  lemma {:induction false} EnsureAllKeepsNoMarks(d: Deliveries, lane: Lane, channels: seq<nat>, facts: AlertFacts)
    requires NoMarks(d.rows, lane)
    ensures var r := EnsuredAll(d, lane.alert, channels, facts); r.Ok? ==> NoMarks(r.value.rows, lane)
  {
    if channels != [] {
      var init, channel := channels[..|channels| - 1], channels[|channels| - 1];
      EnsureAllKeepsNoMarks(d, lane, init, facts);
      var before := EnsuredAll(d, lane.alert, init, facts);
      if before.Ok? {
        EnsureKeepsNoMarks(before.value, lane, Lane(lane.alert, channel), facts);
      }
    }
  }

  lemma StepKeepsMarksFinal(lane: Lane, m: Moment, op: Op, n: Moment)
    requires Step(lane, m, op, n) && MarksAreFinal(m.deliveries.rows, lane, m.facts)
    ensures MarksAreFinal(n.deliveries.rows, lane, n.facts)
  {
    if Repairable(n.facts) {
      StepStopsForGood(lane, m, op, n);
      assert NoMarks(m.deliveries.rows, lane);
      match op
      case Prepare(c) => DirectKeyNotBlank(lane);
      case TryClaim(id, attempt, force) =>
      case Report(id, attempt, status, next) =>
      case Ensure => EnsureKeepsNoMarks(m.deliveries, lane, lane, m.facts);
      case Commit(decision, channels) => EnsureAllKeepsNoMarks(m.deliveries, lane, channels, m.facts);
      case Elsewhere(after, escalated) =>
        forall id | Unkeyed(after.rows, lane, id) ensures after.rows[id].decision != UnknownIntent {
          assert Candidate(after.rows, lane, id);
          assert Unkeyed(m.deliveries.rows, lane, id);
        }
      assert NoMarks(n.deliveries.rows, lane);
    }
  }

  /** On every reachable table an unkeyed row marked unknown belongs to an alert that
      is not repaired, and never will be again. */
  lemma {:induction false} MarksStayFinal(lane: Lane, ms: seq<Moment>, ops: seq<Op>, i: nat)
    requires IsRun(lane, ms, ops) && i < |ms|
    ensures WellKeyed(ms[i].deliveries) && Keyed(ms[i].deliveries.rows)
    ensures MarksAreFinal(ms[i].deliveries.rows, lane, ms[i].facts)
  {
    if i > 0 {
      MarksStayFinal(lane, ms, ops, i - 1);
      assert StepAt(lane, ms, ops, i - 1);
      StepKeepsWellKeyed(lane, ms[i - 1], ops[i - 1], ms[i]);
      StepKeepsMarksFinal(lane, ms[i - 1], ops[i - 1], ms[i]);
    }
    WellKeyedIsKeyed(ms[i].deliveries);
  }

  // ------------------------------------------------------------ confirmation

  /** Some send of the lane's direct delivery was confirmed. */
  ghost predicate Confirmed(t: Table, lane: Lane) { UnkeyedSent(t, lane) || DirectSent(t, lane) }

  /** The row that repair answers in this step, if it may be attempted. */
  ghost function AnswerOf(m: Moment, op: Op, now: int): set<nat> {
    if op.Prepare? && op.candidate in m.deliveries.rows then
      var r := Repaired(m.deliveries.rows, m.facts, now, op.candidate);
      if r.eligible then {r.row} else {}
    else {}
  }

  /** The rows that repair has answered from moment s on. */
  ghost function Answered(ms: seq<Moment>, ops: seq<Op>, s: nat, i: nat): set<nat>
    requires |ms| == |ops| + 1 && s <= i <= |ops|
  {
    if i == s then {} else Answered(ms, ops, s, i - 1) + AnswerOf(ms[i - 1], ops[i - 1], ms[i].now)
  }

  /** As long as the alert is repairable, a send is confirmed and so is every row that
      repair has answered since. */
  ghost predicate Inv(lane: Lane, m: Moment, since: set<nat>) {
    && WellKeyed(m.deliveries) && MarksAreFinal(m.deliveries.rows, lane, m.facts)
    && (Repairable(m.facts) ==>
          && Confirmed(m.deliveries.rows, lane)
          && forall id :: id in since ==>
               DirectRow(m.deliveries.rows, lane, id) && m.deliveries.rows[id].status == Sent)
  }

  /** Confirmed rows of the lane stay confirmed rows of the lane, keyed or not. */
  ghost predicate SentKept(t: Table, u: Table, lane: Lane) {
    && (forall id :: DirectRow(t, lane, id) && t[id].status == Sent ==> DirectRow(u, lane, id) && u[id].status == Sent)
    && (forall id :: Unkeyed(t, lane, id) && t[id].status == Sent ==> Candidate(u, lane, id) && u[id].status == Sent)
  }

  lemma SentKeptKeepsInv(lane: Lane, m: Moment, op: Op, n: Moment, since: set<nat>)
    requires Inv(lane, m, since) && Step(lane, m, op, n) && SentKept(m.deliveries.rows, n.deliveries.rows, lane)
    ensures Inv(lane, n, since)
  {
    var t, u := m.deliveries.rows, n.deliveries.rows;
    StepKeepsWellKeyed(lane, m, op, n);
    StepKeepsMarksFinal(lane, m, op, n);
    if Repairable(n.facts) {
      StepStopsForGood(lane, m, op, n);
      if DirectSent(t, lane) {
        var id :| DirectRow(t, lane, id) && t[id].status == Sent;
        assert DirectRow(u, lane, id);
      } else {
        var id :| Unkeyed(t, lane, id) && t[id].status == Sent;
        assert Candidate(u, lane, id);
      }
    }
  }

  /** Ensuring an intent, for whatever channel, keeps every confirmed row; adopting
      one only gives it the key of its lane. */
  lemma EnsureKeepsSent(d: Deliveries, lane: Lane, other: Lane, facts: AlertFacts)
    requires WellKeyed(d)
    ensures var r := Ensured(d, other, IntentKey(other, None), true, facts); r.Ok? ==>
      SentKept(d.rows, r.value.rows, lane)
  {
    DirectKeyNotBlank(lane);
  }

  lemma SentKeptTransitive(t: Table, u: Table, v: Table, lane: Lane)
    requires SentKept(t, u, lane) && SentKept(u, v, lane)
    ensures SentKept(t, v, lane)
  {
  }

  lemma {:induction false} EnsureAllKeepsSent(d: Deliveries, lane: Lane, channels: seq<nat>, facts: AlertFacts)
    requires WellKeyed(d)
    ensures var r := EnsuredAll(d, lane.alert, channels, facts); r.Ok? ==> SentKept(d.rows, r.value.rows, lane)
  {
    if channels != [] {
      var init, channel := channels[..|channels| - 1], channels[|channels| - 1];
      EnsureAllKeepsSent(d, lane, init, facts);
      EnsureAllKeepsWellKeyed(lane.alert, d, init, facts);
      var before := EnsuredAll(d, lane.alert, init, facts);
      if before.Ok? {
        EnsureKeepsSent(before.value, lane, Lane(lane.alert, channel), facts);
        var r := EnsuredAll(d, lane.alert, channels, facts);
        if r.Ok? {
          SentKeptTransitive(d.rows, before.value.rows, r.value.rows, lane);
        }
      }
    }
  }

  lemma PrepareKeepsInv(lane: Lane, m: Moment, c: nat, n: Moment, since: set<nat>)
    requires Inv(lane, m, since) && Step(lane, m, Prepare(c), n)
    ensures Inv(lane, n, since + AnswerOf(m, Prepare(c), n.now))
  {
    var t := m.deliveries.rows;
    StepKeepsWellKeyed(lane, m, Prepare(c), n);
    StepKeepsMarksFinal(lane, m, Prepare(c), n);
    WellKeyedIsKeyed(m.deliveries);
    if Repairable(m.facts) {
      if DirectSent(t, lane) {
        var d :| DirectRow(t, lane, d) && t[d].status == Sent;
        SettledLane(t, lane, m.facts, n.now, c, d);
      } else {
        var b :| Unkeyed(t, lane, b) && t[b].status == Sent;
        assert Known(t, lane, b);
        assert forall id :: id in since ==> DirectRow(t, lane, id);
        EvidenceSettles(t, lane, m.facts, n.now, c);
      }
    }
  }

  /** A claim or a report leaves confirmed rows alone. */
  lemma AttemptKeepsSent(lane: Lane, m: Moment, op: Op, n: Moment)
    requires Step(lane, m, op, n) && (op.TryClaim? || op.Report?)
    ensures SentKept(m.deliveries.rows, n.deliveries.rows, lane)
  {
  }

  lemma OthersKeepSent(lane: Lane, d: Deliveries, e: Deliveries)
    requires OnlyOthers(d, e, lane)
    ensures SentKept(d.rows, e.rows, lane)
  {
    forall id | Candidate(d.rows, lane, id) ensures id in e.rows && e.rows[id] == d.rows[id] {}
  }

  lemma StepKeepsSent(lane: Lane, m: Moment, op: Op, n: Moment)
    requires WellKeyed(m.deliveries) && Step(lane, m, op, n) && !op.Prepare?
    ensures SentKept(m.deliveries.rows, n.deliveries.rows, lane)
  {
    match op
    case Ensure => EnsureKeepsSent(m.deliveries, lane, lane, m.facts);
    case Commit(decision, channels) => EnsureAllKeepsSent(m.deliveries, lane, channels, m.facts);
    case Elsewhere(after, escalated) => OthersKeepSent(lane, m.deliveries, after);
    case _ => AttemptKeepsSent(lane, m, op, n);
  }

  lemma StepKeepsInv(lane: Lane, m: Moment, op: Op, n: Moment, since: set<nat>)
    requires Inv(lane, m, since) && Step(lane, m, op, n)
    ensures Inv(lane, n, since + AnswerOf(m, op, n.now))
  {
    if op.Prepare? {
      PrepareKeepsInv(lane, m, op.candidate, n, since);
    } else {
      StepKeepsSent(lane, m, op, n);
      SentKeptKeepsInv(lane, m, op, n, since);
    }
  }

  lemma {:induction false} RunInv(lane: Lane, ms: seq<Moment>, ops: seq<Op>, s: nat, i: nat)
    requires IsRun(lane, ms, ops) && s <= i < |ms| && Confirmed(ms[s].deliveries.rows, lane)
    ensures Inv(lane, ms[i], Answered(ms, ops, s, i))
  {
    if i == s {
      MarksStayFinal(lane, ms, ops, s);
    } else {
      RunInv(lane, ms, ops, s, i - 1);
      assert StepAt(lane, ms, ops, i - 1);
      StepKeepsInv(lane, ms[i - 1], ops[i - 1], ms[i], Answered(ms, ops, s, i - 1));
    }
  }

  lemma {:induction false} PreparedOrAnswered(lane: Lane, ms: seq<Moment>, ops: seq<Op>, s: nat, i: nat)
    requires IsRun(lane, ms, ops) && s <= i < |ms|
    ensures ms[i].prepared == ms[s].prepared + Answered(ms, ops, s, i)
  {
    if s < i {
      PreparedOrAnswered(lane, ms, ops, s, i - 1);
      assert StepAt(lane, ms, ops, i - 1);
    }
  }

  /** Step i is the claim of a row and takes it. */
  ghost predicate ClaimWins(ms: seq<Moment>, ops: seq<Op>, i: nat)
    requires |ms| == |ops| + 1 && i < |ops|
  {
    && ops[i].TryClaim? && ops[i].row in ms[i].deliveries.rows
    && Claimable(ms[i].deliveries.rows[ops[i].row], ms[i + 1].now, ops[i].force)
  }

  /** From a moment s at which some send of the lane is confirmed, over every
      interleaving of repairs, claims, reports, intents, decisions and foreign
      changes, and while the alert has no escalation history and a pending or direct
      decision: nothing that repair answers from then on is ever claimed, nor is
      anything it had not answered before. */
  lemma NoAttemptEverClaimed(lane: Lane, ms: seq<Moment>, ops: seq<Op>, s: nat, i: nat)
    requires IsRun(lane, ms, ops) && s <= i < |ops| && Confirmed(ms[s].deliveries.rows, lane)
    requires ops[i].TryClaim? && Repairable(ms[i].facts)
    requires ops[i].row in Answered(ms, ops, s, i) || ops[i].row !in ms[s].prepared
    ensures ms[i + 1].deliveries == ms[i].deliveries
  {
    RunInv(lane, ms, ops, s, i);
    PreparedOrAnswered(lane, ms, ops, s, i);
    assert StepAt(lane, ms, ops, i);
    var t := ms[i].deliveries.rows;
    assert t[ops[i].row := t[ops[i].row]] == t;
  }

  /** Exactly which claims still win after the confirmation: those of a worker in
      flight, for a row that repair answered before the confirmation, has not answered
      since, and that is claimable on its own. */
  lemma ClaimAfterConfirmationIff(lane: Lane, ms: seq<Moment>, ops: seq<Op>, s: nat, i: nat)
    requires IsRun(lane, ms, ops) && s <= i < |ops| && Confirmed(ms[s].deliveries.rows, lane)
    requires ops[i].TryClaim? && Repairable(ms[i].facts)
    ensures ms[i + 1].deliveries != ms[i].deliveries <==>
      && ops[i].row in ms[s].prepared && ops[i].row !in Answered(ms, ops, s, i)
      && ClaimWins(ms, ops, i)
  {
    if ops[i].row in Answered(ms, ops, s, i) || ops[i].row !in ms[s].prepared {
      NoAttemptEverClaimed(lane, ms, ops, s, i);
    } else {
      assert StepAt(lane, ms, ops, i);
      var t := ms[i].deliveries.rows;
      assert t[ops[i].row := t[ops[i].row]] == t;
      if ClaimWins(ms, ops, i) {
        assert ms[i + 1].deliveries.rows[ops[i].row].count == t[ops[i].row].count + 1;
      }
    }
  }

  // ---------------------------------------------------------------- the race

  /** Two legacy rows: an older one that waits, and a newer one whose send is live for
      one more instant. */
  function Waiting(lane: Lane): Row { Row(1, lane.alert, lane.channel, "", Blank, Pending, None, None, 0, None, None) }

  function Live(lane: Lane, now: int): Row {
    Row(2, lane.alert, lane.channel, "", Deliver, Sending, Some(7), Some(now + 1), 1, None, None)
  }

  function AdoptedFirst(lane: Lane): Row { Adopted(Waiting(lane), IntentKey(lane, None)) }

  const NewAlert := AlertFacts(PendingDecision, false)

  function At(now: int, d: Deliveries, prepared: set<nat>): Moment { Moment.Moment(now, NewAlert, d, prepared) }

  lemma EnsureAdoptsOlder(lane: Lane, now: int, facts: AlertFacts)
    requires Repairable(facts)
    ensures var d := Deliveries(map[1 := Waiting(lane), 2 := Live(lane, now)], 3);
      && WellKeyed(d) && MarksAreFinal(d.rows, lane, facts)
      && Ensured(d, lane, IntentKey(lane, None), true, facts) ==
           Ok(d.(rows := map[1 := AdoptedFirst(lane), 2 := Live(lane, now)]))
  {
    var d := Deliveries(map[1 := Waiting(lane), 2 := Live(lane, now)], 3);
    DirectKeyNotBlank(lane);
    assert Known(d.rows, lane, 1) && Known(d.rows, lane, 2);
    assert IsOldestKnown(d.rows, lane, 1);
    assert d.rows[1 := AdoptedFirst(lane)] == map[1 := AdoptedFirst(lane), 2 := Live(lane, now)];
  }

  lemma RepairAnswers(lane: Lane, now: int, at: int, facts: AlertFacts)
    requires Repairable(facts)
    ensures var t: Table := map[1 := AdoptedFirst(lane), 2 := Live(lane, now)];
      Repaired(t, facts, at, 2) == Repair(t, if at <= now then 2 else 1, true)
  {
    var t: Table := map[1 := AdoptedFirst(lane), 2 := Live(lane, now)];
    DirectKeyNotBlank(lane);
    assert DirectRow(t, lane, 1) && Unkeyed(t, lane, 2);
    assert forall d :: DirectRow(t, lane, d) ==> d == 1;
    assert forall b :: Unkeyed(t, lane, b) ==> b == 2;
    assert at <= now ==> IsNewestLive(t, lane, at, 2);
  }

  datatype Race = Race(d0: Deliveries, d1: Deliveries, d2: Deliveries, d3: Deliveries, d4: Deliveries)

  /** The tables of the race: legacy rows, older one adopted, newer one claimed, sent,
      and the older one claimed too. */
  function RaceOf(lane: Lane, now: int): Race {
    var first, claimed := AdoptedFirst(lane), ClaimedRow(Live(lane, now), 8, now + 1);
    var sent := CompletedRow(claimed, Sent, None, now + 2);
    Race(Deliveries(map[1 := Waiting(lane), 2 := Live(lane, now)], 3),
         Deliveries(map[1 := first, 2 := Live(lane, now)], 3),
         Deliveries(map[1 := first, 2 := claimed], 3),
         Deliveries(map[1 := first, 2 := sent], 3),
         Deliveries(map[1 := ClaimedRow(first, 9, now + 2), 2 := sent], 3))
  }

  lemma RacePrepares(lane: Lane, now: int, r: Race)
    requires r == RaceOf(lane, now)
    ensures Step(lane, At(now, r.d0, {}), Ensure, At(now, r.d1, {}))
    ensures Step(lane, At(now, r.d1, {}), Prepare(2), At(now, r.d1, {2}))
    ensures Step(lane, At(now, r.d1, {2}), Prepare(2), At(now + 1, r.d1, {1, 2}))
  {
    EnsureAdoptsOlder(lane, now, NewAlert);
    RepairAnswers(lane, now, now, NewAlert);
    RepairAnswers(lane, now, now + 1, NewAlert);
    assert {2} + {1} == {1, 2};
    assert Candidate(r.d1.rows, lane, 2);
  }

  lemma RaceClaims(lane: Lane, now: int, r: Race)
    requires r == RaceOf(lane, now)
    ensures Step(lane, At(now + 1, r.d1, {1, 2}), TryClaim(2, 8, false), At(now + 1, r.d2, {1, 2}))
    ensures Step(lane, At(now + 2, r.d3, {1, 2}), TryClaim(1, 9, false), At(now + 2, r.d4, {1, 2}))
    ensures Claimable(r.d1.rows[2], now + 1, false) && Claimable(r.d3.rows[1], now + 2, false)
  {
    assert r.d1.rows[2 := r.d2.rows[2]] == r.d2.rows;
    assert r.d3.rows[1 := r.d4.rows[1]] == r.d4.rows;
  }

  lemma RaceReports(lane: Lane, now: int, r: Race)
    requires r == RaceOf(lane, now)
    ensures Step(lane, At(now + 1, r.d2, {1, 2}), Op.Report(2, 8, Sent, None), At(now + 2, r.d3, {1, 2}))
    ensures Confirmed(r.d3.rows, lane) && r.d4 != r.d3
  {
    assert r.d2.rows[2 := r.d3.rows[2]] == r.d3.rows;
    assert Unkeyed(r.d3.rows, lane, 2);
    assert r.d4.rows[1].count != r.d3.rows[1].count;
  }

  function RaceOps(): seq<Op> {
    [Ensure, Prepare(2), Prepare(2), TryClaim(2, 8, false), Op.Report(2, 8, Sent, None), TryClaim(1, 9, false)]
  }

  function RaceMoments(lane: Lane, now: int): seq<Moment> {
    var r := RaceOf(lane, now);
    [At(now, r.d0, {}), At(now, r.d1, {}), At(now, r.d1, {2}), At(now + 1, r.d1, {1, 2}), At(now + 1, r.d2, {1, 2}),
     At(now + 2, r.d3, {1, 2}), At(now + 2, r.d4, {1, 2})]
  }

  lemma RaceIsRun(lane: Lane, now: int)
    ensures IsRun(lane, RaceMoments(lane, now), RaceOps())
  {
    var r, ms, ops := RaceOf(lane, now), RaceMoments(lane, now), RaceOps();
    EnsureAdoptsOlder(lane, now, NewAlert);
    RacePrepares(lane, now, r);
    RaceClaims(lane, now, r);
    RaceReports(lane, now, r);
    forall i: nat | i < |ops| ensures StepAt(lane, ms, ops, i) {
      assert i == 0 || i == 1 || i == 2 || i == 3 || i == 4 || i == 5;
    }
  }

  /** The condition is met: a routing pass adopts the older of two legacy rows; one
      worker is answered the newer one while its send is live, and another the older
      one when that lease has run out; the first claims, sends and confirms; and the
      second still claims and sends the same notification again. */
  lemma InFlightClaimWins(lane: Lane, now: int) returns (ms: seq<Moment>, ops: seq<Op>)
    ensures |ops| == 6 && IsRun(lane, ms, ops) && ms[0].prepared == {}
    ensures Repairable(ms[5].facts) && Confirmed(ms[5].deliveries.rows, lane)
    ensures ClaimWins(ms, ops, 3) && ops[4] == Op.Report(ops[3].row, ops[3].attempt, Sent, None)
    ensures ClaimWins(ms, ops, 5) && ops[5].row != ops[3].row && ms[6].deliveries != ms[5].deliveries
  {
    ms, ops := RaceMoments(lane, now), RaceOps();
    RaceIsRun(lane, now);
    RaceClaims(lane, now, RaceOf(lane, now));
    RaceReports(lane, now, RaceOf(lane, now));
  }
}
