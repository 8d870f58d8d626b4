/** Repair of legacy delivery rows: which row stands for an alert's direct intent
    on a channel, and why a channel with a confirmed legacy send is never sent to
    again. */
module DeliveryRepair {
  import opened Basics
  import opened AlertRows
  import opened DeliveryProtocol

  /** What repair reads about the alert. */
  datatype AlertFacts = AlertFacts(decision: Decision, escalationHistory: bool)

  predicate CanBeDirect(d: Decision) { d == Undecided || d == PendingDecision || d == Direct }

  predicate Repairable(a: AlertFacts) { !a.escalationHistory && CanBeDirect(a.decision) }

  /** One alert on one channel. */
  datatype Lane = Lane(alert: nat, channel: nat)

  function LaneOf(row: Row): Lane { Lane(row.alert, row.channel) }

  predicate Unkeyed(t: Table, lane: Lane, id: nat) {
    id in t && LaneOf(t[id]) == lane && IsBlank(t[id].key)
  }

  predicate DirectRow(t: Table, lane: Lane, id: nat) {
    id in t && LaneOf(t[id]) == lane && t[id].key == DirectKey(lane.alert, lane.channel)
  }

  /** id is the primary key and a direct key is unique. */
  ghost predicate Keyed(t: Table) {
    && (forall id :: id in t ==> t[id].id == id)
    && (forall lane, i, j :: DirectRow(t, lane, i) && DirectRow(t, lane, j) ==> i == j)
  }

  predicate LiveSending(row: Row, now: int) { row.status == Sending && row.lease.Some? && row.lease.value > now }

  predicate Known(t: Table, lane: Lane, id: nat) { Unkeyed(t, lane, id) && t[id].decision != UnknownIntent }

  function Rank(row: Row, now: int): nat { if row.status == Sent then 2 else if LiveSending(row, now) then 1 else 0 }

  /** The authoritative legacy row: confirmed before live before any, then newest;
      rows marked unknown are never chosen. */
  ghost predicate IsChosen(t: Table, lane: Lane, now: int, id: nat) {
    && Known(t, lane, id)
    && forall k: nat :: Known(t, lane, k) ==>
         Rank(t[k], now) < Rank(t[id], now) || (Rank(t[k], now) == Rank(t[id], now) && k <= id)
  }

  ghost predicate UnkeyedSent(t: Table, lane: Lane) { exists b :: Unkeyed(t, lane, b) && t[b].status == Sent }

  /** The newest unkeyed row whose send is still live. */
  ghost predicate IsNewestLive(t: Table, lane: Lane, now: int, id: nat) {
    && Unkeyed(t, lane, id) && LiveSending(t[id], now)
    && forall k: nat :: Unkeyed(t, lane, k) && LiveSending(t[k], now) ==> k <= id
  }

  /** The repaired table, the row that stands for the intent, and whether it may
      be attempted at all. */
  datatype Repair = Repair(table: Table, row: nat, eligible: bool)

  ghost function WithDirect(t: Table, lane: Lane, now: int, d: nat): Repair
    requires d in t
  {
    if UnkeyedSent(t, lane) then Repair(t[d := Promoted(t[d])], d, true)
    else if t[d].status != Sent && exists b :: IsNewestLive(t, lane, now, b) then
      var b :| IsNewestLive(t, lane, now, b);
      Repair(t, b, true)
    else Repair(t, d, true)
  }

  ghost function Repaired(t: Table, a: AlertFacts, now: int, c: nat): Repair
    requires c in t
  {
    var row := t[c];
    var lane := LaneOf(row);
    if !IsBlank(row.key) then
      if row.key != DirectKey(lane.alert, lane.channel) || !Repairable(a) then Repair(t, c, true)
      else WithDirect(t, lane, now, c)
    else if !Repairable(a) then Repair(t[c := Marked(row)], c, false)
    else if exists d :: DirectRow(t, lane, d) then
      var d :| DirectRow(t, lane, d);
      WithDirect(t, lane, now, d)
    else if exists x :: IsChosen(t, lane, now, x) then
      var x :| IsChosen(t, lane, now, x);
      Repair(t[x := Adopted(t[x], DirectKey(lane.alert, lane.channel))], x, true)
    else Repair(t, c, false)
  }

  // ------------------------------------------------------------- properties

  /** A row of the lane from which a direct delivery can start. */
  predicate Candidate(t: Table, lane: Lane, c: nat) { Unkeyed(t, lane, c) || DirectRow(t, lane, c) }

  /** A confirmed legacy send that is not marked unknown. */
  ghost predicate SentEvidence(t: Table, lane: Lane) { exists b :: Known(t, lane, b) && t[b].status == Sent }

  /** The direct row itself is confirmed. */
  ghost predicate DirectSent(t: Table, lane: Lane) { exists d :: DirectRow(t, lane, d) && t[d].status == Sent }

  /** A legacy row of the lane marked unknown means that repair has stopped for good;
      every reachable table is like that, see DeliveryLane.MarksStayFinal. */
  ghost predicate MarksAreFinal(t: Table, lane: Lane, a: AlertFacts) {
    (exists id :: Unkeyed(t, lane, id) && t[id].decision == UnknownIntent) ==> !Repairable(a)
  }

  lemma DirectKeyNotBlank(lane: Lane)
    ensures !IsBlank(DirectKey(lane.alert, lane.channel))
  {
    KeysNotBlank(lane.alert, 0, lane.channel);
  }

  /** Adopting a row under a key no row of the lane has keeps direct keys unique. */
  lemma AdoptKeepsKeyed(t: Table, lane: Lane, x: nat)
    requires Keyed(t) && Unkeyed(t, lane, x) && !exists d :: DirectRow(t, lane, d)
    ensures Keyed(t[x := Adopted(t[x], DirectKey(lane.alert, lane.channel))])
  {
    var after := t[x := Adopted(t[x], DirectKey(lane.alert, lane.channel))];
    forall l, i, j | DirectRow(after, l, i) && DirectRow(after, l, j) ensures i == j {
      if i != x {
        assert DirectRow(t, l, i);
      }
      if j != x {
        assert DirectRow(t, l, j);
      }
    }
  }

  lemma PromoteKeepsKeyed(t: Table, d: nat)
    requires Keyed(t) && d in t
    ensures Keyed(t[d := Promoted(t[d])])
  {
    var after := t[d := Promoted(t[d])];
    forall l, i, j | DirectRow(after, l, i) && DirectRow(after, l, j) ensures i == j {
      assert DirectRow(t, l, i) && DirectRow(t, l, j);
    }
  }

  /** Repair preserves the keys, whatever row it starts from. */
  lemma RepairKeepsKeyed(t: Table, a: AlertFacts, now: int, c: nat)
    requires Keyed(t) && c in t
    ensures Keyed(Repaired(t, a, now, c).table)
  {
    var row, lane := t[c], LaneOf(t[c]);
    DirectKeyNotBlank(lane);
    if IsBlank(row.key) && !Repairable(a) {
      var after := t[c := Marked(row)];
      forall l, i, j | DirectRow(after, l, i) && DirectRow(after, l, j) ensures i == j {
        assert DirectRow(t, l, i) && DirectRow(t, l, j);
      }
    } else if !IsBlank(row.key) {
      PromoteKeepsKeyed(t, c);
    } else if exists d :: DirectRow(t, lane, d) {
      forall d | DirectRow(t, lane, d) ensures Keyed(t[d := Promoted(t[d])]) {
        PromoteKeepsKeyed(t, d);
      }
    } else {
      forall x | IsChosen(t, lane, now, x) ensures Keyed(t[x := Adopted(t[x], DirectKey(lane.alert, lane.channel))]) {
        AdoptKeepsKeyed(t, lane, x);
      }
    }
  }

  /** With a confirmed direct row, repair changes nothing and answers that row. */
  lemma SettledLane(t: Table, lane: Lane, a: AlertFacts, now: int, c: nat, d: nat)
    requires Keyed(t) && Repairable(a) && Candidate(t, lane, c)
    requires DirectRow(t, lane, d) && t[d].status == Sent
    ensures Repaired(t, a, now, c) == Repair(t, d, true)
  {
    DirectKeyNotBlank(lane);
    assert t[d := Promoted(t[d])] == t;
  }

  /** With any confirmed, known legacy row, one repair makes the direct row a
      confirmed one. */
  lemma EvidenceSettles(t: Table, lane: Lane, a: AlertFacts, now: int, c: nat)
    requires Keyed(t) && Repairable(a) && Candidate(t, lane, c) && SentEvidence(t, lane)
    ensures var r := Repaired(t, a, now, c);
      r.eligible && DirectRow(r.table, lane, r.row) && r.table[r.row].status == Sent
  {
    DirectKeyNotBlank(lane);
    var b :| Known(t, lane, b) && t[b].status == Sent;
    assert UnkeyedSent(t, lane);
    if IsBlank(t[c].key) && !exists d :: DirectRow(t, lane, d) {
      ChosenExists(t, lane, now, b);
      forall x | IsChosen(t, lane, now, x) ensures t[x].status == Sent {
        assert Rank(t[b], now) == 2;
      }
    }
  }

  /** A lane with a known legacy row has an authoritative one. */
  lemma {:induction false} ChosenExists(t: Table, lane: Lane, now: int, b: nat)
    requires Known(t, lane, b)
    ensures exists x :: IsChosen(t, lane, now, x)
    decreases |t|
  {
    if !IsChosen(t, lane, now, b) {
      var k: nat :| Known(t, lane, k)
        && !(Rank(t[k], now) < Rank(t[b], now) || (Rank(t[k], now) == Rank(t[b], now) && k <= b));
      var rest := t - {b};
      assert rest.Keys == t.Keys - {b};
      assert Known(rest, lane, k);
      ChosenExists(rest, lane, now, k);
      var x :| IsChosen(rest, lane, now, x);
      forall y | Known(t, lane, y)
        ensures Rank(t[y], now) < Rank(t[x], now) || (Rank(t[y], now) == Rank(t[x], now) && y <= x)
      {
        assert y == b || Known(rest, lane, y);
      }
      assert IsChosen(t, lane, now, x);
    }
  }

  /** Starting from any unkeyed or direct-key row of a channel whose unkeyed rows
      include a confirmed send, the repaired row cannot be claimed, neither
      automatically nor by force, at any time; and repairing again, from any such
      row and at any time, yields the same row and changes nothing. */
  lemma ConfirmedLegacyNeverResent(t: Table, lane: Lane, a: AlertFacts, now: int, c: nat)
    requires Keyed(t) && Repairable(a) && Candidate(t, lane, c) && UnkeyedSent(t, lane) && MarksAreFinal(t, lane, a)
    ensures var r := Repaired(t, a, now, c);
      && r.row in r.table
      && (forall later, force :: !Claimable(r.table[r.row], later, force))
      && (forall b, later, e :: Repairable(b) && Candidate(r.table, lane, e) ==> Repaired(r.table, b, later, e) == r)
  {
    var b :| Unkeyed(t, lane, b) && t[b].status == Sent;
    assert Known(t, lane, b);
    EvidenceSettles(t, lane, a, now, c);
    RepairKeepsKeyed(t, a, now, c);
    var r := Repaired(t, a, now, c);
    forall b, later, e | Repairable(b) && Candidate(r.table, lane, e) ensures Repaired(r.table, b, later, e) == r {
      SettledLane(r.table, lane, b, later, e, r.row);
    }
  }

  /** While a known legacy send is live, repair answers nothing that can be claimed: no
      second send starts beside it. */
  lemma LiveSendIsAuthority(t: Table, lane: Lane, a: AlertFacts, now: int, c: nat, b: nat, force: bool)
    requires Keyed(t) && Repairable(a) && Candidate(t, lane, c) && Known(t, lane, b) && LiveSending(t[b], now)
    ensures var r := Repaired(t, a, now, c); r.row in r.table && !Claimable(r.table[r.row], now, force)
  {
    DirectKeyNotBlank(lane);
    if exists d :: DirectRow(t, lane, d) {
      NewestLiveExists(t, lane, now, b);
    } else {
      ChosenExists(t, lane, now, b);
      forall x | IsChosen(t, lane, now, x) ensures Rank(t[x], now) >= 1 {
        assert Rank(t[b], now) >= 1;
      }
    }
  }

  lemma {:induction false} NewestLiveExists(t: Table, lane: Lane, now: int, b: nat)
    requires Unkeyed(t, lane, b) && LiveSending(t[b], now)
    ensures exists x :: IsNewestLive(t, lane, now, x)
    decreases |t|
  {
    if !IsNewestLive(t, lane, now, b) {
      var k: nat :| Unkeyed(t, lane, k) && LiveSending(t[k], now) && !(k <= b);
      var rest := t - {b};
      assert rest.Keys == t.Keys - {b};
      assert Unkeyed(rest, lane, k);
      NewestLiveExists(rest, lane, now, k);
      var x :| IsNewestLive(rest, lane, now, x);
      forall y: nat | Unkeyed(t, lane, y) && LiveSending(t[y], now) ensures y <= x {
        assert y == b || Unkeyed(rest, lane, y);
      }
      assert IsNewestLive(t, lane, now, x);
    }
  }

  /** An alert is past repair as soon as it has escalation history, or a decision other
      than a pending or direct one. */
  lemma PastRepairIff(a: AlertFacts)
    ensures !Repairable(a) <==> a.escalationHistory || a.decision in {Suppressed, Escalated, NoChannel, Unknown}
  {
  }

  /** Exactly when repair answers a row that may be attempted at all: any keyed row, and
      an unkeyed one if its alert can be repaired and its lane has a direct row or a
      known legacy one. Escalation intents, and direct ones of an alert past repair, are
      answered as they are. */
  lemma EligibleIff(t: Table, a: AlertFacts, now: int, c: nat)
    requires c in t
    ensures var lane, r := LaneOf(t[c]), Repaired(t, a, now, c);
      && (r.eligible <==>
            || !IsBlank(t[c].key)
            || (Repairable(a) && ((exists d :: DirectRow(t, lane, d)) || exists b :: Known(t, lane, b))))
      && r.row in r.table && LaneOf(r.table[r.row]) == lane
      && (!IsBlank(t[c].key) && (t[c].key != DirectKey(lane.alert, lane.channel) || !Repairable(a)) ==>
            r == Repair(t, c, true))
      && (!r.eligible ==> r.table == if Repairable(a) then t else t[c := t[c].(decision := UnknownIntent)])
  {
    var lane := LaneOf(t[c]);
    if exists b :: Known(t, lane, b) {
      var b :| Known(t, lane, b);
      ChosenExists(t, lane, now, b);
    }
  }

  /** Exactly when the repaired row is a confirmed one, on any table. Rows marked
      unknown promote an existing direct row but are never adopted when there is
      none; where marks are final the two sides agree. */
  lemma RepairedSentIff(t: Table, lane: Lane, a: AlertFacts, now: int, c: nat)
    requires Keyed(t) && Repairable(a) && Candidate(t, lane, c) && Repaired(t, a, now, c).eligible
    ensures var r := Repaired(t, a, now, c);
      r.table[r.row].status == Sent <==>
        if exists d :: DirectRow(t, lane, d) then UnkeyedSent(t, lane) || DirectSent(t, lane) else SentEvidence(t, lane)
    ensures MarksAreFinal(t, lane, a) ==> (UnkeyedSent(t, lane) <==> SentEvidence(t, lane))
  {
    DirectKeyNotBlank(lane);
    if exists d :: DirectRow(t, lane, d) {
      var d :| DirectRow(t, lane, d);
      assert forall k :: DirectRow(t, lane, k) ==> k == d;
    } else {
      forall x | IsChosen(t, lane, now, x) ensures t[x].status == Sent <==> SentEvidence(t, lane) {
        if SentEvidence(t, lane) {
          var b :| Known(t, lane, b) && t[b].status == Sent;
          assert Rank(t[b], now) == 2;
        }
      }
    }
  }

  /** A step that the runs of one delivery row allow a repair to make. */
  predicate RepairsRow(a: Row, b: Row) {
    || b == a || b == RepairedRow(a, Promote) || b == RepairedRow(a, Mark)
    || b == RepairedRow(a, Adopt(DirectKey(a.alert, a.channel)))
  }

  /** One repair of the table moves every row as the runs of a single row allow. */
  lemma RepairMovesRows(t: Table, a: AlertFacts, now: int, c: nat, id: nat)
    requires c in t && id in t
    ensures Repaired(t, a, now, c).table.Keys == t.Keys
    ensures RepairsRow(t[id], Repaired(t, a, now, c).table[id])
  {
    var lane := LaneOf(t[c]);
    if IsBlank(t[c].key) && Repairable(a) && !exists d :: DirectRow(t, lane, d) {
      if exists x :: IsChosen(t, lane, now, x) {
        forall x | IsChosen(t, lane, now, x)
          ensures RepairsRow(t[x], Adopted(t[x], DirectKey(lane.alert, lane.channel))) {}
      }
    }
  }
}
