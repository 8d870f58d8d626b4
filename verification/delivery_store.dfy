/** The delivery table and the transactions that change it: claim, completion,
    repair, intents and the routing decision. */
module DeliveryStore {
  import opened Basics
  import opened AlertRows
  import opened DeliveryProtocol
  import opened DeliveryRepair
  import opened AlertRouting

  /** What a delivery attempt meets outside the table. */
  datatype Lookup = Present | Deleted | Unreadable
  datatype Send = SendOk | SendError(permanent: bool)
  datatype World = World(integration: Lookup, alert: Lookup, send: Send, failedAt: int, doneAt: int)

  /** What the attempt reports: given up, delivered, or to be retried. */
  function Report(count: int, force: bool, w: World): (Status, Option<int>) {
    if w.integration == Deleted then (Failed, None)
    else if w.integration == Unreadable then RetryResult(count, w.failedAt, false)
    else if w.alert == Deleted then (Failed, None)
    else if w.alert == Unreadable then RetryResult(count, w.failedAt, false)
    else if w.send.SendOk? then (Sent, None)
    else RetryResult(count, w.failedAt, force || w.send.permanent)
  }

  /** The row after one whole attempt; a result later than the lease is dropped. */
  function AttemptedRow(row: Row, attempt: nat, now: int, force: bool, w: World): Row {
    if !Claimable(row, now, force) then row
    else
      var claimed := ClaimedRow(row, attempt, now);
      var (status, next) := Report(claimed.count, force, w);
      if Completable(claimed, attempt, w.doneAt) then CompletedRow(claimed, status, next, w.doneAt) else claimed
  }

  /** Exactly the unkeyed rows of the lane, newest first. */
  ghost predicate IsBlankList(t: Table, lane: Lane, list: seq<Row>) {
    && (forall i :: 0 <= i < |list| ==> Unkeyed(t, lane, list[i].id) && t[list[i].id] == list[i])
    && (forall i, j :: 0 <= i < j < |list| ==> list[i].id > list[j].id)
    && (forall id: nat :: Unkeyed(t, lane, id) ==> t[id] in list)
  }

  predicate NewestFirst(list: seq<Row>) { forall i, j :: 0 <= i < j < |list| ==> list[i].id > list[j].id }

  lemma TailIsOlder(list: seq<Row>)
    requires NewestFirst(list) && list != []
    ensures forall x :: x in list[1..] ==> x.id < list[0].id
  {
    forall x | x in list[1..] ensures x.id < list[0].id {
      var k :| 0 <= k < |list[1..]| && list[1..][k] == x;
      assert list[k + 1] == x;
    }
  }

  function InsertNewestFirst(row: Row, list: seq<Row>): (r: seq<Row>)
    requires NewestFirst(list) && forall x :: x in list ==> x.id != row.id
    ensures NewestFirst(r) && |r| == |list| + 1
    ensures forall x :: x in r <==> x == row || x in list
  {
    if list == [] then [row]
    else if row.id > list[0].id then [row] + list
    else
      var rest := InsertNewestFirst(row, list[1..]);
      assert forall x :: x in list <==> x == list[0] || x in list[1..];
      TailIsOlder(list);
      assert forall x :: x in rest ==> x.id < list[0].id;
      [list[0]] + rest
  }

  // ---------------------------------------------------------------- outcomes

  /** Both lookups answered and the send was made. */
  predicate Reached(w: World) { w.integration.Present? && w.alert.Present? }

  /** The lookup that failed, if any, was only unreadable, or the send failed in a way
      that a later, unforced attempt may mend. */
  predicate Transient(force: bool, w: World) {
    || w.integration.Unreadable?
    || (w.integration.Present? && w.alert.Unreadable?)
    || (Reached(w) && w.send == SendError(false) && !force)
  }

  /** Nothing to send to or about, or a failure no retry may follow. */
  predicate Hopeless(force: bool, w: World) {
    || w.integration.Deleted?
    || (w.integration.Present? && w.alert.Deleted?)
    || (Reached(w) && w.send.SendError? && (force || w.send.permanent))
  }

  /** What one attempt makes of a row, told by the send and not by the report: an
      unclaimable row stays; a result later than the lease is dropped and the row is
      claimable again exactly when the lease is over; a delivery confirms the row; a
      hopeless failure ends it for all but forced claims; any other is retried exactly from its backoff on,
      until the attempts are used up. */
  ghost predicate AttemptOutcome(row: Row, after: Row, attempt: nat, now: int, force: bool, w: World) {
    var inTime := w.doneAt < now + LEASE_DURATION;
    && after.id == row.id && LaneOf(after) == LaneOf(row) && after.key == row.key && after.decision == row.decision
    && (!Claimable(row, now, force) ==> after == row)
    && (Claimable(row, now, force) ==>
          && after.attempt == Some(attempt) && after.count == row.count + 1
          && (after.status == Sent <==> inTime && Reached(w) && w.send.SendOk?)
          && (after.status == Sent ==> after.sentAt == Some(w.doneAt))
          && (after.status != Sent ==> after.sentAt == row.sentAt)
          && (after.status == Failed ==> forall later, forced :: Claimable(after, later, forced) <==> forced)
          && (inTime && Hopeless(force, w) ==> after.status == Failed)
          && (inTime && Transient(force, w) && after.count >= MAX_ATTEMPTS ==> after.status == Failed)
          && (inTime && Transient(force, w) && after.count < MAX_ATTEMPTS ==>
                && after.status == Retrying
                && forall later :: Claimable(after, later, false) <==>
                  later >= w.failedAt + BackoffDuration(after.count))
          && (inTime && !Reached(w) ==> Hopeless(force, w) || Transient(force, w))
          && (!inTime ==>
                && after.status == Sending
                && forall later, forced :: Claimable(after, later, forced) <==> later >= now + LEASE_DURATION))
  }

  lemma AttemptHasOutcome(row: Row, attempt: nat, now: int, force: bool, w: World)
    ensures AttemptOutcome(row, AttemptedRow(row, attempt, now, force, w), attempt, now, force, w)
  {
  }

  class DeliveryTable {
    var rows: Table
    var next: nat
    var decisions: map<nat, Decision>
    var escalated: set<nat>

    ghost predicate Valid() reads this { Keyed(rows) && forall id :: id in rows ==> id < next }

    function Facts(alert: nat): AlertFacts
      requires alert in decisions
      reads this
    {
      AlertFacts(decisions[alert], alert in escalated)
    }

    constructor ()
      ensures Valid() && rows == map[] && next == 1 && decisions == map[] && escalated == {}
    {
      rows, next, decisions, escalated := map[], 1, map[], {};
    }

    // -------------------------------------------------------------- attempts

    method ClaimDelivery(id: nat, attempt: nat, now: int, force: bool) returns (claimed: Option<Row>)
      requires Valid()
      modifies this`rows
      ensures Valid()
      ensures if id in old(rows) && Claimable(old(rows)[id], now, force)
        then rows == old(rows)[id := ClaimedRow(old(rows)[id], attempt, now)] && claimed == Some(rows[id])
        else rows == old(rows) && claimed == None
    {
      if id !in rows { return None; }
      var row := rows[id];
      if row.decision != Deliver && row.decision != Blank { return None; }
      var expired := row.status == Sending && row.lease.Some? && row.lease.value <= now;
      if force {
        if row.status != Pending && row.status != Retrying && row.status != Failed && !expired { return None; }
      } else {
        var due := row.status == Retrying && (row.nextRetry.None? || row.nextRetry.value <= now);
        if row.status != Pending && !due && !expired { return None; }
      }
      if row.lease.Some? && row.lease.value > now { return None; }
      row := row.(status := Sending, attempt := Some(attempt), lease := Some(now + LEASE_DURATION),
                  count := row.count + 1, nextRetry := None);
      ChangeKeepsKeyed(rows, id, row);
      rows := rows[id := row];
      return Some(row);
    }

    method CompleteDelivery(id: nat, attempt: nat, status: Status, nextRetry: Option<int>, now: int)
      requires Valid()
      modifies this`rows
      ensures Valid()
      ensures rows == if id in old(rows) && Completable(old(rows)[id], attempt, now)
        then old(rows)[id := CompletedRow(old(rows)[id], status, nextRetry, now)] else old(rows)
    {
      if id !in rows { return; }
      var row := rows[id];
      if row.status != Sending || row.attempt != Some(attempt) || row.lease.None? || row.lease.value <= now { return; }
      row := row.(status := status, lease := None, nextRetry := nextRetry);
      if status == Sent { row := row.(sentAt := Some(now)); }
      ChangeKeepsKeyed(rows, id, row);
      rows := rows[id := row];
    }

    // ---------------------------------------------------------------- repair

    method LoadBlankRows(lane: Lane) returns (list: seq<Row>)
      requires Valid()
      ensures IsBlankList(rows, lane, list)
    {
      list := [];
      var pending := rows.Keys;
      while pending != {}
        invariant pending <= rows.Keys && NewestFirst(list)
        invariant forall x :: x in list ==> x.id !in pending && Unkeyed(rows, lane, x.id) && rows[x.id] == x
        invariant forall id: nat :: Unkeyed(rows, lane, id) && id !in pending ==> rows[id] in list
        decreases pending
      {
        var id :| id in pending;
        if Unkeyed(rows, lane, id) { list := InsertNewestFirst(rows[id], list); }
        pending := pending - {id};
      }
    }

    /** Three passes over the newest-first list pick the authoritative row. */
    method ChooseLegacyDeliveryRow(list: seq<Row>, now: int, ghost lane: Lane) returns (chosen: Option<Row>)
      requires Valid() && IsBlankList(rows, lane, list)
      ensures chosen.Some? ==> IsChosen(rows, lane, now, chosen.value.id) && rows[chosen.value.id] == chosen.value
      ensures chosen.None? ==> forall id: nat :: !Known(rows, lane, id)
    {
      var at := FirstOfRank(list, now, 2);
      if at.None? { at := FirstOfRank(list, now, 1); }
      if at.None? { at := FirstOfRank(list, now, 0); }
      if at.None? {
        NoneKnown(rows, lane, list);
        return None;
      }
      ChosenAt(rows, lane, now, list, at.value);
      return Some(list[at.value]);
    }

    /** One pass: the newest row of this rank that is not marked unknown. */
    method FirstOfRank(list: seq<Row>, now: int, rank: nat) returns (at: Option<nat>)
      ensures at.Some? ==> at.value < |list|
      ensures at.Some? ==> list[at.value].decision != UnknownIntent && Rank(list[at.value], now) == rank
      ensures forall k :: 0 <= k < (if at.Some? then at.value else |list|) && list[k].decision != UnknownIntent ==>
        Rank(list[k], now) != rank
    {
      for i := 0 to |list|
        invariant forall k :: 0 <= k < i && list[k].decision != UnknownIntent ==> Rank(list[k], now) != rank
      {
        if list[i].decision != UnknownIntent && Rank(list[i], now) == rank { return Some(i); }
      }
      return None;
    }

    /** A direct row takes over the evidence of the unkeyed rows of its lane. */
    method ReconcileCanonicalDirect(lane: Lane, d: nat, now: int) returns (row: nat)
      requires Valid() && d in rows
      modifies this`rows
      ensures Valid()
      ensures var r := WithDirect(old(rows), lane, now, d); rows == r.table && row == r.row
    {
      var list := LoadBlankRows(lane);
      var i := 0;
      while i < |list|
        invariant 0 <= i <= |list|
        invariant forall k :: 0 <= k < i ==> list[k].status != Sent
      {
        if list[i].status == Sent {
          assert UnkeyedSent(rows, lane) by { assert Unkeyed(rows, lane, list[i].id); }
          PromoteKeepsKeyed(rows, d);
          if rows[d].status != Sent {
            rows := rows[d := rows[d].(status := Sent, lease := None, nextRetry := None)];
          } else {
            assert rows[d := Promoted(rows[d])] == rows;
          }
          return d;
        }
        i := i + 1;
      }
      assert !UnkeyedSent(rows, lane);
      if rows[d].status != Sent {
        i := 0;
        while i < |list|
          invariant 0 <= i <= |list| && rows == old(rows)
          invariant forall k :: 0 <= k < i ==> !LiveSending(list[k], now)
        {
          if list[i].status == Sending && list[i].lease.Some? && list[i].lease.value > now {
            NewestLiveAt(rows, lane, now, list, i);
            assert IsNewestLive(rows, lane, now, list[i].id);
            return list[i].id;
          }
          i := i + 1;
        }
        assert !exists b :: IsNewestLive(rows, lane, now, b);
      }
      return d;
    }

    /** Repairs the identity of a candidate before anyone may claim it. */
    method CanonicalizeDeliveryCandidate(c: nat, now: int) returns (r: Result<(nat, bool)>)
      requires Valid()
      modifies this`rows
      ensures Valid()
      ensures c !in old(rows) ==> r == Err(NotFound) && rows == old(rows)
      ensures c in old(rows) && old(rows)[c].alert !in decisions ==> r == Ok((c, true)) && rows == old(rows)
      ensures c in old(rows) && old(rows)[c].alert in decisions ==>
        var rep := Repaired(old(rows), Facts(old(rows)[c].alert), now, c);
        rows == rep.table && r == Ok((rep.row, rep.eligible))
    {
      if c !in rows { return Err(NotFound); }
      var current := rows[c];
      if current.alert !in decisions { return Ok((c, true)); }
      var lane, facts := LaneOf(current), Facts(current.alert);
      var key := DirectKey(lane.alert, lane.channel);
      RepairKeepsKeyed(rows, facts, now, c);
      if !IsBlank(current.key) {
        if current.key != key || !Repairable(facts) { return Ok((c, true)); }
        var row := ReconcileCanonicalDirect(lane, c, now);
        return Ok((row, true));
      }
      if !Repairable(facts) {
        if current.decision != UnknownIntent {
          rows := rows[c := current.(decision := UnknownIntent)];
        } else {
          assert rows[c := current.(decision := UnknownIntent)] == rows;
        }
        return Ok((c, false));
      }
      var direct := set id | id in rows && DirectRow(rows, lane, id);
      if direct != {} {
        var d :| d in direct;
        assert DirectRow(rows, lane, d) && forall k :: DirectRow(rows, lane, k) ==> k == d;
        var row := ReconcileCanonicalDirect(lane, d, now);
        return Ok((row, true));
      }
      assert forall d :: DirectRow(rows, lane, d) ==> d in direct;
      var list := LoadBlankRows(lane);
      var chosen := ChooseLegacyDeliveryRow(list, now, lane);
      if chosen.None? { return Ok((c, false)); }
      var x := chosen.value;
      assert forall y :: IsChosen(rows, lane, now, y) ==> y == x.id;
      rows := rows[x.id := x.(key := key, decision := if x.decision == Blank then Deliver else x.decision)];
      return Ok((x.id, true));
    }

    /** Claim, send outside any transaction, report under the lease. */
    method AttemptRow(id: nat, attempt: nat, now: int, force: bool, w: World)
      requires Valid() && id in rows
      modifies this`rows
      ensures Valid()
      ensures rows == old(rows)[id := AttemptedRow(old(rows)[id], attempt, now, force, w)]
      ensures AttemptOutcome(old(rows)[id], rows[id], attempt, now, force, w)
    {
      AttemptHasOutcome(rows[id], attempt, now, force, w);
      var claimed := ClaimDelivery(id, attempt, now, force);
      if claimed.None? {
        assert rows[id := rows[id]] == rows;
        return;
      }
      var row := claimed.value;
      var status, nextRetry := Sent, None;
      if w.integration == Deleted || (w.integration == Present && w.alert == Deleted) {
        status := Failed;
      } else if w.integration == Unreadable || w.alert == Unreadable {
        var result := RetryResult(row.count, w.failedAt, false);
        status, nextRetry := result.0, result.1;
      } else if w.send.SendError? {
        var result := RetryResult(row.count, w.failedAt, force || w.send.permanent);
        status, nextRetry := result.0, result.1;
      }
      CompleteDelivery(row.id, attempt, status, nextRetry, w.doneAt);
    }

    /** First delivery, automatic retry and manual retry alike: repair, claim, send
        outside any transaction, report under the lease. The clock is read anew for
        the claim, so a lease may run out after the repair. */
    method RunDeliveryAttempt(c: nat, attempt: nat, repairAt: int, now: int, force: bool, w: World)
        returns (r: Result<()>)
      requires Valid()
      modifies this`rows
      ensures Valid()
      ensures c !in old(rows) ==> r == Err(NotFound) && rows == old(rows)
      ensures c in old(rows) && old(rows)[c].alert in decisions ==>
        var rep := Repaired(old(rows), Facts(old(rows)[c].alert), repairAt, c);
        && r.Ok? && rep.row in rep.table
        && rows == if rep.eligible
                   then rep.table[rep.row := AttemptedRow(rep.table[rep.row], attempt, now, force, w)]
                   else rep.table
      ensures c in old(rows) && old(rows)[c].alert !in decisions ==>
        r.Ok? && rows == old(rows)[c := AttemptedRow(old(rows)[c], attempt, now, force, w)]
      ensures c in old(rows) && old(rows)[c].alert in decisions ==>
        var rep := Repaired(old(rows), Facts(old(rows)[c].alert), repairAt, c);
        && rep.row in rep.table && rep.row in rows
        && (rep.eligible ==> AttemptOutcome(rep.table[rep.row], rows[rep.row], attempt, now, force, w))
      ensures c in old(rows) && old(rows)[c].alert !in decisions ==>
        c in rows && AttemptOutcome(old(rows)[c], rows[c], attempt, now, force, w)
    {
      var canonical := CanonicalizeDeliveryCandidate(c, repairAt);
      if canonical.Err? { return Err(canonical.error); }
      var (id, eligible) := canonical.value;
      if eligible { AttemptRow(id, attempt, now, force, w); }
      return Ok(());
    }

    // --------------------------------------------------------------- routing

    ghost function Deliveries(): Deliveries reads this { AlertRouting.Deliveries.Deliveries(rows, next) }

    /** Finds, adopts or creates the intent with this key, and answers with its row. */
    method EnsureDeliveryIntent(lane: Lane, key: string, adoptLegacy: bool) returns (r: Result<Row>)
      requires Valid() && lane.alert in decisions && !IsBlank(key)
      modifies this`rows, this`next
      ensures Valid()
      ensures match Ensured(old(Deliveries()), lane, key, adoptLegacy, Facts(lane.alert))
        case Ok(after) => Deliveries() == after && r.Ok?
        case Err(e) => Deliveries() == old(Deliveries()) && r == Err(e)
      ensures r.Ok? ==> r.value.id in rows && rows[r.value.id] == r.value && r.value.key == key
      ensures r.Ok? ==> Answers(old(Deliveries()), lane, key, adoptLegacy, r.value.id)
    {
      var found := set id | id in rows && rows[id].key == key;
      assert forall id :: id in rows && rows[id].key == key ==> id in found;
      if found != {} {
        var id :| id in found;
        return Ok(rows[id]);
      }
      assert !KeyTaken(rows, key);
      if adoptLegacy {
        if !Repairable(Facts(lane.alert)) { return Err(NotFound); }
        var list := LoadBlankRows(lane);
        var i := |list|;
        while i > 0
          invariant 0 <= i <= |list|
          invariant forall k :: i <= k < |list| ==> list[k].decision == UnknownIntent
        {
          i := i - 1;
          if list[i].decision != UnknownIntent {
            OldestKnownAt(rows, lane, list, i);
            assert IsOldestKnown(rows, lane, list[i].id);
            KeyChangeKeepsKeyed(rows, list[i].id, Adopted(list[i], key));
            var intent := list[i].(key := key);
            if intent.decision == Blank { intent := intent.(decision := Deliver); }
            rows := rows[intent.id := intent];
            return Ok(intent);
          }
        }
        NoneKnown(rows, lane, list);
      }
      NewRowKeepsKeyed(rows, next, NewIntent(next, lane, key));
      var intent := Row(next, lane.alert, lane.channel, key, Deliver, Pending, None, None, 0, None, None);
      rows := rows[next := intent];
      next := next + 1;
      return Ok(intent);
    }

    /** Intents for all channels and the decision, in one transaction. */
    method CommitDeliveryDecision(alert: nat, decision: Decision, channels: seq<nat>) returns (r: Result<()>)
      requires Valid()
      modifies this`rows, this`next, this`decisions
      ensures Valid()
      ensures alert !in old(decisions) ==>
        r == Err(NotFound) && decisions == old(decisions) && Deliveries() == old(Deliveries())
      ensures alert in old(decisions) ==>
        match Committed(old(Deliveries()), alert, old(Facts(alert)), decision, channels)
        case Ok(after) => r == Ok(()) && Deliveries() == after.0 && decisions == old(decisions)[alert := after.1]
        case Err(e) => r == Err(e) && Deliveries() == old(Deliveries()) && decisions == old(decisions)
    {
      if alert !in decisions { return Err(NotFound); }
      var current := decisions[alert];
      if decision == Direct && CanBeDirect(current) {
        var savedRows, savedNext := rows, next;
        assert channels[..|channels|] == channels;
        for i := 0 to |channels|
          invariant Valid() && decisions == old(decisions)
          invariant EnsuredAll(old(Deliveries()), alert, channels[..i], old(Facts(alert))) == Ok(Deliveries())
        {
          KeysNotBlank(alert, 0, channels[i]);
          assert channels[..i + 1][..i] == channels[..i];
          var ensured := EnsureDeliveryIntent(Lane(alert, channels[i]), DirectKey(alert, channels[i]), true);
          if ensured.Err? {
            EnsuredAllFails(old(Deliveries()), alert, channels, i + 1, old(Facts(alert)));
            rows, next := savedRows, savedNext;
            return Err(ensured.error);
          }
        }
      }
      if current != Undecided && current != PendingDecision {
        assert decisions[alert := current] == decisions;
        return Ok(());
      }
      decisions := decisions[alert := decision];
      return Ok(());
    }
  }

  lemma ChangeKeepsKeyed(t: Table, id: nat, row: Row)
    requires Keyed(t) && id in t && row.id == id && LaneOf(row) == LaneOf(t[id]) && row.key == t[id].key
    ensures Keyed(t[id := row])
  {
    var u := t[id := row];
    forall l, i, j | DirectRow(u, l, i) && DirectRow(u, l, j) ensures i == j {
      assert DirectRow(t, l, i) && DirectRow(t, l, j);
    }
  }

  /** A known row of a newest-first list that outranks every row before it and is
      not outranked by any after it is the authoritative one. */
  lemma ChosenAt(t: Table, lane: Lane, now: int, list: seq<Row>, i: nat)
    requires Keyed(t) && IsBlankList(t, lane, list) && i < |list| && list[i].decision != UnknownIntent
    requires forall k :: 0 <= k < i && list[k].decision != UnknownIntent ==> Rank(list[k], now) < Rank(list[i], now)
    requires forall k :: i < k < |list| && list[k].decision != UnknownIntent ==>
      Rank(list[k], now) <= Rank(list[i], now)
    ensures IsChosen(t, lane, now, list[i].id)
  {
    forall k: nat | Known(t, lane, k)
      ensures Rank(t[k], now) < Rank(list[i], now) || (Rank(t[k], now) == Rank(list[i], now) && k <= list[i].id)
    {
      var at :| 0 <= at < |list| && list[at] == t[k];
    }
  }

  lemma NoneKnown(t: Table, lane: Lane, list: seq<Row>)
    requires IsBlankList(t, lane, list) && forall k :: 0 <= k < |list| ==> list[k].decision == UnknownIntent
    ensures forall id: nat :: !Known(t, lane, id)
  {
    forall id: nat | Unkeyed(t, lane, id) ensures !Known(t, lane, id) {
      var at :| 0 <= at < |list| && list[at] == t[id];
    }
  }

  lemma NewestLiveAt(t: Table, lane: Lane, now: int, list: seq<Row>, i: nat)
    requires Keyed(t) && IsBlankList(t, lane, list) && i < |list| && LiveSending(list[i], now)
    requires forall k :: 0 <= k < i ==> !LiveSending(list[k], now)
    ensures forall b :: IsNewestLive(t, lane, now, b) <==> b == list[i].id
  {
    forall k: nat | Unkeyed(t, lane, k) && LiveSending(t[k], now) ensures k <= list[i].id {
      var at :| 0 <= at < |list| && list[at] == t[k];
    }
  }

  lemma OldestKnownAt(t: Table, lane: Lane, list: seq<Row>, i: nat)
    requires Keyed(t) && IsBlankList(t, lane, list) && i < |list| && list[i].decision != UnknownIntent
    requires forall k :: i < k < |list| ==> list[k].decision == UnknownIntent
    ensures forall b :: IsOldestKnown(t, lane, b) <==> b == list[i].id
  {
    forall k: nat | Known(t, lane, k) ensures list[i].id <= k {
      var at :| 0 <= at < |list| && list[at] == t[k];
    }
    assert IsOldestKnown(t, lane, list[i].id);
  }

  lemma KeyChangeKeepsKeyed(t: Table, id: nat, row: Row)
    requires Keyed(t) && id in t && row.id == id && !KeyTaken(t, row.key)
    ensures Keyed(t[id := row])
  {
    var u := t[id := row];
    forall l, i, j | DirectRow(u, l, i) && DirectRow(u, l, j) ensures i == j {
      if i != id {
        assert DirectRow(t, l, i);
      }
      if j != id {
        assert DirectRow(t, l, j);
      }
    }
  }

  lemma NewRowKeepsKeyed(t: Table, id: nat, row: Row)
    requires Keyed(t) && id !in t && row.id == id && !KeyTaken(t, row.key)
    ensures Keyed(t[id := row])
  {
    var u := t[id := row];
    forall l, i, j | DirectRow(u, l, i) && DirectRow(u, l, j) ensures i == j {
      if i != id {
        assert DirectRow(t, l, i);
      }
      if j != id {
        assert DirectRow(t, l, j);
      }
    }
  }

  /** A failure at one channel fails the whole list with the same error. */
  lemma {:induction false} EnsuredAllFails(d: Deliveries, alert: nat, channels: seq<nat>, k: nat, facts: AlertFacts)
    requires k <= |channels| && EnsuredAll(d, alert, channels[..k], facts).Err?
    ensures EnsuredAll(d, alert, channels, facts) == EnsuredAll(d, alert, channels[..k], facts)
    decreases |channels|
  {
    if k == |channels| {
      assert channels[..k] == channels;
    } else {
      var init := channels[..|channels| - 1];
      assert init[..k] == channels[..k];
      EnsuredAllFails(d, alert, init, k, facts);
    }
  }
}
