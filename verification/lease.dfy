/** Recovery-point leases: rows changed by guarded updates, fences that prove
    possession, and what holds over every run with a non-decreasing clock. */
module LeaseFencing {
  import opened Basics

  const MAX_ABSOLUTE_DEADLINE := 168 * 3600 * SECOND

  datatype Holder =
    | RsyncParent | CatalogBuild | ContentSession | ProcessingJob | ExportJob
    | RecoveryJob | PointPublication | SearchIndex | RetentionWorker

  datatype Status = Active | Released | Expired

  datatype Config = Config(duration: int, heartbeat: int, absoluteDeadline: int)

  predicate ValidConfig(c: Config) {
    && 0 < c.heartbeat < c.duration
    && c.duration <= c.absoluteDeadline <= MAX_ABSOLUTE_DEADLINE
  }

  datatype Slot = Slot(point: string, holder: Holder, owner: string)

  datatype Row = Row(
    id: nat, slot: Slot, attempt: nat, token: nat, status: Status,
    expiresAt: int, deadline: int, heartbeatAt: int, releasedAt: Option<int>,
    createdAt: int, updatedAt: int)

  datatype Fence = Fence(leaseId: nat, slot: Slot, attempt: nat, token: nat)

  type Table = map<nat, Row>

  function FenceOf(row: Row): Fence { Fence(row.id, row.slot, row.attempt, row.token) }

  predicate Live(row: Row, now: int) { row.status == Active && now < row.expiresAt && now < row.deadline }

  /** A fence validates when its row carries exactly this identity and is live. */
  predicate Validates(t: Table, now: int, f: Fence) {
    f.leaseId in t && FenceOf(t[f.leaseId]) == f && Live(t[f.leaseId], now)
  }

  /** The freshly drawn random values of one issue. */
  datatype Issue = Issue(id: nat, attempt: nat, token: nat)

  /** deadline None is the zero deadline; admission is the lifecycle hook's answer. */
  datatype Request = Request(slot: Slot, deadline: Option<int>, admission: Option<Error>)

  // ------------------------------------------------------------- transactions

  predicate InScope(row: Row, slot: Slot) {
    && row.slot.point == slot.point
    && row.slot.holder == slot.holder
    && (slot.holder != PointPublication ==> row.slot.owner == slot.owner)
  }

  predicate NoLaterThan(a: Row, b: Row) {
    a.createdAt < b.createdAt || (a.createdAt == b.createdAt && a.id <= b.id)
  }

  ghost predicate IsLatest(t: Table, slot: Slot, id: nat) {
    && id in t && InScope(t[id], slot)
    && forall k :: k in t && InScope(t[k], slot) ==> NoLaterThan(t[k], t[id])
  }

  /** The absolute deadline an acquisition gets: independent for a zero request,
      inherited from the latest row of its scope otherwise. */
  ghost function ResolvedDeadline(c: Config, t: Table, now: int, r: Request): Result<int> {
    if r.deadline.None? then Ok(now + c.absoluteDeadline)
    else if exists id :: IsLatest(t, r.slot, id) then
      var id :| IsLatest(t, r.slot, id);
      if r.deadline.value != t[id].deadline then Err(Conflict)
      else if now >= t[id].deadline then Err(LeaseDeadlineExceeded)
      else Ok(t[id].deadline)
    else if now >= r.deadline.value then Err(LeaseDeadlineExceeded)
    else if r.deadline.value > now + MAX_ABSOLUTE_DEADLINE then Err(InvalidState)
    else Ok(r.deadline.value)
  }

  function NewRow(c: Config, now: int, slot: Slot, issue: Issue, deadline: int): Row {
    Row(issue.id, slot, issue.attempt, issue.token, Active, Min(now + c.duration, deadline), deadline, now, None,
      now, now)
  }

  predicate Indexer(h: Holder) { h == CatalogBuild || h == SearchIndex }

  predicate Abandoned(row: Row, slot: Slot, now: int) {
    row.slot == slot && row.status == Active && (row.expiresAt <= now || row.deadline <= now)
  }

  /** Indexers free their own expired slot before they claim it. */
  function Freed(t: Table, slot: Slot, now: int): Table {
    if !Indexer(slot.holder) then t
    else map id | id in t :: if Abandoned(t[id], slot, now) then t[id].(status := Expired, updatedAt := now) else t[id]
  }

  ghost predicate SlotTaken(t: Table, slot: Slot) {
    exists id :: id in t && t[id].slot == slot && t[id].status == Active
  }

  ghost function Acquired(c: Config, t: Table, now: int, r: Request, issue: Issue): Result<Table> {
    if r.slot.holder != RetentionWorker && r.admission.Some? then Err(r.admission.value)
    else
      match ResolvedDeadline(c, t, now, r)
      case Err(e) => Err(e)
      case Ok(deadline) =>
        var freed := Freed(t, r.slot, now);
        if SlotTaken(freed, r.slot) then Err(LeaseHeld)
        else if issue.id in t then Err(LeaseHeld)
        else Ok(freed[issue.id := NewRow(c, now, r.slot, issue, deadline)])
  }

  function FenceFailure(t: Table, now: int, id: nat): Error {
    if id in t && now >= t[id].deadline then LeaseDeadlineExceeded else LeaseFenceLost
  }

  function Renewed(c: Config, t: Table, now: int, f: Fence): Result<Table> {
    if !Validates(t, now, f) then Err(FenceFailure(t, now, f.leaseId))
    else
      var row := t[f.leaseId];
      Ok(t[f.leaseId := row.(expiresAt := Min(now + c.duration, row.deadline), heartbeatAt := now, updatedAt := now)])
  }

  function ReleasedBy(t: Table, now: int, f: Fence): Result<Table> {
    if !Validates(t, now, f) then Err(FenceFailure(t, now, f.leaseId))
    else Ok(t[f.leaseId := t[f.leaseId].(status := Released, releasedAt := Some(now), updatedAt := now)])
  }

  function TakenOver(c: Config, t: Table, now: int, id: nat, owner: string, issue: Issue): Result<Table> {
    if id !in t || t[id].slot.owner != owner || t[id].status != Active then Err(LeaseFenceLost)
    else if now >= t[id].deadline then Err(LeaseDeadlineExceeded)
    else if now < t[id].expiresAt then Err(LeaseHeld)
    else Ok(t[id := t[id].(attempt := issue.attempt, token := issue.token,
                           expiresAt := Min(now + c.duration, t[id].deadline),
                           heartbeatAt := now, releasedAt := None, updatedAt := now)])
  }

  function Reconciled(t: Table, now: int): Table {
    map id | id in t ::
      if t[id].status == Active && t[id].deadline <= now then t[id].(status := Expired, updatedAt := now) else t[id]
  }

  /** Other components end active rows themselves, without the fence: released, or
      for any other status expired. */
  function EndedElsewhere(t: Table, now: int, ids: set<nat>, to: Status): Table {
    map id | id in t ::
      if id !in ids || t[id].status != Active then t[id]
      else if to == Released then t[id].(status := Released, releasedAt := Some(now), updatedAt := now)
      else t[id].(status := Expired, updatedAt := now)
  }

  // -------------------------------------------------------------------- runs

  datatype Op =
    | Acquire(request: Request, issue: Issue)
    | Renew(fence: Fence)
    | Release(fence: Fence)
    | Takeover(id: nat, owner: string, issue: Issue)
    | Reconcile
    | EndElsewhere(ids: set<nat>, to: Status)
    | Wait

  /** The rows at one instant, with two history variables: the tokens drawn so
      far and the rows born of an explicit deadline. */
  datatype Moment = Moment(now: int, rows: Table, drawn: set<nat>, explicit: set<nat>)

  ghost function Attempted(c: Config, t: Table, now: int, op: Op): Result<Table> {
    match op
    case Acquire(request, issue) => Acquired(c, t, now, request, issue)
    case Renew(fence) => Renewed(c, t, now, fence)
    case Release(fence) => ReleasedBy(t, now, fence)
    case Takeover(id, owner, issue) => TakenOver(c, t, now, id, owner, issue)
    case Reconcile => Ok(Reconciled(t, now))
    case EndElsewhere(ids, to) => Ok(EndedElsewhere(t, now, ids, to))
    case Wait => Ok(t)
  }

  ghost function Effect(c: Config, t: Table, now: int, op: Op): Table {
    match Attempted(c, t, now, op) case Ok(after) => after case Err(_) => t
  }

  /** Time may pass, then one transaction commits or rolls back. */
  ghost predicate Step(c: Config, m: Moment, op: Op, n: Moment) {
    && m.now <= n.now
    && n.rows == Effect(c, m.rows, n.now, op)
    && (op.Acquire? || op.Takeover? ==> op.issue.token !in m.drawn)
    && n.drawn == m.drawn + (if op.Acquire? || op.Takeover? then {op.issue.token} else {})
    && n.explicit == m.explicit +
         (if op.Acquire? && op.request.deadline.Some? && Attempted(c, m.rows, n.now, op).Ok? then {op.issue.id} else {})
  }

  ghost predicate IsRun(c: Config, ms: seq<Moment>, ops: seq<Op>) {
    && ValidConfig(c)
    && |ms| == |ops| + 1
    && ms[0].rows == map[] && ms[0].explicit == {}
    && forall i: nat :: i < |ops| ==> StepAt(c, ms, ops, i)
  }

  ghost predicate StepAt(c: Config, ms: seq<Moment>, ops: seq<Op>, i: nat)
    requires i < |ops| && |ms| == |ops| + 1
  {
    Step(c, ms[i], ops[i], ms[i + 1])
  }

  // -------------------------------------------------------------- invariants

  ghost predicate RowOk(m: Moment, id: nat)
    requires id in m.rows
  {
    var row := m.rows[id];
    && row.id == id
    && row.token in m.drawn
    && row.createdAt <= m.now
    && row.expiresAt <= row.deadline <= row.createdAt + MAX_ABSOLUTE_DEADLINE
  }

  ghost predicate OneActivePerSlot(t: Table) {
    forall i, j :: i in t && j in t && t[i].slot == t[j].slot && t[i].status == Active && t[j].status == Active ==>
      i == j
  }

  ghost predicate AllExplicit(m: Moment, slot: Slot) {
    forall k :: k in m.rows && InScope(m.rows[k], slot) ==> k in m.explicit
  }

  ghost predicate ScopesShareDeadline(m: Moment) {
    forall i, j | i in m.rows && j in m.rows && InScope(m.rows[i], m.rows[j].slot) && AllExplicit(m, m.rows[j].slot) ::
      m.rows[i].deadline == m.rows[j].deadline
  }

  ghost predicate Inv(m: Moment) {
    && (forall id :: id in m.rows ==> RowOk(m, id))
    && OneActivePerSlot(m.rows)
    && m.explicit <= m.rows.Keys
    && ScopesShareDeadline(m)
  }

  /** What one step can do to an existing row: identity, slot, creation time and
      deadline never change, an inactive row stays inactive, and a changed token
      is a freshly drawn one. */
  lemma StepKeepsRow(c: Config, m: Moment, op: Op, n: Moment, id: nat)
    requires Step(c, m, op, n) && id in m.rows
    ensures id in n.rows
    ensures var a, b := m.rows[id], n.rows[id];
      && b.id == a.id && b.slot == a.slot && b.createdAt == a.createdAt && b.deadline == a.deadline
      && (b.status == Active ==> a.status == Active)
      && (b.token == a.token || (op == Takeover(id, a.slot.owner, op.issue) && b.token == op.issue.token
        && n.now >= a.expiresAt))
      && (b.expiresAt == a.expiresAt || b.expiresAt == Min(n.now + c.duration, a.deadline))
  {
  }

  /** Rows appear only through an acquisition that succeeds. */
  lemma StepAddsRow(c: Config, m: Moment, op: Op, n: Moment, id: nat)
    requires Step(c, m, op, n) && id in n.rows && id !in m.rows
    ensures op.Acquire? && id == op.issue.id
    ensures var d := ResolvedDeadline(c, m.rows, n.now, op.request);
      && d.Ok? && n.rows[id] == NewRow(c, n.now, op.request.slot, op.issue, d.value)
      && !SlotTaken(Freed(m.rows, op.request.slot, n.now), op.request.slot)
      && n.rows == Freed(m.rows, op.request.slot, n.now)[id := n.rows[id]]
  {
  }

  lemma DeadlineBounded(c: Config, m: Moment, now: int, r: Request)
    requires ValidConfig(c) && m.now <= now && forall id :: id in m.rows ==> RowOk(m, id)
    ensures ResolvedDeadline(c, m.rows, now, r).Ok? ==>
      ResolvedDeadline(c, m.rows, now, r).value <= now + MAX_ABSOLUTE_DEADLINE
  {
    if exists id :: IsLatest(m.rows, r.slot, id) {
      forall id | IsLatest(m.rows, r.slot, id) ensures m.rows[id].deadline <= now + MAX_ABSOLUTE_DEADLINE {
        assert RowOk(m, id);
      }
    }
  }

  lemma StepKeepsRowsOk(c: Config, m: Moment, op: Op, n: Moment)
    requires ValidConfig(c) && Inv(m) && Step(c, m, op, n)
    ensures forall id :: id in n.rows ==> RowOk(n, id)
  {
    forall id | id in n.rows ensures RowOk(n, id) {
      if id in m.rows {
        assert RowOk(m, id);
        StepKeepsRow(c, m, op, n, id);
      } else {
        StepAddsRow(c, m, op, n, id);
        DeadlineBounded(c, m, n.now, op.request);
      }
    }
  }

  lemma StepKeepsOneActive(c: Config, m: Moment, op: Op, n: Moment)
    requires OneActivePerSlot(m.rows) && Step(c, m, op, n)
    ensures OneActivePerSlot(n.rows)
  {
    forall i, j | i in n.rows && j in n.rows && n.rows[i].slot == n.rows[j].slot && n.rows[i].status == Active
      && n.rows[j].status == Active
      ensures i == j
    {
      if i in m.rows {
        StepKeepsRow(c, m, op, n, i);
      } else {
        StepAddsRow(c, m, op, n, i);
      }
      if j in m.rows {
        StepKeepsRow(c, m, op, n, j);
      } else {
        StepAddsRow(c, m, op, n, j);
      }
    }
  }

  lemma StepKeepsExplicit(c: Config, m: Moment, op: Op, n: Moment, slot: Slot)
    requires m.explicit <= m.rows.Keys && Step(c, m, op, n) && AllExplicit(n, slot)
    ensures AllExplicit(m, slot)
    ensures n.explicit <= n.rows.Keys
  {
    forall k | k in m.rows && InScope(m.rows[k], slot) ensures k in m.explicit {
      StepKeepsRow(c, m, op, n, k);
    }
    forall k | k in n.explicit ensures k in n.rows {
      if k in m.rows {
        StepKeepsRow(c, m, op, n, k);
      }
    }
  }

  /** A new explicit row of a scope gets the deadline the scope already has. */
  lemma NewRowSharesDeadline(c: Config, m: Moment, op: Op, n: Moment, i: nat, j: nat)
    requires Inv(m) && Step(c, m, op, n)
    requires i in n.rows && i !in m.rows && j in m.rows && InScope(m.rows[j], n.rows[i].slot)
    requires AllExplicit(n, n.rows[i].slot)
    ensures n.rows[i].deadline == m.rows[j].deadline
  {
    StepAddsRow(c, m, op, n, i);
    var slot := op.request.slot;
    StepKeepsExplicit(c, m, op, n, slot);
    assert i in n.explicit;
    LatestExists(m.rows, slot, j);
    var latest :| IsLatest(m.rows, slot, latest)
      && ResolvedDeadline(c, m.rows, n.now, op.request) == Ok(m.rows[latest].deadline);
    SameScopeExplicit(m, slot, m.rows[j].slot);
    assert InScope(m.rows[latest], m.rows[j].slot);
  }

  lemma SameScopeExplicit(m: Moment, a: Slot, b: Slot)
    requires AllExplicit(m, a) && a.point == b.point && a.holder == b.holder
      && (a.holder != PointPublication ==> a.owner == b.owner)
    ensures AllExplicit(m, b)
  {
    forall k | k in m.rows && InScope(m.rows[k], b) ensures k in m.explicit {
      assert InScope(m.rows[k], a);
    }
  }

  /** A scope with a row has a latest row. */
  lemma {:induction false} LatestExists(t: Table, slot: Slot, j: nat)
    requires j in t && InScope(t[j], slot)
    ensures exists id :: IsLatest(t, slot, id)
    decreases |t|
  {
    if !IsLatest(t, slot, j) {
      var k :| k in t && InScope(t[k], slot) && !NoLaterThan(t[k], t[j]);
      var rest := t - {j};
      assert rest.Keys == t.Keys - {j};
      LatestExists(rest, slot, k);
      var id :| IsLatest(rest, slot, id);
      forall x | x in t && InScope(t[x], slot) ensures NoLaterThan(t[x], t[id]) {
        assert k in rest && NoLaterThan(rest[k], rest[id]);
        if x != j {
          assert x in rest;
        }
      }
      assert IsLatest(t, slot, id);
    }
  }

  lemma StepKeepsScopes(c: Config, m: Moment, op: Op, n: Moment)
    requires Inv(m) && Step(c, m, op, n)
    ensures ScopesShareDeadline(n)
  {
    forall i, j | i in n.rows && j in n.rows && InScope(n.rows[i], n.rows[j].slot) && AllExplicit(n, n.rows[j].slot)
      ensures n.rows[i].deadline == n.rows[j].deadline
    {
      var slot := n.rows[j].slot;
      StepKeepsExplicit(c, m, op, n, slot);
      if i in m.rows && j in m.rows {
        StepKeepsRow(c, m, op, n, i);
        StepKeepsRow(c, m, op, n, j);
      } else if i in m.rows {
        StepKeepsRow(c, m, op, n, i);
        NewRowSharesDeadline(c, m, op, n, j, i);
      } else if j in m.rows {
        StepKeepsRow(c, m, op, n, j);
        SameScopeExplicit(n, slot, n.rows[i].slot);
        NewRowSharesDeadline(c, m, op, n, i, j);
      } else {
        StepAddsRow(c, m, op, n, i);
        StepAddsRow(c, m, op, n, j);
      }
    }
  }

  lemma StepKeepsInv(c: Config, m: Moment, op: Op, n: Moment)
    requires ValidConfig(c) && Inv(m) && Step(c, m, op, n)
    ensures Inv(n)
  {
    StepKeepsRowsOk(c, m, op, n);
    StepKeepsOneActive(c, m, op, n);
    StepKeepsScopes(c, m, op, n);
    forall k | k in n.explicit ensures k in n.rows {
      if k in m.rows {
        StepKeepsRow(c, m, op, n, k);
      }
    }
  }

  lemma {:induction false} RunInv(c: Config, ms: seq<Moment>, ops: seq<Op>, i: nat)
    requires IsRun(c, ms, ops) && i < |ms|
    ensures Inv(ms[i])
  {
    if i > 0 {
      RunInv(c, ms, ops, i - 1);
      assert StepAt(c, ms, ops, i - 1);
      StepKeepsInv(c, ms[i - 1], ops[i - 1], ms[i]);
    }
  }

  lemma {:induction false} ClockMonotone(c: Config, ms: seq<Moment>, ops: seq<Op>, i: nat, j: nat)
    requires IsRun(c, ms, ops) && i <= j < |ms|
    ensures ms[i].now <= ms[j].now && ms[i].drawn <= ms[j].drawn
  {
    if i < j {
      ClockMonotone(c, ms, ops, i, j - 1);
      assert StepAt(c, ms, ops, j - 1);
    }
  }

  // --------------------------------------------------------------- exclusion

  /** At every moment of every run a slot has at most one active row and at most
      one fence that validates. */
  lemma OneFencePerSlot(c: Config, ms: seq<Moment>, ops: seq<Op>, i: nat, f: Fence, g: Fence)
    requires IsRun(c, ms, ops) && i < |ms| && f.slot == g.slot
    requires Validates(ms[i].rows, ms[i].now, f) && Validates(ms[i].rows, ms[i].now, g)
    ensures f == g
  {
    RunInv(c, ms, ops, i);
  }

  /** Drawn before, and not validating now. */
  ghost predicate Dead(m: Moment, f: Fence) {
    f.token in m.drawn && !Validates(m.rows, m.now, f)
  }

  lemma StepKeepsDead(c: Config, m: Moment, op: Op, n: Moment, f: Fence)
    requires (f.leaseId in m.rows ==> RowOk(m, f.leaseId)) && Step(c, m, op, n) && Dead(m, f)
    ensures Dead(n, f)
  {
    if Validates(n.rows, n.now, f) {
      if f.leaseId in m.rows {
        StepKeepsRow(c, m, op, n, f.leaseId);
      } else {
        StepAddsRow(c, m, op, n, f.leaseId);
      }
    }
  }

  lemma {:induction false} DeadForever(c: Config, ms: seq<Moment>, ops: seq<Op>, f: Fence, i: nat, j: nat)
    requires IsRun(c, ms, ops) && i <= j < |ms| && Dead(ms[i], f)
    ensures Dead(ms[j], f)
  {
    if i < j {
      DeadForever(c, ms, ops, f, i, j - 1);
      RunInv(c, ms, ops, j - 1);
      assert StepAt(c, ms, ops, j - 1);
      StepKeepsDead(c, ms[j - 1], ops[j - 1], ms[j], f);
    }
  }

  /** A fence that has validated and then stopped never validates again. */
  lemma NeverValidatesAgain(c: Config, ms: seq<Moment>, ops: seq<Op>, f: Fence, i: nat, j: nat, k: nat)
    requires IsRun(c, ms, ops) && i <= j <= k < |ms|
    requires Validates(ms[i].rows, ms[i].now, f) && !Validates(ms[j].rows, ms[j].now, f)
    ensures !Validates(ms[k].rows, ms[k].now, f)
  {
    RunInv(c, ms, ops, i);
    assert RowOk(ms[i], f.leaseId);
    ClockMonotone(c, ms, ops, i, j);
    DeadForever(c, ms, ops, f, j, k);
  }

  /** The periods of two different fences of one slot are disjoint: no other fence
      of the slot validates anywhere between two moments at which f does. */
  lemma PeriodsDisjoint(c: Config, ms: seq<Moment>, ops: seq<Op>, f: Fence, g: Fence, i: nat, j: nat, k: nat)
    requires IsRun(c, ms, ops) && i <= j <= k < |ms| && f.slot == g.slot && f != g
    requires Validates(ms[i].rows, ms[i].now, f) && Validates(ms[k].rows, ms[k].now, f)
    ensures !Validates(ms[j].rows, ms[j].now, g)
  {
    if Validates(ms[j].rows, ms[j].now, g) {
      if Validates(ms[j].rows, ms[j].now, f) {
        OneFencePerSlot(c, ms, ops, j, f, g);
      } else {
        NeverValidatesAgain(c, ms, ops, f, i, j, k);
      }
    }
  }

  // --------------------------------------------------------------- deadlines

  /** A row keeps its slot, creation time and deadline for ever, its short expiry
      never passes the deadline, and the deadline is at most 168 hours after
      creation. */
  lemma {:induction false} DeadlineFixed(c: Config, ms: seq<Moment>, ops: seq<Op>, id: nat, i: nat, j: nat)
    requires IsRun(c, ms, ops) && i <= j < |ms| && id in ms[i].rows
    ensures id in ms[j].rows
    ensures var a, b := ms[i].rows[id], ms[j].rows[id];
      && b.slot == a.slot && b.createdAt == a.createdAt && b.deadline == a.deadline
      && b.expiresAt <= b.deadline <= b.createdAt + MAX_ABSOLUTE_DEADLINE
  {
    if i < j {
      DeadlineFixed(c, ms, ops, id, i, j - 1);
      assert StepAt(c, ms, ops, j - 1);
      StepKeepsRow(c, ms[j - 1], ops[j - 1], ms[j], id);
    }
    RunInv(c, ms, ops, j);
    assert RowOk(ms[j], id);
  }

  /** When every acquisition in a scope was explicit, no sequence of release,
      re-acquire, renew and takeover outlives the deadline of any earlier row of
      the scope: nothing in the scope validates at or after it. */
  lemma ExplicitScopeNeverOutlived(c: Config, ms: seq<Moment>, ops: seq<Op>, id: nat, i: nat, j: nat, f: Fence)
    requires IsRun(c, ms, ops) && i <= j < |ms| && id in ms[i].rows
    requires AllExplicit(ms[j], ms[i].rows[id].slot)
    requires f.leaseId in ms[j].rows && InScope(ms[j].rows[f.leaseId], ms[i].rows[id].slot)
    ensures ms[j].rows[f.leaseId].deadline == ms[i].rows[id].deadline
    ensures ms[j].now >= ms[i].rows[id].deadline ==> !Validates(ms[j].rows, ms[j].now, f)
  {
    DeadlineFixed(c, ms, ops, id, i, j);
    RunInv(c, ms, ops, j);
  }

  /** Which acquisitions outgrow the history of their scope: with id the scope's
      latest row, exactly those with the zero deadline whose own deadline lies beyond
      its deadline; an explicit one never does. */
  lemma DeadlineOutgrownIff(c: Config, t: Table, now: int, r: Request, issue: Issue, id: nat)
    requires IsLatest(t, r.slot, id) && (forall k :: k in t ==> t[k].id == k) && Acquired(c, t, now, r, issue).Ok?
    ensures issue.id in Acquired(c, t, now, r, issue).value
    ensures Acquired(c, t, now, r, issue).value[issue.id].deadline > t[id].deadline <==>
      r.deadline.None? && now + c.absoluteDeadline > t[id].deadline
    ensures r.deadline.Some? ==> Acquired(c, t, now, r, issue).value[issue.id].deadline == t[id].deadline
  {
    LatestUnique(t, r.slot, id);
  }

  /** Nothing in the scope's history holds a zero deadline back: such an acquisition
      succeeds exactly when it is admitted and its slot is free, and it then
      validates at once. */
  lemma ZeroDeadlineOutlives(c: Config, t: Table, now: int, r: Request, issue: Issue)
    requires ValidConfig(c) && r.deadline.None?
    ensures var after := Acquired(c, t, now, r, issue);
      && (after.Ok? <==> (r.slot.holder == RetentionWorker || r.admission.None?)
                         && !SlotTaken(Freed(t, r.slot, now), r.slot) && issue.id !in t)
      && (after.Ok? ==> Validates(after.value, now, FenceOf(after.value[issue.id]))
                        && after.value[issue.id].deadline == now + c.absoluteDeadline)
  {
  }

  // --------------------------------------------------------------- heartbeat

  /** The fence validates and has the whole lease duration, up to its deadline, ahead. */
  ghost predicate JustIssued(c: Config, m: Moment, f: Fence) {
    && Validates(m.rows, m.now, f)
    && m.rows[f.leaseId].expiresAt == Min(m.now + c.duration, m.rows[f.leaseId].deadline)
  }

  /** Step r issued the fence (r == a) or is an attempt of its holder to renew. */
  predicate Beat(ops: seq<Op>, f: Fence, a: nat, r: nat)
    requires a <= r <= |ops|
  {
    r == a || ops[r - 1] == Renew(f)
  }

  /** Some beat before moment k is at most one heartbeat old at moment k. */
  ghost predicate BeatInTime(c: Config, ms: seq<Moment>, ops: seq<Op>, f: Fence, a: nat, k: nat)
    requires |ms| == |ops| + 1 && a < k < |ms|
  {
    exists r :: a <= r < k && Beat(ops, f, a, r) && ms[k].now - ms[r].now <= c.heartbeat
  }

  /** A release by the holder, or another component ending this very row. */
  predicate Ends(op: Op, f: Fence) { op == Release(f) || (op.EndElsewhere? && f.leaseId in op.ids) }

  /** From moment a, where f was just issued or renewed, to moment b the holder
      attempts a renewal at most one heartbeat after the last attempt, and nobody
      ends the row. Whether the attempts succeed is not assumed. */
  ghost predicate KeepsBeating(c: Config, ms: seq<Moment>, ops: seq<Op>, f: Fence, a: nat, b: nat)
    requires |ms| == |ops| + 1
  {
    && a <= b < |ms|
    && (forall k: nat :: a < k <= b ==> BeatInTime(c, ms, ops, f, a, k))
    && (forall k :: a <= k < b ==> !Ends(ops[k], f))
    && JustIssued(c, ms[a], f)
  }

  /** The row still belongs to f and runs at least as long as every beat earned. */
  ghost predicate Sustained(c: Config, ms: seq<Moment>, ops: seq<Op>, f: Fence, a: nat, k: nat)
    requires |ms| == |ops| + 1 && a <= k < |ms| && f.leaseId in ms[a].rows
  {
    var deadline := ms[a].rows[f.leaseId].deadline;
    && f.leaseId in ms[k].rows && FenceOf(ms[k].rows[f.leaseId]) == f
    && ms[k].rows[f.leaseId].status == Active && ms[k].rows[f.leaseId].deadline == deadline
    && forall r :: a <= r <= k && Beat(ops, f, a, r) ==>
      ms[k].rows[f.leaseId].expiresAt >= Min(ms[r].now + c.duration, deadline)
  }

  /** Whatever the step, a row that is live when it happens is only touched by its
      own holder. */
  lemma LiveRowUntouched(c: Config, m: Moment, op: Op, n: Moment, f: Fence)
    requires Step(c, m, op, n) && Validates(m.rows, n.now, f) && !Ends(op, f) && op != Renew(f)
    requires forall id :: id in m.rows ==> RowOk(m, id)
    ensures f.leaseId in n.rows && n.rows[f.leaseId] == m.rows[f.leaseId]
  {
    assert RowOk(m, f.leaseId);
  }

  /** At the instant of step k the fence still validates on the rows before it. */
  lemma BeatReaches(c: Config, ms: seq<Moment>, ops: seq<Op>, f: Fence, a: nat, b: nat, k: nat)
    requires IsRun(c, ms, ops) && KeepsBeating(c, ms, ops, f, a, b) && a < k <= b
    requires f.leaseId in ms[a].rows && ms[k].now < ms[a].rows[f.leaseId].deadline
    requires Sustained(c, ms, ops, f, a, k - 1)
    ensures Validates(ms[k - 1].rows, ms[k].now, f)
  {
    assert BeatInTime(c, ms, ops, f, a, k);
    var r :| a <= r < k && Beat(ops, f, a, r) && ms[k].now - ms[r].now <= c.heartbeat;
    assert ms[k - 1].rows[f.leaseId].expiresAt >= Min(ms[r].now + c.duration, ms[a].rows[f.leaseId].deadline);
  }

  lemma BeatSustains(c: Config, ms: seq<Moment>, ops: seq<Op>, f: Fence, a: nat, k: nat)
    requires IsRun(c, ms, ops) && a < k < |ms| && !Ends(ops[k - 1], f)
    requires f.leaseId in ms[a].rows && ms[k].now < ms[a].rows[f.leaseId].deadline
    requires Sustained(c, ms, ops, f, a, k - 1) && Validates(ms[k - 1].rows, ms[k].now, f)
    ensures Sustained(c, ms, ops, f, a, k)
  {
    assert StepAt(c, ms, ops, k - 1);
    RunInv(c, ms, ops, k - 1);
    BeatOrUntouched(c, ms[k - 1], ops[k - 1], ms[k], f);
    forall x | a <= x <= k ensures ms[x].now <= ms[k].now {
      ClockMonotone(c, ms, ops, x, k);
    }
    ExpiryCarries(c, ms, ops, f, a, k);
  }

  /** A renewed expiry covers every earlier beat, an untouched one keeps what it
      covered. */
  lemma ExpiryCarries(c: Config, ms: seq<Moment>, ops: seq<Op>, f: Fence, a: nat, k: nat)
    requires |ms| == |ops| + 1 && a < k < |ms| && f.leaseId in ms[a].rows
    requires Sustained(c, ms, ops, f, a, k - 1)
    requires f.leaseId in ms[k].rows && FenceOf(ms[k].rows[f.leaseId]) == f && ms[k].rows[f.leaseId].status == Active
    requires ms[k].rows[f.leaseId].deadline == ms[k - 1].rows[f.leaseId].deadline
    requires ms[k].rows[f.leaseId].expiresAt ==
      if ops[k - 1] == Renew(f) then Min(ms[k].now + c.duration, ms[k].rows[f.leaseId].deadline)
      else ms[k - 1].rows[f.leaseId].expiresAt
    requires forall x :: a <= x <= k ==> ms[x].now <= ms[k].now
    ensures Sustained(c, ms, ops, f, a, k)
  {
  }

  /** A step against a live row either renews it or leaves it as it was. */
  lemma BeatOrUntouched(c: Config, m: Moment, op: Op, n: Moment, f: Fence)
    requires Step(c, m, op, n) && Validates(m.rows, n.now, f) && !Ends(op, f)
    requires forall id :: id in m.rows ==> RowOk(m, id)
    ensures f.leaseId in n.rows && FenceOf(n.rows[f.leaseId]) == f
    ensures n.rows[f.leaseId].status == Active && n.rows[f.leaseId].deadline == m.rows[f.leaseId].deadline
    ensures n.rows[f.leaseId].expiresAt ==
      if op == Renew(f) then Min(n.now + c.duration, m.rows[f.leaseId].deadline) else m.rows[f.leaseId].expiresAt
  {
    if op != Renew(f) {
      LiveRowUntouched(c, m, op, n, f);
    }
  }

  lemma {:induction false} BeatingSustains(c: Config, ms: seq<Moment>, ops: seq<Op>, f: Fence, a: nat, b: nat, k: nat)
    requires IsRun(c, ms, ops) && KeepsBeating(c, ms, ops, f, a, b) && a <= k <= b
    requires f.leaseId in ms[a].rows && ms[k].now < ms[a].rows[f.leaseId].deadline
    ensures Sustained(c, ms, ops, f, a, k)
  {
    if a < k {
      ClockMonotone(c, ms, ops, k - 1, k);
      BeatingSustains(c, ms, ops, f, a, b, k - 1);
      BeatReaches(c, ms, ops, f, a, b, k);
      BeatSustains(c, ms, ops, f, a, k);
    } else {
      forall r | a <= r <= k && Beat(ops, f, a, r)
        ensures ms[k].rows[f.leaseId].expiresAt >= Min(ms[r].now + c.duration, ms[a].rows[f.leaseId].deadline) {}
    }
  }

  /** A holder that beats in time, and whose row nobody ends, keeps validating at every
      moment before its absolute deadline, whatever other steps interleave, and
      each of its renewals before the deadline succeeds. */
  lemma HeartbeatHolds(c: Config, ms: seq<Moment>, ops: seq<Op>, f: Fence, a: nat, b: nat, k: nat)
    requires IsRun(c, ms, ops) && KeepsBeating(c, ms, ops, f, a, b) && a <= k <= b
    requires f.leaseId in ms[a].rows && ms[k].now < ms[a].rows[f.leaseId].deadline
    ensures Validates(ms[k].rows, ms[k].now, f)
    ensures a < k && ops[k - 1] == Renew(f) ==> Renewed(c, ms[k - 1].rows, ms[k].now, f).Ok?
  {
    if a < k {
      ClockMonotone(c, ms, ops, k - 1, k);
      BeatingSustains(c, ms, ops, f, a, b, k - 1);
      BeatReaches(c, ms, ops, f, a, b, k);
      assert StepAt(c, ms, ops, k - 1);
      RunInv(c, ms, ops, k - 1);
      if ops[k - 1] != Renew(f) {
        LiveRowUntouched(c, ms[k - 1], ops[k - 1], ms[k], f);
      }
    }
  }

  // ----------------------------------------------------- what an issue gives

  /** A takeover commits exactly on an active, expired row of this owner before its
      deadline. The fence it answers validates from then until a whole duration or
      the deadline has passed, and the fence carried before never does. */
  lemma TakeoverHandsOver(c: Config, t: Table, now: int, id: nat, owner: string, issue: Issue)
    requires id in t ==> t[id].id == id && t[id].token != issue.token
    ensures var after := TakenOver(c, t, now, id, owner, issue);
      && (after.Ok? <==>
            id in t && t[id].slot.owner == owner && t[id].status == Active && t[id].expiresAt <= now < t[id].deadline)
      && (ValidConfig(c) && after.Ok? ==>
            && id in after.value && after.value[id].slot == t[id].slot && after.value[id].deadline == t[id].deadline
            && after.value[id].token == issue.token
            && forall later ::
                 && (Validates(after.value, later, FenceOf(after.value[id])) <==>
                   later < Min(now + c.duration, t[id].deadline))
                 && !Validates(after.value, later, FenceOf(t[id])))
  {
  }

  predicate Issues(op: Op) { op.Acquire? || op.Takeover? || op.Renew? }

  function IssuedId(op: Op): nat
    requires Issues(op)
  {
    match op case Acquire(_, issue) => issue.id case Takeover(id, _, _) => id case Renew(f) => f.leaseId
  }

  /** Whoever acquires, takes over or renews holds a fence that was just issued. */
  lemma IssueStarts(c: Config, m: Moment, op: Op, n: Moment)
    requires ValidConfig(c) && Step(c, m, op, n) && Issues(op) && Attempted(c, m.rows, n.now, op).Ok?
    requires IssuedId(op) in m.rows ==> RowOk(m, IssuedId(op))
    ensures IssuedId(op) in n.rows && JustIssued(c, n, FenceOf(n.rows[IssuedId(op)]))
    ensures op.Renew? ==> FenceOf(n.rows[IssuedId(op)]) == op.fence
    ensures op.Takeover? || op.Acquire? ==> n.rows[IssuedId(op)].token == op.issue.token
  {
  }

  /** At moment a the fence f has just been acquired, taken over or renewed. */
  ghost predicate IssuedAt(c: Config, ms: seq<Moment>, ops: seq<Op>, f: Fence, a: nat)
    requires |ms| == |ops| + 1 && 0 < a < |ms|
  {
    && Issues(ops[a - 1]) && Attempted(c, ms[a - 1].rows, ms[a].now, ops[a - 1]).Ok?
    && IssuedId(ops[a - 1]) in ms[a].rows && f == FenceOf(ms[a].rows[IssuedId(ops[a - 1])])
  }

  lemma IssuedIsJustIssued(c: Config, ms: seq<Moment>, ops: seq<Op>, f: Fence, a: nat)
    requires IsRun(c, ms, ops) && 0 < a < |ms| && IssuedAt(c, ms, ops, f, a)
    ensures f.leaseId in ms[a].rows && JustIssued(c, ms[a], f)
  {
    assert StepAt(c, ms, ops, a - 1);
    RunInv(c, ms, ops, a - 1);
    IssueStarts(c, ms[a - 1], ops[a - 1], ms[a]);
  }

  /** A holder that has acquired, taken over or renewed, beats in time from then on and
      whose row nobody ends, keeps validating up to its absolute deadline. */
  lemma IssuedHolderHolds(c: Config, ms: seq<Moment>, ops: seq<Op>, f: Fence, a: nat, b: nat, k: nat)
    requires IsRun(c, ms, ops) && 0 < a <= k <= b < |ms| && IssuedAt(c, ms, ops, f, a)
    requires forall i: nat :: a < i <= b ==> BeatInTime(c, ms, ops, f, a, i)
    requires forall i :: a <= i < b ==> !Ends(ops[i], f)
    ensures KeepsBeating(c, ms, ops, f, a, b)
    ensures f.leaseId in ms[a].rows
    ensures ms[k].now < ms[a].rows[f.leaseId].deadline ==> Validates(ms[k].rows, ms[k].now, f)
  {
    IssuedIsJustIssued(c, ms, ops, f, a);
    if ms[k].now < ms[a].rows[f.leaseId].deadline {
      HeartbeatHolds(c, ms, ops, f, a, b, k);
    }
  }

  /** A holder that falls silent validates exactly until its expiry: neither longer,
      nor shorter unless somebody ends its row. */
  lemma {:induction false} SilentHolderLapses(c: Config, ms: seq<Moment>, ops: seq<Op>, f: Fence, a: nat, b: nat)
    requires IsRun(c, ms, ops) && a <= b < |ms| && Validates(ms[a].rows, ms[a].now, f)
    requires forall k :: a <= k < b ==> ops[k] != Renew(f)
    ensures Validates(ms[b].rows, ms[b].now, f) ==>
      ms[b].now < ms[a].rows[f.leaseId].expiresAt == ms[b].rows[f.leaseId].expiresAt
    ensures (forall k :: a <= k < b ==> !Ends(ops[k], f)) && ms[b].now < ms[a].rows[f.leaseId].expiresAt ==>
      Validates(ms[b].rows, ms[b].now, f)
  {
    if a < b {
      SilentHolderLapses(c, ms, ops, f, a, b - 1);
      RunInv(c, ms, ops, b - 1);
      assert StepAt(c, ms, ops, b - 1);
      if Validates(ms[b].rows, ms[b].now, f) && !Validates(ms[b - 1].rows, ms[b - 1].now, f) {
        NeverValidatesAgain(c, ms, ops, f, a, b - 1, b);
      }
      SilentStep(c, ms[b - 1], ops[b - 1], ms[b], f);
    }
  }

  /** One step against a validating fence that is not renewed in it. */
  lemma SilentStep(c: Config, m: Moment, op: Op, n: Moment, f: Fence)
    requires Inv(m) && Step(c, m, op, n) && op != Renew(f)
    ensures Validates(m.rows, m.now, f) && Validates(n.rows, n.now, f) ==>
      n.rows[f.leaseId].expiresAt == m.rows[f.leaseId].expiresAt
    ensures Validates(m.rows, m.now, f) && !Ends(op, f) && n.now < m.rows[f.leaseId].expiresAt ==>
      Validates(n.rows, n.now, f)
  {
    if f.leaseId in m.rows {
      assert RowOk(m, f.leaseId);
      StepKeepsRow(c, m, op, n, f.leaseId);
      if Validates(m.rows, n.now, f) && !Ends(op, f) {
        LiveRowUntouched(c, m, op, n, f);
      }
    }
  }

  /** What ends a lease frees its slot: after a release the released fence never
      validates and nobody holds the slot; reconciling leaves no row active past its
      deadline, and no other row touched. */
  lemma EndingFrees(c: Config, m: Moment, f: Fence, now: int)
    requires Inv(m)
    ensures var after := ReleasedBy(m.rows, now, f);
      && (after.Ok? <==> Validates(m.rows, now, f))
      && (after.Ok? ==> !SlotTaken(after.value, f.slot) && forall later :: !Validates(after.value, later, f))
      && (after.Ok? ==> after.value[f.leaseId].status == Released && after.value[f.leaseId].releasedAt == Some(now))
    ensures var after := Reconciled(m.rows, now);
      forall id :: id in m.rows ==>
        && id in after && (m.rows[id].status != Active || now < m.rows[id].deadline ==> after[id] == m.rows[id])
        && (after[id].status == Active ==> now < after[id].deadline)
  {
  }

  /** Why a renewal or a release is refused: the deadline is reported exactly when the row
      exists and its absolute deadline has passed, a lost fence otherwise. */
  lemma RefusalTells(c: Config, t: Table, now: int, f: Fence)
    ensures var refusal := if f.leaseId in t && t[f.leaseId].deadline <= now then LeaseDeadlineExceeded
      else LeaseFenceLost;
      && (Renewed(c, t, now, f).Ok? <==> Validates(t, now, f)) && (ReleasedBy(t, now, f).Ok? <==> Validates(t, now, f))
      && (!Validates(t, now, f) ==> Renewed(c, t, now, f) == Err(refusal) && ReleasedBy(t, now, f) == Err(refusal))
  {
  }

  /** Which active rows hold an acquisition up: for the two indexers live ones only, for
      every other holder any. */
  lemma HeldUpIff(t: Table, slot: Slot, now: int)
    ensures SlotTaken(Freed(t, slot, now), slot) <==>
      exists id :: id in t && t[id].slot == slot && t[id].status == Active
        && (slot.holder == CatalogBuild || slot.holder == SearchIndex ==> now < t[id].expiresAt && now < t[id].deadline)
  {
    var freed := Freed(t, slot, now);
    forall id | id in t && !(Indexer(slot.holder) && Abandoned(t[id], slot, now)) ensures id in freed
      && freed[id] == t[id] {}
    if SlotTaken(freed, slot) {
      var id :| id in freed && freed[id].slot == slot && freed[id].status == Active;
      assert id in t && t[id].slot == slot && t[id].status == Active;
    }
  }

  /** Which explicit deadlines are granted: exactly the one of the scope's latest row
      while it lasts, or in a new scope any that lies ahead, at most 168 hours. */
  lemma ExplicitDeadlineIff(c: Config, t: Table, now: int, r: Request, issue: Issue)
    requires r.deadline.Some? && forall k :: k in t ==> t[k].id == k
    ensures var after, d := Acquired(c, t, now, r, issue), r.deadline.value;
      && (after.Ok? <==>
            && (r.slot.holder == RetentionWorker || r.admission.None?)
            && now < d && !SlotTaken(Freed(t, r.slot, now), r.slot) && issue.id !in t
            && (forall id :: IsLatest(t, r.slot, id) ==> d == t[id].deadline)
            && ((forall id :: id in t ==> !InScope(t[id], r.slot)) ==> d <= now + 168 * 3600 * SECOND))
      && (after.Ok? ==> issue.id in after.value && after.value[issue.id].deadline == d)
  {
    if exists id :: id in t && InScope(t[id], r.slot) {
      var id :| id in t && InScope(t[id], r.slot);
      LatestExists(t, r.slot, id);
      var latest :| IsLatest(t, r.slot, latest);
      LatestUnique(t, r.slot, latest);
    }
  }

  /** Scopes: publications of a point share one whoever owns them; every other holder
      has one for each owner. */
  lemma ScopeIff(row: Row, slot: Slot)
    ensures InScope(row, slot) <==>
      && row.slot.point == slot.point && row.slot.holder == slot.holder
      && (row.slot.owner == slot.owner || slot.holder == PointPublication)
  {
  }

  // ----------------------------------------------------------------- service

  /** The lease service over its table. Every method is one transaction. */
  class LeaseService {
    const config: Config
    var rows: Table

    /** id is the primary key. */
    ghost predicate Keyed() reads this { forall id :: id in rows ==> rows[id].id == id }

    constructor (config: Config)
      requires ValidConfig(config)
      ensures this.config == config && rows == map[] && Keyed()
    {
      this.config := config;
      rows := map[];
    }

    /** ORDER BY created_at DESC, id DESC LIMIT 1 within the scope. */
    method LatestInScope(slot: Slot) returns (latest: Option<Row>)
      requires Keyed()
      ensures latest.Some? ==> IsLatest(rows, slot, latest.value.id) && rows[latest.value.id] == latest.value
      ensures latest.None? ==> forall k :: k in rows ==> !InScope(rows[k], slot)
    {
      latest := None;
      var pending := rows.Keys;
      while pending != {}
        invariant pending <= rows.Keys
        invariant latest.Some? ==> latest.value.id in rows && rows[latest.value.id] == latest.value
        invariant latest.Some? ==> InScope(latest.value, slot)
        invariant forall k :: k in rows && k !in pending && InScope(rows[k], slot) ==>
          latest.Some? && NoLaterThan(rows[k], latest.value)
        decreases pending
      {
        var id :| id in pending;
        if InScope(rows[id], slot) && (latest.None? || NoLaterThan(latest.value, rows[id])) {
          latest := Some(rows[id]);
        }
        pending := pending - {id};
      }
    }

    method ResolveAcquireDeadline(r: Request, now: int) returns (d: Result<int>)
      requires Keyed()
      ensures d == ResolvedDeadline(config, rows, now, r)
    {
      if r.deadline.None? { return Ok(now + config.absoluteDeadline); }
      var previous := LatestInScope(r.slot);
      if previous.Some? {
        LatestUnique(rows, r.slot, previous.value.id);
        var deadline := previous.value.deadline;
        if r.deadline.value != deadline { return Err(Conflict); }
        if now >= deadline { return Err(LeaseDeadlineExceeded); }
        return Ok(deadline);
      }
      assert !exists id :: IsLatest(rows, r.slot, id);
      if now >= r.deadline.value { return Err(LeaseDeadlineExceeded); }
      if r.deadline.value > now + MAX_ABSOLUTE_DEADLINE { return Err(InvalidState); }
      return Ok(r.deadline.value);
    }

    method Acquire(request: Request, issue: Issue, now: int) returns (r: Result<Row>)
      requires Keyed()
      modifies this
      ensures Keyed()
      ensures match Acquired(config, old(rows), now, request, issue)
        case Ok(after) => rows == after && r == Ok(after[issue.id])
        case Err(e) => rows == old(rows) && r == Err(e)
    {
      if request.slot.holder != RetentionWorker && request.admission.Some? { return Err(request.admission.value); }
      var deadline := ResolveAcquireDeadline(request, now);
      if deadline.Err? { return Err(deadline.error); }
      var expiresAt := now + config.duration;
      if expiresAt > deadline.value { expiresAt := deadline.value; }
      var row := Row(issue.id, request.slot, issue.attempt, issue.token, Active, expiresAt, deadline.value, now,
        None, now, now);
      var table := rows;
      if request.slot.holder == CatalogBuild || request.slot.holder == SearchIndex {
        table := map id | id in rows ::
          if Abandoned(rows[id], request.slot, now) then rows[id].(status := Expired, updatedAt := now) else rows[id];
      }
      var holders := set id | id in table && table[id].slot == request.slot && table[id].status == Active;
      assert table == Freed(rows, request.slot, now);
      assert forall id :: id in table && table[id].slot == request.slot && table[id].status == Active ==> id in holders;
      if |holders| > 0 {
        assert exists id :: id in holders;
        return Err(LeaseHeld);
      }
      if issue.id in rows { return Err(LeaseHeld); }
      rows := table[issue.id := row];
      return Ok(row);
    }

    method Renew(fence: Fence, now: int) returns (r: Result<Row>)
      requires Keyed()
      modifies this
      ensures Keyed()
      ensures match Renewed(config, old(rows), now, fence)
        case Ok(after) => rows == after && r == Ok(after[fence.leaseId])
        case Err(e) => rows == old(rows) && r == Err(e)
    {
      if fence.leaseId !in rows { return Err(LeaseFenceLost); }
      var current := rows[fence.leaseId];
      if current.slot != fence.slot || current.attempt != fence.attempt || current.token != fence.token ||
         current.status != Active || now >= current.expiresAt || now >= current.deadline
      {
        return Err(FenceFailure(rows, now, fence.leaseId));
      }
      var nextExpiry := now + config.duration;
      if nextExpiry > current.deadline { nextExpiry := current.deadline; }
      current := current.(expiresAt := nextExpiry, heartbeatAt := now, updatedAt := now);
      rows := rows[fence.leaseId := current];
      return Ok(current);
    }

    method Release(fence: Fence, now: int) returns (r: Result<()>)
      requires Keyed()
      modifies this
      ensures Keyed()
      ensures match ReleasedBy(old(rows), now, fence)
        case Ok(after) => rows == after && r == Ok(())
        case Err(e) => rows == old(rows) && r == Err(e)
    {
      var valid := ValidateFence(fence, now);
      if valid.Err? { return valid; }
      rows := rows[fence.leaseId := rows[fence.leaseId].(status := Released, releasedAt := Some(now),
        updatedAt := now)];
      return Ok(());
    }

    method ValidateFence(fence: Fence, now: int) returns (r: Result<()>)
      requires Keyed()
      ensures r.Ok? <==> Validates(rows, now, fence)
      ensures r.Err? ==> r.error == FenceFailure(rows, now, fence.leaseId)
    {
      if fence.leaseId in rows && rows[fence.leaseId].slot == fence.slot &&
         rows[fence.leaseId].attempt == fence.attempt && rows[fence.leaseId].token == fence.token &&
         rows[fence.leaseId].status == Active && rows[fence.leaseId].expiresAt > now
           && rows[fence.leaseId].deadline > now
      {
        return Ok(());
      }
      return Err(FenceFailure(rows, now, fence.leaseId));
    }

    method Takeover(id: nat, owner: string, issue: Issue, now: int) returns (r: Result<Row>)
      requires Keyed()
      modifies this
      ensures Keyed()
      ensures match TakenOver(config, old(rows), now, id, owner, issue)
        case Ok(after) => rows == after && r == Ok(after[id])
        case Err(e) => rows == old(rows) && r == Err(e)
    {
      if id !in rows { return Err(LeaseFenceLost); }
      var current := rows[id];
      if current.slot.owner != owner || current.status != Active { return Err(LeaseFenceLost); }
      if now >= current.deadline { return Err(LeaseDeadlineExceeded); }
      if now < current.expiresAt { return Err(LeaseHeld); }
      var nextExpiry := now + config.duration;
      if nextExpiry > current.deadline { nextExpiry := current.deadline; }
      current := current.(attempt := issue.attempt, token := issue.token, expiresAt := nextExpiry,
                          heartbeatAt := now, releasedAt := None, updatedAt := now);
      rows := rows[id := current];
      return Ok(current);
    }

    method ReconcileExpired(now: int) returns (affected: nat)
      requires Keyed()
      modifies this
      ensures Keyed() && rows == Reconciled(old(rows), now)
      ensures affected == |set id | id in old(rows) && old(rows)[id].status == Active && old(rows)[id].deadline <= now|
    {
      var due := set id | id in rows && rows[id].status == Active && rows[id].deadline <= now;
      rows := map id | id in rows :: if id in due then rows[id].(status := Expired, updatedAt := now) else rows[id];
      return |due|;
    }
  }

  lemma LatestUnique(t: Table, slot: Slot, id: nat)
    requires IsLatest(t, slot, id) && forall k :: k in t ==> t[k].id == k
    ensures forall k :: IsLatest(t, slot, k) ==> k == id
  {
  }
}
