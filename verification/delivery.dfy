/** One delivery row under claims, crashes, lease expiries and late results. */
module DeliveryProtocol {
  import opened Basics
  import opened AlertRows

  const LEASE_DURATION := 120 * SECOND
  const BACKOFF: seq<int> := [30 * SECOND, 120 * SECOND, 480 * SECOND, 1800 * SECOND]
  const MAX_ATTEMPTS := 4

  function BackoffDuration(attempt: int): (d: int)
    ensures 30 * SECOND <= d <= 1800 * SECOND
  {
    if attempt < 0 then BACKOFF[0]
    else if attempt >= |BACKOFF| then BACKOFF[|BACKOFF| - 1]
    else BACKOFF[attempt]
  }

  predicate LeaseOver(row: Row, now: int) { row.lease.Some? && row.lease.value <= now }

  /** The WHERE clause of a claim. */
  predicate Claimable(row: Row, now: int, force: bool) {
    && (row.decision == Deliver || row.decision == Blank)
    && (if force then row.status in {Pending, Retrying, Failed} || (row.status == Sending && LeaseOver(row, now))
        else || row.status == Pending
             || (row.status == Retrying && (row.nextRetry.None? || row.nextRetry.value <= now))
             || (row.status == Sending && LeaseOver(row, now)))
    && (row.lease.None? || row.lease.value <= now)
  }

  function ClaimedRow(row: Row, attempt: nat, now: int): Row {
    row.(status := Sending, attempt := Some(attempt), lease := Some(now + LEASE_DURATION),
         count := row.count + 1, nextRetry := None)
  }

  /** The WHERE clause of a completion: only the leased attempt may report. */
  predicate Completable(row: Row, attempt: nat, now: int) {
    row.status == Sending && row.attempt == Some(attempt) && row.lease.Some? && row.lease.value > now
  }

  function CompletedRow(row: Row, status: Status, nextRetry: Option<int>, now: int): Row {
    row.(status := status, lease := None, nextRetry := nextRetry,
         sentAt := if status == Sent then Some(now) else row.sentAt)
  }

  /** What a failed send writes: retry later, or give up. */
  function RetryResult(count: int, now: int, terminal: bool): (Status, Option<int>) {
    if terminal || count >= MAX_ATTEMPTS then (Failed, None)
    else (Retrying, Some(now + BackoffDuration(count)))
  }

  // ------------------------------------------------------------------ repair

  /** A direct row takes over a confirmed send without inventing a success time. */
  function Promoted(row: Row): Row {
    if row.status == Sent then row else row.(status := Sent, lease := None, nextRetry := None)
  }

  /** An unkeyed row becomes the row of an intent. */
  function Adopted(row: Row, key: string): Row {
    row.(key := key, decision := if row.decision == Blank then Deliver else row.decision)
  }

  /** An unkeyed row whose identity cannot be proved. */
  function Marked(row: Row): Row { row.(decision := UnknownIntent) }

  // -------------------------------------------------------------------- runs

  datatype Outcome = Delivered | Undelivered(terminal: bool, failedAt: int)

  datatype Op =
    | Claim(attempt: nat, force: bool)
    | Report(attempt: nat, outcome: Outcome)
    | Promote
    | Adopt(key: string)
    | Mark
    | CrashOrWait

  /** The row, the attempts workers hold with the count each saw when it claimed,
      the attempt claimed last, and how many failures have been committed. */
  datatype Moment = Moment(now: int, row: Row, held: map<nat, int>, latest: Option<nat>, failures: nat)

  predicate ClaimWins(m: Moment, op: Op, now: int) { op.Claim? && Claimable(m.row, now, op.force) }

  predicate ReportWins(m: Moment, op: Op, now: int) {
    op.Report? && op.attempt in m.held && Completable(m.row, op.attempt, now)
  }

  function ReportedRow(row: Row, count: int, outcome: Outcome, now: int): Row {
    match outcome
    case Delivered => CompletedRow(row, Sent, None, now)
    case Undelivered(terminal, failedAt) =>
      var (status, next) := RetryResult(count, failedAt, terminal);
      CompletedRow(row, status, next, now)
  }

  function RepairedRow(row: Row, op: Op): Row {
    match op
    case Promote => Promoted(row)
    case Adopt(key) => Adopted(row, key)
    case Mark => Marked(row)
    case _ => row
  }

  /** Time may pass, then one guarded update wins or changes nothing. Attempt ids
      are drawn fresh; a worker reports only attempts it holds, as often and as
      late as it likes; a crash simply means it never does. Repairs of the row may
      come at any time. */
  ghost predicate Step(m: Moment, op: Op, n: Moment) {
    && m.now <= n.now
    && (op.Claim? ==> op.attempt !in m.held)
    && n == (if ClaimWins(m, op, n.now) then
               Moment(n.now, ClaimedRow(m.row, op.attempt, n.now), m.held[op.attempt := m.row.count + 1],
                      Some(op.attempt), m.failures)
             else if ReportWins(m, op, n.now) then
               m.(now := n.now, row := ReportedRow(m.row, m.held[op.attempt], op.outcome, n.now),
                  failures := m.failures + (if op.outcome.Delivered? then 0 else 1))
             else m.(now := n.now, row := RepairedRow(m.row, op)))
  }

  ghost predicate StepAt(ms: seq<Moment>, ops: seq<Op>, i: nat)
    requires i < |ops| && |ms| == |ops| + 1
  {
    Step(ms[i], ops[i], ms[i + 1])
  }

  ghost predicate IsRun(ms: seq<Moment>, ops: seq<Op>) {
    && |ms| == |ops| + 1
    && ms[0].held == map[] && ms[0].latest.None? && ms[0].failures == 0 && ms[0].row.count >= 0
    && forall i: nat :: i < |ops| ==> StepAt(ms, ops, i)
  }

  // ---------------------------------------------------- who may change a row

  ghost predicate Inv(m: Moment) {
    && m.row.count >= 0 && (forall a :: a in m.held ==> m.held[a] >= 1)
    && (m.latest.None? ==> m.held == map[])
    && (m.latest.Some? ==> m.latest.value in m.held && m.row.attempt == m.latest)
    && (m.latest.Some? && m.row.status == Sending ==> m.held[m.latest.value] == m.row.count)
  }

  lemma StepKeepsInv(m: Moment, op: Op, n: Moment)
    requires Inv(m) && Step(m, op, n)
    ensures Inv(n)
  {
  }

  lemma {:induction false} RunInv(ms: seq<Moment>, ops: seq<Op>, i: nat)
    requires IsRun(ms, ops) && i < |ms|
    ensures Inv(ms[i])
  {
    if i > 0 {
      RunInv(ms, ops, i - 1);
      assert StepAt(ms, ops, i - 1);
      StepKeepsInv(ms[i - 1], ops[i - 1], ms[i]);
    }
  }

  /** Over every interleaving, a report changes the row only when it comes from the
      attempt claimed last, and before that attempt's lease runs out. */
  lemma OnlyLatestAttemptReports(ms: seq<Moment>, ops: seq<Op>, i: nat)
    requires IsRun(ms, ops) && i < |ops| && ops[i].Report? && ms[i + 1].row != ms[i].row
    ensures ms[i].latest == Some(ops[i].attempt)
    ensures ms[i].row.status == Sending && ms[i].row.lease.Some? && ms[i + 1].now < ms[i].row.lease.value
  {
    RunInv(ms, ops, i);
    assert StepAt(ms, ops, i);
  }

  /** Once another attempt has been claimed, a late result of attempt a never
      touches the row again. */
  lemma {:induction false} SupersededForever(ms: seq<Moment>, ops: seq<Op>, a: nat, i: nat, j: nat)
    requires IsRun(ms, ops) && i <= j < |ms| && a in ms[i].held && ms[i].latest != Some(a)
    ensures a in ms[j].held && ms[j].latest != Some(a)
    ensures j < |ops| && ops[j].Report? && ops[j].attempt == a ==> ms[j + 1].row == ms[j].row
  {
    if i < j {
      SupersededForever(ms, ops, a, i, j - 1);
      assert StepAt(ms, ops, j - 1);
    }
    RunInv(ms, ops, j);
    if j < |ops| {
      assert StepAt(ms, ops, j);
    }
  }

  /** Equal but for what repair may rewrite: the key and the row's decision. */
  predicate SameDelivery(a: Row, b: Row) { b == a.(key := b.key, decision := b.decision) }

  /** A confirmed delivery is final: whatever is claimed, reported or repaired,
      forced or not, only its key and decision can still change, and it is never
      claimed. */
  lemma {:induction false} SentIsAbsorbing(ms: seq<Moment>, ops: seq<Op>, i: nat, j: nat)
    requires IsRun(ms, ops) && i <= j < |ms| && ms[i].row.status == Sent
    ensures SameDelivery(ms[i].row, ms[j].row)
    ensures j < |ops| ==> !ClaimWins(ms[j], ops[j], ms[j + 1].now)
  {
    if i < j {
      SentIsAbsorbing(ms, ops, i, j - 1);
      assert StepAt(ms, ops, j - 1);
    }
  }

  /** A running lease shields a row from every claim, whatever its status. */
  lemma LeaseShields(row: Row, now: int, force: bool)
    requires row.lease.Some? && now < row.lease.value
    ensures !Claimable(row, now, force)
  {
  }

  /** A row marked unknown is never claimed again, forced or not, and stays marked. */
  lemma {:induction false} MarkedNeverClaimed(ms: seq<Moment>, ops: seq<Op>, i: nat, j: nat)
    requires IsRun(ms, ops) && i < j < |ms| && (ops[i] == Mark || ms[i].row.decision == UnknownIntent)
    ensures ms[j].row.decision == UnknownIntent
    ensures j < |ops| ==> !ClaimWins(ms[j], ops[j], ms[j + 1].now)
  {
    assert StepAt(ms, ops, j - 1);
    if j > i + 1 {
      MarkedNeverClaimed(ms, ops, i, j - 1);
    }
  }

  // ---------------------------------------------------------- failure budget

  ghost predicate Unforced(ops: seq<Op>) {
    forall op :: op in ops && op.Claim? ==> !op.force
  }

  predicate Over(row: Row) { row.status == Failed || row.status == Sent }

  ghost predicate WithinBudget(m: Moment) {
    && m.row.count >= 0
    && (m.row.status == Sending && m.latest.Some? ==> m.row.count >= 1 && m.failures <= m.row.count - 1)
    && m.failures <= m.row.count
    && (!Over(m.row) ==> m.failures < MAX_ATTEMPTS)
    && m.failures <= MAX_ATTEMPTS
  }

  lemma StepKeepsBudget(m: Moment, op: Op, n: Moment)
    requires Inv(m) && WithinBudget(m) && Step(m, op, n) && (op.Claim? ==> !op.force)
    ensures WithinBudget(n)
    ensures m.row.status == Failed ==> SameDelivery(m.row, n.row) || n.row == Promoted(m.row)
  {
  }

  /** Without forced retries at most MAX_ATTEMPTS failures are ever committed, and
      once the last of them is, the row is failed, or sent by a repair. */
  lemma {:induction false} FailureBudget(ms: seq<Moment>, ops: seq<Op>, i: nat)
    requires IsRun(ms, ops) && Unforced(ops) && i < |ms|
    ensures ms[i].failures <= MAX_ATTEMPTS
    ensures ms[i].failures == MAX_ATTEMPTS ==> Over(ms[i].row)
    ensures WithinBudget(ms[i])
  {
    if i > 0 {
      FailureBudget(ms, ops, i - 1);
      RunInv(ms, ops, i - 1);
      assert StepAt(ms, ops, i - 1);
      assert ops[i - 1] in ops;
      StepKeepsBudget(ms[i - 1], ops[i - 1], ms[i]);
    }
  }

  /** Without forced retries a failed row is never claimed or reported on again. It
      stays as it is but for its key and decision, unless a repair finds the
      delivery confirmed elsewhere and promotes it. */
  lemma {:induction false} FailedIsFinalUnforced(ms: seq<Moment>, ops: seq<Op>, i: nat, j: nat)
    requires IsRun(ms, ops) && Unforced(ops) && i <= j < |ms| && ms[i].row.status == Failed
    ensures SameDelivery(ms[i].row, ms[j].row) || SameDelivery(Promoted(ms[i].row), ms[j].row)
    ensures j < |ops| ==> !ClaimWins(ms[j], ops[j], ms[j + 1].now) && !ReportWins(ms[j], ops[j], ms[j + 1].now)
    ensures ms[j].row.status == Sent ==> exists k: nat :: i <= k < j && ops[k].Promote?
  {
    if i < j {
      FailedIsFinalUnforced(ms, ops, i, j - 1);
      FailureBudget(ms, ops, j - 1);
      RunInv(ms, ops, j - 1);
      assert StepAt(ms, ops, j - 1);
      assert ops[j - 1] in ops;
      StepKeepsBudget(ms[j - 1], ops[j - 1], ms[j]);
    }
    if j < |ops| {
      assert ops[j] in ops;
    }
  }

  // ---------------------------------------------------------------- overlaps

  /** Nothing is claimed or reported from moment i to moment j; repairs may come. */
  ghost predicate Quiet(ms: seq<Moment>, ops: seq<Op>, i: nat, j: nat)
    requires |ms| == |ops| + 1 && j <= |ops|
  {
    forall k :: i <= k < j ==> !ClaimWins(ms[k], ops[k], ms[k + 1].now) && !ReportWins(ms[k], ops[k], ms[k + 1].now)
  }

  /** Two attempts never hold the row at once: when one claim follows another, the
      earlier attempt has reported or its lease has run out. */
  lemma {:induction false} ClaimsDoNotOverlap(ms: seq<Moment>, ops: seq<Op>, i: nat, j: nat)
    requires IsRun(ms, ops) && i < j < |ops| && Quiet(ms, ops, i + 1, j)
    requires ClaimWins(ms[i], ops[i], ms[i + 1].now) && ClaimWins(ms[j], ops[j], ms[j + 1].now)
    ensures ms[j + 1].now >= ms[i + 1].now + LEASE_DURATION
  {
    QuietRowKept(ms, ops, i + 1, j);
    assert StepAt(ms, ops, i);
  }

  lemma {:induction false} QuietRowKept(ms: seq<Moment>, ops: seq<Op>, i: nat, j: nat)
    requires IsRun(ms, ops) && i <= j <= |ops| && Quiet(ms, ops, i, j)
    ensures SameDelivery(ms[i].row, ms[j].row) || ms[j].row.status == Sent
  {
    if i < j {
      QuietRowKept(ms, ops, i, j - 1);
      assert StepAt(ms, ops, j - 1);
    }
  }

  /** After a failure that is to be retried, the next claim that is not forced comes
      no earlier than the backoff of that attempt, and never within two minutes: the
      first entry of the table is never used. */
  lemma RetryWaits(ms: seq<Moment>, ops: seq<Op>, i: nat, j: nat)
    requires IsRun(ms, ops) && i < j < |ops| && Quiet(ms, ops, i + 1, j)
    requires ReportWins(ms[i], ops[i], ms[i + 1].now) && ops[i].outcome.Undelivered?
    requires ClaimWins(ms[j], ops[j], ms[j + 1].now) && !ops[j].force
    ensures !ops[i].outcome.terminal && ms[i].row.count < MAX_ATTEMPTS
    ensures ms[j + 1].now >= ops[i].outcome.failedAt + BackoffDuration(ms[i].row.count)
    ensures BackoffDuration(ms[i].row.count) >= 120 * SECOND
  {
    RunInv(ms, ops, i);
    assert StepAt(ms, ops, i);
    QuietRowKept(ms, ops, i + 1, j);
    assert StepAt(ms, ops, j);
  }
}
