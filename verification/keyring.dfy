/** The versioned key ring: per-domain histories under rotation, replacement,
    loss, verification windows and changes of the wrapping key. */
module KeyHistory {
  import opened Basics

  datatype Domain =
    | EntryIdentity | CursorSigning | AuditFingerprint | RecoveryCleanupOwnership
    | RclonePreflightIdentity | SearchToken | DerivedStore | ExportStore

  predicate Rebuildable(d: Domain) { d.SearchToken? || d.DerivedStore? || d.ExportStore? }

  predicate InstallationStable(d: Domain) {
    d.EntryIdentity? || d.RecoveryCleanupOwnership? || d.RclonePreflightIdentity? || d.SearchToken?
  }

  const MAX_OVERLAP := 7 * 24 * 3600 * SECOND

  datatype State = Active | VerifyOnly | Retired | Lost

  /** Ideal authenticated wrapping: an envelope opens only under the wrapping key
      and the domain and version it was sealed for. */
  datatype Envelope = Envelope(kek: nat, domain: Domain, version: int, plaintext: nat)

  datatype Row = Row(domain: Domain, version: int, state: State, wrapped: Envelope, verifyUntil: Option<int>,
      lostAt: Option<int>)

  /** The rows of one domain in version order, as the store returns them. */
  type Ring = seq<Row>

  /** The wrapping keys the process is configured with. */
  datatype Keks = Keks(primary: nat, previous: set<nat>)

  function All(k: Keks): set<nat> { k.previous + {k.primary} }

  function Unwrapped(row: Row, keks: set<nat>): Result<nat> {
    if row.version <= 0 then Err(KeyUnavailable)
    else if row.state == Lost then Err(KeyLost)
    else if row.wrapped.domain != row.domain || row.wrapped.version != row.version || row.wrapped.kek !in keks
      then Err(KeyUnavailable)
    else Ok(row.wrapped.plaintext)
  }

  predicate WindowClosed(row: Row, now: int) {
    row.state == Retired || (row.state == VerifyOnly && row.verifyUntil.Some? && now >= row.verifyUntil.value)
  }

  /** The key a version offers at an instant, or why it offers none. */
  function Material(row: Row, now: int, keks: set<nat>): Result<nat> {
    match Unwrapped(row, keks)
    case Err(e) => Err(e)
    case Ok(key) => if WindowClosed(row, now) then Err(KeyUnavailable) else Ok(key)
  }

  function NewRow(d: Domain, version: int, keks: Keks, key: nat): Row {
    Row(d, version, Active, Envelope(keks.primary, d, version, key), None, None)
  }

  // ------------------------------------------------------------ transactions

  function LastActive(ring: Ring): (r: Option<nat>)
    ensures r.Some? ==> r.value < |ring| && ring[r.value].state == Active
  {
    if ring == [] then None
    else if ring[|ring| - 1].state == Active then Some(|ring| - 1)
    else LastActive(ring[..|ring| - 1])
  }

  function MaxVersion(ring: Ring): int {
    if ring == [] then 0
    else if ring[|ring| - 1].version > MaxVersion(ring[..|ring| - 1]) then ring[|ring| - 1].version
    else MaxVersion(ring[..|ring| - 1])
  }

  predicate NewestLost(ring: Ring) { |ring| > 0 && ring[|ring| - 1].state == Lost }

  predicate AnyLost(ring: Ring) { exists i :: 0 <= i < |ring| && ring[i].state == Lost }

  function Replaced(ring: Ring, i: nat, row: Row): Ring
    requires i < |ring|
  {
    ring[i := row]
  }

  function Rotated(d: Domain, ring: Ring, verifyFor: int, now: int, keks: Keks, key: nat): Result<Ring> {
    if InstallationStable(d) then Err(KeyRotationProhibited)
    else if d == CursorSigning && !(0 < verifyFor <= MAX_OVERLAP) then Err(InvalidState)
    else
      var active := LastActive(ring);
      if active.None? then Err(if AnyLost(ring) then KeyLost else KeyUnavailable)
      else
        match Material(ring[active.value], now, All(keks))
        case Err(e) => Err(e)
        case Ok(_) =>
          var until := if d == CursorSigning then Some(now + verifyFor) else None;
          Ok(Replaced(ring, active.value, ring[active.value].(state := VerifyOnly, verifyUntil := until))
             + [NewRow(d, MaxVersion(ring) + 1, keks, key)])
  }

  /** The caller's invalidation callback and how it ends. */
  datatype Invalidation = Absent | Fails(error: Error) | Succeeds

  function Rebuilt(d: Domain, ring: Ring, invalidation: Invalidation, now: int, keks: Keks, key: nat): Result<Ring> {
    if !Rebuildable(d) then Err(KeyRotationProhibited)
    else if invalidation == Absent then Err(InvalidState)
    else
      var active, max := LastActive(ring), MaxVersion(ring);
      if max == 0 then Err(KeyUnavailable)
      else if active.None? && (|ring| == 0 || ring[|ring| - 1].state != Lost) then Err(KeyUnavailable)
      else if active.Some? && Material(ring[active.value], now, All(keks)).Err?
        then Err(Material(ring[active.value], now, All(keks)).error)
      else if invalidation.Fails? then Err(invalidation.error)
      else
        var kept := if active.None? then ring
                    else Replaced(ring, active.value, ring[active.value].(state := Retired, verifyUntil := None));
        Ok(kept + [NewRow(d, max + 1, keks, key)])
  }

  function IndexOf(ring: Ring, version: int): (r: Option<nat>)
    ensures r.Some? ==> r.value < |ring| && ring[r.value].version == version
    ensures r.None? ==> forall i :: 0 <= i < |ring| ==> ring[i].version != version
  {
    if ring == [] then None
    else if ring[|ring| - 1].version == version then Some(|ring| - 1)
    else IndexOf(ring[..|ring| - 1], version)
  }

  function LostRow(row: Row, now: int): Row { row.(state := Lost, verifyUntil := None, lostAt := Some(now)) }

  function MarkedLost(d: Domain, ring: Ring, version: int, now: int): Result<Ring> {
    if Rebuildable(d) then Err(KeyRotationProhibited)
    else if version <= 0 then Err(KeyUnavailable)
    else
      var at := IndexOf(ring, version);
      if at.None? || ring[at.value].state == Lost then Err(KeyUnavailable)
      else Ok(Replaced(ring, at.value, LostRow(ring[at.value], now)))
  }

  function RebuildableLost(d: Domain, ring: Ring, version: int, invalidation: Invalidation, now: int): Result<Ring> {
    if !Rebuildable(d) then Err(KeyRotationProhibited)
    else if invalidation == Absent then Err(InvalidState)
    else if version <= 0 then Err(KeyUnavailable)
    else
      var at := IndexOf(ring, version);
      if at.None? || !(ring[at.value].state == Active || (d == ExportStore && ring[at.value].state == VerifyOnly))
        then Err(KeyUnavailable)
      else if invalidation.Fails? then Err(invalidation.error)
      else Ok(Replaced(ring, at.value, LostRow(ring[at.value], now)))
  }

  function Current(ring: Ring, now: int, keks: Keks): Result<nat> {
    var active := LastActive(ring);
    if active.Some? then Material(ring[active.value], now, All(keks))
    else if |ring| > 0 && ring[|ring| - 1].state == Lost then Err(KeyLost)
    else Err(KeyUnavailable)
  }

  /** Ensure answers with the active key; only an empty domain gets version 1. An
      active key that does not open is reported lost if an older version is. */
  function Ensured(d: Domain, ring: Ring, now: int, keks: Keks, key: nat): (Ring, Result<nat>) {
    if Current(ring, now, keks).Ok? then (ring, Current(ring, now, keks))
    else if AnyLost(ring) then (ring, Err(KeyLost))
    else if |ring| > 0 then (ring, Err(KeyUnavailable))
    else ([NewRow(d, 1, keks, key)], Ok(key))
  }

  function Rewrapped(row: Row, keks: Keks): Row {
    if row.state == Lost then row else row.(wrapped := Envelope(keks.primary, row.domain, row.version,
      row.wrapped.plaintext))
  }

  function RewrappedRing(ring: Ring, keks: Keks): Ring {
    seq(|ring|, i requires 0 <= i < |ring| => Rewrapped(ring[i], keks))
  }

  predicate Opens(ring: Ring, keks: Keks) {
    forall i :: 0 <= i < |ring| && ring[i].state != Lost ==> Unwrapped(ring[i], All(keks)).Ok?
  }

  // -------------------------------------------------------------------- runs

  type Store = map<Domain, Ring>

  function RingOf(s: Store, d: Domain): Ring { if d in s then s[d] else [] }

  datatype Op =
    | Ensure(domain: Domain, key: nat)
    | Rotate(domain: Domain, verifyFor: int, key: nat)
    | Rebuild(domain: Domain, invalidation: Invalidation, key: nat)
    | Lose(domain: Domain, version: int)
    | LoseRebuildable(domain: Domain, version: int, invalidation: Invalidation)
    | Rewrap(domains: set<Domain>)

  function OrElse(r: Result<Ring>, ring: Ring): Ring { if r.Ok? then r.value else ring }

  ghost predicate AllOpen(s: Store, ds: set<Domain>, keks: Keks) { forall d :: d in ds ==> Opens(RingOf(s, d), keks) }

  /** What one transaction leaves of a domain's ring; rewrapping several domains
      is all or nothing. */
  ghost function After(s: Store, d: Domain, op: Op, now: int, keks: Keks): Ring {
    var ring := RingOf(s, d);
    match op
    case Ensure(e, key) => if e == d then Ensured(d, ring, now, keks, key).0 else ring
    case Rotate(e, verifyFor, key) => if e == d then OrElse(Rotated(d, ring, verifyFor, now, keks, key), ring) else ring
    case Rebuild(e, invalidation, key) => if e == d then OrElse(Rebuilt(d, ring, invalidation, now, keks, key), ring)
      else ring
    case Lose(e, version) => if e == d then OrElse(MarkedLost(d, ring, version, now), ring) else ring
    case LoseRebuildable(e, version, invalidation) =>
      if e == d then OrElse(RebuildableLost(d, ring, version, invalidation, now), ring) else ring
    case Rewrap(ds) => if d in ds && AllOpen(s, ds, keks) then RewrappedRing(ring, keks) else ring
  }

  /** now and keks are the instant and the configuration of the step that led here. */
  datatype Moment = Moment(now: int, keks: Keks, store: Store)

  ghost predicate Step(m: Moment, op: Op, n: Moment) {
    && m.now <= n.now
    && forall d :: RingOf(n.store, d) == After(m.store, d, op, n.now, n.keks)
  }

  ghost predicate StepAt(ms: seq<Moment>, ops: seq<Op>, i: nat)
    requires i < |ops| && |ms| == |ops| + 1
  {
    Step(ms[i], ops[i], ms[i + 1])
  }

  ghost predicate IsRun(ms: seq<Moment>, ops: seq<Op>) {
    && |ms| == |ops| + 1 && ms[0].store == map[]
    && forall i: nat :: i < |ops| ==> StepAt(ms, ops, i)
  }

  // -------------------------------------------------------------- invariants

  /** Versions are exactly 1..n, each row is sealed for itself, only the newest can
      be active and it is active or lost. */
  predicate RingOk(d: Domain, ring: Ring) {
    && (forall i :: 0 <= i < |ring| ==> RowOk(d, ring[i], i + 1))
    && (forall i :: 0 <= i < |ring| - 1 ==> ring[i].state != Active)
    && (|ring| > 0 ==> ring[|ring| - 1].state == Active || ring[|ring| - 1].state == Lost)
  }

  predicate RowOk(d: Domain, row: Row, version: int) {
    && row.version == version && row.domain == d
    && row.wrapped.domain == d && row.wrapped.version == version
    && (row.verifyUntil.Some? ==> row.state == VerifyOnly)
  }

  lemma {:induction false} RingFacts(d: Domain, ring: Ring)
    requires RingOk(d, ring)
    ensures LastActive(ring) == if |ring| > 0 && ring[|ring| - 1].state == Active then Some(|ring| - 1) else None
    ensures MaxVersion(ring) == |ring|
    ensures LastActive(ring).None? && |ring| > 0 ==> AnyLost(ring)
  {
    NoneActive(ring, |ring| - 1);
    VersionsCount(ring, |ring|);
  }

  lemma {:induction false} NoneActive(ring: Ring, n: int)
    requires n <= |ring| && forall i :: 0 <= i < n ==> ring[i].state != Active
    ensures n >= 0 ==> LastActive(ring[..n]) == None
  {
    if n > 0 {
      NoneActive(ring, n - 1);
      assert ring[..n][..n - 1] == ring[..n - 1];
    }
  }

  lemma {:induction false} VersionsCount(ring: Ring, n: nat)
    requires n <= |ring| && forall i :: 0 <= i < n ==> ring[i].version == i + 1
    ensures MaxVersion(ring[..n]) == n
    ensures n == |ring| ==> MaxVersion(ring) == n
  {
    assert n == |ring| ==> ring[..n] == ring;
    if n > 0 {
      VersionsCount(ring, n - 1);
      assert ring[..n][..n - 1] == ring[..n - 1];
    }
  }

  lemma {:induction false} IndexIs(d: Domain, ring: Ring, version: int)
    requires RingOk(d, ring)
    ensures IndexOf(ring, version) == if 1 <= version <= |ring| then Some(version - 1) else None
  {
    if 1 <= version <= |ring| {
      assert ring[version - 1].version == version;
    }
  }

  /** How one step may change the row of an existing version. */
  predicate RowStep(d: Domain, a: Row, b: Row, now: int, keks: Keks, verifyFor: Option<int>) {
    && b.domain == a.domain && b.version == a.version
    && b.wrapped.plaintext == a.wrapped.plaintext
    && (b.wrapped == a.wrapped || (Unwrapped(a, All(keks)).Ok? && b.state == a.state && b.wrapped.kek == keks.primary))
    && ((b.state == a.state && b.verifyUntil == a.verifyUntil)
        || b.state == Lost
        || (a.state == Active && b.state == Retired && Rebuildable(d))
        || (a.state == Active && b.state == VerifyOnly && Material(a, now, All(keks)).Ok? && verifyFor.Some?
            && b.verifyUntil == if d == CursorSigning then Some(now + verifyFor.value) else None))
    && (a.state == Lost ==> b.state == Lost)
  }

  function Overlap(op: Op): Option<int> { if op.Rotate? then Some(op.verifyFor) else None }

  lemma RotatedKeeps(d: Domain, ring: Ring, verifyFor: int, now: int, keks: Keks, key: nat)
    requires RingOk(d, ring)
    ensures var r := Rotated(d, ring, verifyFor, now, keks, key); r.Ok? ==>
      RingOk(d, r.value) && |r.value| == |ring| + 1
  {
    RingFacts(d, ring);
  }

  lemma RebuiltKeeps(d: Domain, ring: Ring, invalidation: Invalidation, now: int, keks: Keks, key: nat)
    requires RingOk(d, ring)
    ensures var r := Rebuilt(d, ring, invalidation, now, keks, key); r.Ok? ==>
      RingOk(d, r.value) && |r.value| == |ring| + 1
  {
    RingFacts(d, ring);
  }

  lemma LossKeeps(d: Domain, ring: Ring, version: int, invalidation: Invalidation, now: int)
    requires RingOk(d, ring)
    ensures var r := MarkedLost(d, ring, version, now); r.Ok? ==> RingOk(d, r.value) && |r.value| == |ring|
    ensures var r := RebuildableLost(d, ring, version, invalidation, now); r.Ok? ==>
      RingOk(d, r.value) && |r.value| == |ring|
  {
    IndexIs(d, ring, version);
  }

  lemma StepKeepsRing(m: Moment, op: Op, n: Moment, d: Domain)
    requires Step(m, op, n) && RingOk(d, RingOf(m.store, d))
    ensures RingOk(d, RingOf(n.store, d))
    ensures |RingOf(m.store, d)| <= |RingOf(n.store, d)| <= |RingOf(m.store, d)| + 1
  {
    var ring := RingOf(m.store, d);
    assert RingOf(n.store, d) == After(m.store, d, op, n.now, n.keks);
    match op
    case Rotate(_, verifyFor, key) => RotatedKeeps(d, ring, verifyFor, n.now, n.keks, key);
    case Rebuild(_, invalidation, key) => RebuiltKeeps(d, ring, invalidation, n.now, n.keks, key);
    case Lose(_, version) => LossKeeps(d, ring, version, Absent, n.now);
    case LoseRebuildable(_, version, invalidation) => LossKeeps(d, ring, version, invalidation, n.now);
    case _ => RingFacts(d, ring);
  }

  lemma StepKeepsRow(m: Moment, op: Op, n: Moment, d: Domain, i: nat)
    requires Step(m, op, n) && RingOk(d, RingOf(m.store, d)) && i < |RingOf(m.store, d)|
    ensures i < |RingOf(n.store, d)|
    ensures RowStep(d, RingOf(m.store, d)[i], RingOf(n.store, d)[i], n.now, n.keks, Overlap(op))
  {
    var ring := RingOf(m.store, d);
    assert RingOf(n.store, d) == After(m.store, d, op, n.now, n.keks);
    RingFacts(d, ring);
    if op.Lose? || op.LoseRebuildable? {
      IndexIs(d, ring, op.version);
    }
  }

  /** In every run each domain's versions are exactly 1..n and only the newest can
      be active; a domain without an active key is empty or has lost its newest. */
  lemma {:induction false} VersionsExact(ms: seq<Moment>, ops: seq<Op>, k: nat, d: Domain)
    requires IsRun(ms, ops) && k < |ms|
    ensures RingOk(d, RingOf(ms[k].store, d))
  {
    if k > 0 {
      VersionsExact(ms, ops, k - 1, d);
      assert StepAt(ms, ops, k - 1);
      StepKeepsRing(ms[k - 1], ops[k - 1], ms[k], d);
    }
  }

  /** Losing the newest key of a domain that cannot be rebuilt leaves it without an
      active key for ever: no version is added, none is active, and both ways to
      obtain a key answer that it is lost. */
  lemma {:induction false} LossIsForever(ms: seq<Moment>, ops: seq<Op>, i: nat, j: nat, d: Domain)
    requires IsRun(ms, ops) && i <= j < |ms| && !Rebuildable(d) && NewestLost(RingOf(ms[i].store, d))
    ensures var ring := RingOf(ms[j].store, d);
      && |ring| == |RingOf(ms[i].store, d)| && NewestLost(ring)
      && (forall k :: 0 <= k < |ring| ==> ring[k].state != Active)
      && (forall now, keks, key :: Ensured(d, ring, now, keks, key) == (ring, Err(KeyLost)))
      && (forall verifyFor, now, keks, key :: Rotated(d, ring, verifyFor, now, keks, key).Err?)
  {
    VersionsExact(ms, ops, j, d);
    if i < j {
      LossIsForever(ms, ops, i, j - 1, d);
      VersionsExact(ms, ops, j - 1, d);
      assert StepAt(ms, ops, j - 1);
      StepKeepsLoss(ms[j - 1], ops[j - 1], ms[j], d);
    }
    LossRefuses(d, RingOf(ms[j].store, d));
  }

  /** Every read of the version answers that it is lost, whatever can be unwrapped. */
  ghost predicate ReadsLost(row: Row) { forall now, keks :: Material(row, now, keks) == Err(KeyLost) }

  /** Which losses commit, and that they take effect at once: any version of a domain
      that cannot be rebuilt, active or not, unless it is lost already. Nothing else
      in any domain changes. */
  lemma LossTakesEffect(ms: seq<Moment>, ops: seq<Op>, i: nat, d: Domain, v: int)
    requires IsRun(ms, ops) && i < |ops| && ops[i] == Lose(d, v)
    ensures |RingOf(ms[i + 1].store, d)| == |RingOf(ms[i].store, d)|
    ensures !Rebuildable(d) && 1 <= v <= |RingOf(ms[i].store, d)| ==>
      ReadsLost(RingOf(ms[i + 1].store, d)[v - 1])
    ensures forall k :: 0 <= k < |RingOf(ms[i].store, d)| && (Rebuildable(d) || k != v - 1) ==>
      RingOf(ms[i + 1].store, d)[k] == RingOf(ms[i].store, d)[k]
    ensures MarkedLost(d, RingOf(ms[i].store, d), v, ms[i + 1].now).Ok? <==>
      !Rebuildable(d) && 1 <= v <= |RingOf(ms[i].store, d)| && RingOf(ms[i].store, d)[v - 1].state != Lost
    ensures forall e :: e != d ==> RingOf(ms[i + 1].store, e) == RingOf(ms[i].store, e)
  {
    var ring := RingOf(ms[i].store, d);
    VersionsExact(ms, ops, i, d);
    assert StepAt(ms, ops, i);
    IndexIs(d, ring, v);
    assert RingOf(ms[i + 1].store, d) == After(ms[i].store, d, ops[i], ms[i + 1].now, ms[i + 1].keks);
  }

  /** The same for a domain that can be rebuilt: a loss commits exactly when its
      invalidation succeeds on an active version, for exports a verify-only one too. */
  lemma RebuildableLossTakesEffect(ms: seq<Moment>, ops: seq<Op>, i: nat, d: Domain, v: int, invalidation: Invalidation)
    requires IsRun(ms, ops) && i < |ops| && ops[i] == LoseRebuildable(d, v, invalidation)
    ensures var before, after := RingOf(ms[i].store, d), RingOf(ms[i + 1].store, d);
      && |after| == |before|
      && (after != before <==>
            && Rebuildable(d) && invalidation.Succeeds? && 1 <= v <= |before|
            && (before[v - 1].state == Active || (d == ExportStore && before[v - 1].state == VerifyOnly)))
      && (after != before ==> ReadsLost(after[v - 1]))
      && (forall k :: 0 <= k < |before| && k != v - 1 ==> after[k] == before[k])
  {
    var ring := RingOf(ms[i].store, d);
    VersionsExact(ms, ops, i, d);
    assert StepAt(ms, ops, i);
    IndexIs(d, ring, v);
    assert RingOf(ms[i + 1].store, d) == After(ms[i].store, d, ops[i], ms[i + 1].now, ms[i + 1].keks);
  }

  /** Marking the newest version of a domain that cannot be rebuilt as lost is final:
      from the very step on, the domain has no active key, no further version, and
      every request for a key is refused. */
  lemma LosingNewestIsFinal(ms: seq<Moment>, ops: seq<Op>, i: nat, j: nat, d: Domain)
    requires IsRun(ms, ops) && i < j < |ms| && !Rebuildable(d) && RingOf(ms[i].store, d) != []
    requires ops[i] == Lose(d, |RingOf(ms[i].store, d)|)
    ensures var ring := RingOf(ms[j].store, d);
      && |ring| == |RingOf(ms[i].store, d)|
      && (forall k :: 0 <= k < |ring| ==> ring[k].state != Active)
      && (forall now, keks, key :: Ensured(d, ring, now, keks, key) == (ring, Err(KeyLost)))
      && (forall verifyFor, now, keks, key :: Rotated(d, ring, verifyFor, now, keks, key).Err?)
  {
    var n := |RingOf(ms[i].store, d)|;
    LossTakesEffect(ms, ops, i, d, n);
    VersionsExact(ms, ops, i + 1, d);
    assert Material(RingOf(ms[i + 1].store, d)[n - 1], 0, {}) == Err(KeyLost);
    LossIsForever(ms, ops, i + 1, j, d);
  }

  lemma LossRefuses(d: Domain, ring: Ring)
    requires RingOk(d, ring) && NewestLost(ring)
    ensures forall k :: 0 <= k < |ring| ==> ring[k].state != Active
    ensures forall now, keks, key :: Ensured(d, ring, now, keks, key) == (ring, Err(KeyLost))
    ensures forall verifyFor, now, keks, key :: Rotated(d, ring, verifyFor, now, keks, key).Err?
  {
    RingFacts(d, ring);
  }

  lemma StepKeepsLoss(m: Moment, op: Op, n: Moment, d: Domain)
    requires Step(m, op, n) && RingOk(d, RingOf(m.store, d)) && NewestLost(RingOf(m.store, d)) && !Rebuildable(d)
    ensures |RingOf(n.store, d)| == |RingOf(m.store, d)| && NewestLost(RingOf(n.store, d))
  {
    var ring := RingOf(m.store, d);
    assert RingOf(n.store, d) == After(m.store, d, op, n.now, n.keks);
    RingFacts(d, ring);
    LossRefuses(d, ring);
    StepKeepsRow(m, op, n, d, |ring| - 1);
  }

  /** Exactly when creating a key reports it lost: the newest version is lost, or an
      older one is and the active key cannot be read. */
  lemma EnsureReportsLossIff(d: Domain, ring: Ring, now: int, keks: Keks, key: nat)
    requires RingOk(d, ring)
    ensures Ensured(d, ring, now, keks, key).1 == Err(KeyLost) <==>
      NewestLost(ring) || (AnyLost(ring) && Current(ring, now, keks).Err?)
  {
    RingFacts(d, ring);
    assert NewestLost(ring) ==> AnyLost(ring);
  }

  /** The second case happens: create, rotate, lose the old version, drop the
      wrapping key. The active key is not lost, only unreadable, and is so reported
      by the lookup itself; creating a key reports it lost. */
  lemma UnreadableReportedLost(now: int, a: nat, b: nat, sealing: nat, other: nat)
      returns (ms: seq<Moment>, ops: seq<Op>)
    requires sealing != other
    ensures IsRun(ms, ops) && |ms| == 4
    ensures var ring := RingOf(ms[3].store, AuditFingerprint);
      && |ring| == 2 && ring[1].state == Active
      && Current(ring, now, Keks(other, {})) == Err(KeyUnavailable)
      && Ensured(AuditFingerprint, ring, now, Keks(other, {}), b).1 == Err(KeyLost)
  {
    var d, keks := AuditFingerprint, Keks(sealing, {});
    var first, second := NewRow(d, 1, keks, a), NewRow(d, 2, keks, b);
    var demoted := first.(state := VerifyOnly);
    var empty: Store := map[];
    ops := [Ensure(d, a), Rotate(d, 0, b), Lose(d, 1)];
    ms := [Moment(now, keks, empty), Moment(now, keks, map[d := [first]]),
           Moment(now, keks, map[d := [demoted, second]]),
             Moment(now, keks, map[d := [LostRow(demoted, now), second]])];
    RingFacts(d, [first]);
    RingFacts(d, [demoted, second]);
    IndexIs(d, [demoted, second], 1);
    assert StepAt(ms, ops, 0) by {
      assert After(empty, d, ops[0], now, keks) == [first];
    }
    assert StepAt(ms, ops, 1) by {
      assert Rotated(d, [first], 0, now, keks, b).value == [demoted, second];
    }
    assert StepAt(ms, ops, 2) by {
      assert MarkedLost(d, [demoted, second], 1, now).value == [LostRow(demoted, now), second];
    }
    var ring := [LostRow(demoted, now), second];
    RingFacts(d, ring);
    assert AnyLost(ring) by { assert ring[0].state == Lost; }
    EnsureReportsLossIff(d, ring, now, Keks(other, {}), b);
  }

  /** The installation-stable domains never get a second version. */
  lemma {:induction false} StableDomainsKeepTheirKey(ms: seq<Moment>, ops: seq<Op>, k: nat, d: Domain)
    requires IsRun(ms, ops) && k < |ms| && d in {EntryIdentity, RecoveryCleanupOwnership, RclonePreflightIdentity}
    ensures |RingOf(ms[k].store, d)| <= 1
  {
    if k > 0 {
      StableDomainsKeepTheirKey(ms, ops, k - 1, d);
      assert StepAt(ms, ops, k - 1);
      assert RingOf(ms[k].store, d) == After(ms[k - 1].store, d, ops[k - 1], ms[k].now, ms[k].keks);
    }
  }

  /** An envelope opens nothing but the row it was sealed for. */
  lemma EnvelopesDoNotMove(a: Row, b: Row, keks: set<nat>)
    requires Unwrapped(a, keks).Ok? && b.wrapped == a.wrapped && (b.domain != a.domain || b.version != a.version)
    ensures Unwrapped(b, keks).Err? && forall now :: Material(b, now, keks).Err?
  {
  }

  /** A rotation commits exactly in a domain that may rotate, with an overlap the
      cursor domain allows, on an active newest version whose key opens. */
  lemma RotationCommitsIff(d: Domain, ring: Ring, verifyFor: int, now: int, keks: Keks, key: nat)
    requires RingOk(d, ring)
    ensures Rotated(d, ring, verifyFor, now, keks, key).Ok? <==>
      && d in {CursorSigning, AuditFingerprint, DerivedStore, ExportStore}
      && (d == CursorSigning ==> 0 < verifyFor <= 7 * 24 * 3600 * SECOND)
      && |ring| > 0 && ring[|ring| - 1].state == Active && ring[|ring| - 1].wrapped.kek in All(keks)
    ensures Rotated(d, ring, verifyFor, now, keks, key).Ok? ==>
      var after := Rotated(d, ring, verifyFor, now, keks, key).value;
      |after| == |ring| + 1 && Material(after[|ring|], now, All(keks)) == Ok(key)
  {
    RingFacts(d, ring);
  }

  /** A replacement commits exactly in a domain that can be rebuilt, once its
      invalidation succeeds, on a newest version that is lost or active and open. */
  lemma ReplacementCommitsIff(d: Domain, ring: Ring, invalidation: Invalidation, now: int, keks: Keks, key: nat)
    requires RingOk(d, ring)
    ensures Rebuilt(d, ring, invalidation, now, keks, key).Ok? <==>
      && d in {SearchToken, DerivedStore, ExportStore} && invalidation.Succeeds? && |ring| > 0
      && (ring[|ring| - 1].state == Lost || ring[|ring| - 1].wrapped.kek in All(keks))
    ensures Rebuilt(d, ring, invalidation, now, keks, key).Ok? ==>
      var after := Rebuilt(d, ring, invalidation, now, keks, key).value;
      |after| == |ring| + 1 && Material(after[|ring|], now, All(keks)) == Ok(key)
  {
    RingFacts(d, ring);
  }

  /** Creating a key gives an empty domain its first version, and otherwise changes
      nothing and answers an active key that opens. */
  lemma EnsureAnswers(d: Domain, ring: Ring, now: int, keks: Keks, key: nat)
    requires RingOk(d, ring)
    ensures var (after, r) := Ensured(d, ring, now, keks, key);
      && (ring == [] ==> r == Ok(key) && |after| == 1 && Material(after[0], now, All(keks)) == r)
      && (ring != [] ==> after == ring)
      && (ring != [] ==> (r.Ok? <==> ring[|ring| - 1].state == Active && ring[|ring| - 1].wrapped.kek in All(keks)))
      && (ring != [] && r.Ok? ==> r.value == ring[|ring| - 1].wrapped.plaintext)
  {
    RingFacts(d, ring);
  }

  /** A version that has become unavailable never becomes available again, as long
      as no step is configured with wrapping keys beyond those it was refused to. */
  lemma {:induction false} UnavailableForever(ms: seq<Moment>, ops: seq<Op>, i: nat, j: nat, d: Domain, k: nat,
      keks: set<nat>)
    requires IsRun(ms, ops) && i <= j < |ms| && k < |RingOf(ms[i].store, d)|
    requires forall x :: i < x <= j ==> All(ms[x].keks) <= keks
    requires Material(RingOf(ms[i].store, d)[k], ms[i].now, keks).Err?
    ensures k < |RingOf(ms[j].store, d)|
    ensures Material(RingOf(ms[j].store, d)[k], ms[j].now, keks).Err?
  {
    if i < j {
      UnavailableForever(ms, ops, i, j - 1, d, k, keks);
      VersionsExact(ms, ops, j - 1, d);
      assert StepAt(ms, ops, j - 1);
      StepKeepsRow(ms[j - 1], ops[j - 1], ms[j], d, k);
      assert All(ms[j].keks) <= keks;
    }
  }

  /** Lost, retired or past its window: refused under any wrapping keys. */
  predicate Spent(row: Row, now: int) { row.state == Lost || WindowClosed(row, now) }

  lemma {:induction false} SpentForever(ms: seq<Moment>, ops: seq<Op>, i: nat, j: nat, d: Domain, k: nat,
      keks: set<nat>)
    requires IsRun(ms, ops) && i <= j < |ms| && k < |RingOf(ms[i].store, d)|
      && Spent(RingOf(ms[i].store, d)[k], ms[i].now)
    ensures k < |RingOf(ms[j].store, d)| && Spent(RingOf(ms[j].store, d)[k], ms[j].now)
    ensures Material(RingOf(ms[j].store, d)[k], ms[j].now, keks).Err?
  {
    if i < j {
      SpentForever(ms, ops, i, j - 1, d, k, keks);
      VersionsExact(ms, ops, j - 1, d);
      assert StepAt(ms, ops, j - 1);
      StepKeepsRow(ms[j - 1], ops[j - 1], ms[j], d, k);
    }
  }

  /** A version means one key: whatever rewraps and rotations lie between, two
      successful reads of it give the same material. */
  lemma {:induction false} VersionMeansOneKey(ms: seq<Moment>, ops: seq<Op>, i: nat, j: nat, d: Domain, k: nat,
      early: set<nat>, late: set<nat>)
    requires IsRun(ms, ops) && i <= j < |ms| && k < |RingOf(ms[i].store, d)|
    ensures k < |RingOf(ms[j].store, d)|
    ensures var first := Material(RingOf(ms[i].store, d)[k], ms[i].now, early);
      var second := Material(RingOf(ms[j].store, d)[k], ms[j].now, late);
      first.Ok? && second.Ok? ==> first == second
  {
    PlaintextFixed(ms, ops, i, j, d, k);
  }

  lemma {:induction false} PlaintextFixed(ms: seq<Moment>, ops: seq<Op>, i: nat, j: nat, d: Domain, k: nat)
    requires IsRun(ms, ops) && i <= j < |ms| && k < |RingOf(ms[i].store, d)|
    ensures k < |RingOf(ms[j].store, d)|
      && RingOf(ms[j].store, d)[k].wrapped.plaintext == RingOf(ms[i].store, d)[k].wrapped.plaintext
  {
    if i < j {
      PlaintextFixed(ms, ops, i, j - 1, d, k);
      VersionsExact(ms, ops, j - 1, d);
      assert StepAt(ms, ops, j - 1);
      StepKeepsRow(ms[j - 1], ops[j - 1], ms[j], d, k);
    }
  }

  /** Until when a rotation lets the demoted key verify; None is without end. */
  function Granted(d: Domain, verifyFor: int, now: int): Option<int> {
    if d == CursorSigning then Some(now + verifyFor) else None
  }

  predicate Demoted(ring: Ring, k: nat, until: Option<int>) {
    k < |ring| && (ring[k].state == Lost || (ring[k].state == VerifyOnly && ring[k].verifyUntil == until))
  }

  predicate Rotates(m: Moment, op: Op, n: Moment, d: Domain) {
    op.Rotate? && op.domain == d && Rotated(d, RingOf(m.store, d), op.verifyFor, n.now, n.keks, op.key).Ok?
  }

  lemma RotationDemotes(m: Moment, op: Op, n: Moment, d: Domain)
    requires Step(m, op, n) && RingOk(d, RingOf(m.store, d)) && Rotates(m, op, n, d)
    ensures |RingOf(m.store, d)| > 0
    ensures Demoted(RingOf(n.store, d), |RingOf(m.store, d)| - 1, Granted(d, op.verifyFor, n.now))
  {
    RingFacts(d, RingOf(m.store, d));
    assert RingOf(n.store, d) == After(m.store, d, op, n.now, n.keks);
  }

  lemma {:induction false} DemotedStays(ms: seq<Moment>, ops: seq<Op>, i: nat, j: nat, d: Domain, k: nat,
      until: Option<int>)
    requires IsRun(ms, ops) && i <= j < |ms| && Demoted(RingOf(ms[i].store, d), k, until)
    ensures Demoted(RingOf(ms[j].store, d), k, until)
  {
    if i < j {
      DemotedStays(ms, ops, i, j - 1, d, k, until);
      VersionsExact(ms, ops, j - 1, d);
      assert StepAt(ms, ops, j - 1);
      StepKeepsRow(ms[j - 1], ops[j - 1], ms[j], d, k);
    }
  }

  /** The window a rotation opens is neither shortened nor extended: at every later
      moment the demoted version is lost, or its key is offered exactly until the
      overlap granted at the rotation has passed. */
  lemma OverlapIsExact(ms: seq<Moment>, ops: seq<Op>, i: nat, j: nat, d: Domain, keks: set<nat>)
    requires IsRun(ms, ops) && i < j < |ms| && Rotates(ms[i], ops[i], ms[i + 1], d)
    ensures 0 < |RingOf(ms[i].store, d)| <= |RingOf(ms[j].store, d)|
    ensures var row := RingOf(ms[j].store, d)[|RingOf(ms[i].store, d)| - 1];
      var until := Granted(d, ops[i].verifyFor, ms[i + 1].now);
      row.state == Lost || (Unwrapped(row, keks).Ok? ==>
        (Material(row, ms[j].now, keks).Ok? <==> (until.Some? ==> ms[j].now < until.value)))
  {
    VersionsExact(ms, ops, i, d);
    assert StepAt(ms, ops, i);
    RotationDemotes(ms[i], ops[i], ms[i + 1], d);
    DemotedStays(ms, ops, i + 1, j, d, |RingOf(ms[i].store, d)| - 1, Granted(d, ops[i].verifyFor, ms[i + 1].now));
  }

  /** Replacing a rebuildable key retires it at once: from the replacement on, the
      version that was newest before is refused under any wrapping keys. */
  lemma ReplacedNeverReturns(ms: seq<Moment>, ops: seq<Op>, i: nat, j: nat, d: Domain, keks: set<nat>)
    requires IsRun(ms, ops) && i < j < |ms| && ops[i].Rebuild? && ops[i].domain == d
    requires Rebuilt(d, RingOf(ms[i].store, d), ops[i].invalidation, ms[i + 1].now, ms[i + 1].keks, ops[i].key).Ok?
    ensures |RingOf(ms[i].store, d)| > 0 && |RingOf(ms[i].store, d)| - 1 < |RingOf(ms[j].store, d)|
    ensures Material(RingOf(ms[j].store, d)[|RingOf(ms[i].store, d)| - 1], ms[j].now, keks).Err?
  {
    var ring := RingOf(ms[i].store, d);
    VersionsExact(ms, ops, i, d);
    RingFacts(d, ring);
    assert StepAt(ms, ops, i);
    assert RingOf(ms[i + 1].store, d) == After(ms[i].store, d, ops[i], ms[i + 1].now, ms[i + 1].keks);
    SpentForever(ms, ops, i + 1, j, d, |ring| - 1, keks);
  }

  predicate SealedUnder(ring: Ring, kek: nat) {
    forall i :: 0 <= i < |ring| && ring[i].state != Lost ==> Unwrapped(ring[i], {kek}).Ok?
  }

  /** After a committed rewrap the previous wrapping keys can be dropped: while the
      primary key stays, every version that is not lost, old or new, opens under it
      alone. */
  lemma {:induction false} RewrapRetiresOldKeys(ms: seq<Moment>, ops: seq<Op>, i: nat, j: nat, d: Domain)
    requires IsRun(ms, ops) && i < j < |ms| && ops[i].Rewrap? && d in ops[i].domains
    requires AllOpen(ms[i].store, ops[i].domains, ms[i + 1].keks)
    requires forall x :: i < x <= j ==> ms[x].keks.primary == ms[i + 1].keks.primary
    ensures SealedUnder(RingOf(ms[j].store, d), ms[i + 1].keks.primary)
  {
    VersionsExact(ms, ops, j - 1, d);
    assert StepAt(ms, ops, j - 1);
    if j == i + 1 {
      RewrapSeals(ms[i], ops[i], ms[j], d);
    } else {
      RewrapRetiresOldKeys(ms, ops, i, j - 1, d);
      assert ms[j].keks.primary == ms[i + 1].keks.primary;
      StepKeepsSealed(ms[j - 1], ops[j - 1], ms[j], d);
    }
  }

  lemma RewrapSeals(m: Moment, op: Op, n: Moment, d: Domain)
    requires Step(m, op, n) && RingOk(d, RingOf(m.store, d))
    requires op.Rewrap? && d in op.domains && AllOpen(m.store, op.domains, n.keks)
    ensures SealedUnder(RingOf(n.store, d), n.keks.primary)
  {
    assert RingOf(n.store, d) == RewrappedRing(RingOf(m.store, d), n.keks);
  }

  /** Whatever a step seals, it seals under the primary key of its configuration. */
  lemma StepKeepsSealed(m: Moment, op: Op, n: Moment, d: Domain)
    requires Step(m, op, n) && RingOk(d, RingOf(m.store, d)) && SealedUnder(RingOf(m.store, d), n.keks.primary)
    ensures SealedUnder(RingOf(n.store, d), n.keks.primary)
  {
    var before, after := RingOf(m.store, d), RingOf(n.store, d);
    assert after == After(m.store, d, op, n.now, n.keks);
    RingFacts(d, before);
    StepKeepsRing(m, op, n, d);
    forall x | 0 <= x < |after| && after[x].state != Lost ensures Unwrapped(after[x], {n.keks.primary}).Ok? {
      if x < |before| {
        StepKeepsRow(m, op, n, d, x);
        assert Unwrapped(before[x], {n.keks.primary}).Ok?;
      }
    }
  }

  // ----------------------------------------------------------------- service

  class Keyring {
    var store: Store
    var keks: Keks

    ghost predicate Valid() reads this { AllOk(store) }

    constructor (keks: Keks)
      ensures Valid() && store == map[] && this.keks == keks
    {
      this.keks := keks;
      store := map[];
    }

    /** Only d's ring changed, to this. */
    twostate predicate Became(d: Domain, ring: Ring) reads this {
      && keks == old(keks)
      && RingOf(store, d) == ring
      && forall e :: e != d ==> RingOf(store, e) == RingOf(old(store), e)
    }

    /** One pass over the rows: the active row and the highest version. */
    method Scan(ring: Ring) returns (active: Option<nat>, maxVersion: int)
      ensures active == LastActive(ring) && maxVersion == MaxVersion(ring)
    {
      active, maxVersion := None, 0;
      var i := 0;
      while i < |ring|
        invariant 0 <= i <= |ring|
        invariant active == LastActive(ring[..i]) && maxVersion == MaxVersion(ring[..i])
      {
        assert ring[..i + 1][..i] == ring[..i];
        if ring[i].version > maxVersion { maxVersion := ring[i].version; }
        if ring[i].state == Active { active := Some(i); }
        i := i + 1;
      }
      assert ring[..i] == ring;
    }

    method HasLost(ring: Ring) returns (lost: bool)
      ensures lost == AnyLost(ring)
    {
      for i := 0 to |ring|
        invariant forall k :: 0 <= k < i ==> ring[k].state != Lost
      {
        if ring[i].state == Lost { return true; }
      }
      return false;
    }

    /** The active key, or why there is none. */
    method ActiveKey(d: Domain, now: int) returns (r: Result<nat>)
      requires Valid()
      ensures r == Current(RingOf(store, d), now, keks)
    {
      var ring := RingOf(store, d);
      RingFacts(d, ring);
      for i := 0 to |ring|
        invariant forall k :: 0 <= k < i ==> ring[k].state != Active
      {
        if ring[i].state == Active { return Material(ring[i], now, All(keks)); }
      }
      if |ring| == 0 { return Err(KeyUnavailable); }
      if ring[|ring| - 1].state == Lost { return Err(KeyLost); }
      return Err(KeyUnavailable);
    }

    method ByVersion(d: Domain, version: int, now: int) returns (r: Result<nat>)
      requires Valid()
      ensures r == if 1 <= version <= |RingOf(store, d)| then Material(RingOf(store, d)[version - 1], now, All(keks))
        else Err(KeyUnavailable)
    {
      var ring := RingOf(store, d);
      if version <= 0 { return Err(KeyUnavailable); }
      IndexIs(d, ring, version);
      for i := 0 to |ring|
        invariant forall k :: 0 <= k < i ==> ring[k].version != version
      {
        if ring[i].version == version { return Material(ring[i], now, All(keks)); }
      }
      return Err(KeyUnavailable);
    }

    /** The first row that settles an attempt to create a key: active or lost. */
    method FirstDecisive(ring: Ring) returns (at: Option<nat>)
      ensures at.Some? ==> at.value < |ring| && Decisive(ring[at.value])
      ensures forall k :: 0 <= k < (if at.Some? then at.value else |ring|) ==> !Decisive(ring[k])
    {
      for i := 0 to |ring|
        invariant forall k :: 0 <= k < i ==> !Decisive(ring[k])
      {
        if ring[i].state == Active || ring[i].state == Lost { return Some(i); }
      }
      return None;
    }

    method Ensure(d: Domain, now: int, key: nat) returns (r: Result<nat>)
      requires Valid()
      modifies this
      ensures Valid()
      ensures Became(d, Ensured(d, RingOf(old(store), d), now, keks, key).0)
      ensures r == Ensured(d, RingOf(old(store), d), now, keks, key).1
    {
      var ring := RingOf(store, d);
      var active := ActiveKey(d, now);
      if active.Ok? || active.error == KeyLost { return active; }
      var decisive := FirstDecisive(ring);
      EnsuredByRow(d, ring, decisive, now, keks, key);
      if decisive.Some? {
        if ring[decisive.value].state == Lost { return Err(KeyLost); }
        return Material(ring[decisive.value], now, All(keks));
      }
      if |ring| > 0 { return Err(KeyUnavailable); }
      ring := [NewRow(d, 1, keks, key)];
      store := store[d := ring];
      OneRingChanged(old(store), store, d, ring);
      return Ok(key);
    }

    method Rotate(d: Domain, verifyFor: int, now: int, key: nat) returns (r: Result<nat>)
      requires Valid()
      modifies this
      ensures Valid()
      ensures match Rotated(d, RingOf(old(store), d), verifyFor, now, keks, key)
        case Ok(ring) => Became(d, ring) && r == Ok(key) && Material(ring[|ring| - 1], now, All(keks)) == r
        case Err(e) => store == old(store) && keks == old(keks) && r == Err(e)
    {
      if d.EntryIdentity? || d.RecoveryCleanupOwnership? || d.RclonePreflightIdentity? || d.SearchToken? {
        return Err(KeyRotationProhibited);
      }
      if d.CursorSigning? && (verifyFor <= 0 || verifyFor > MAX_OVERLAP) { return Err(InvalidState); }
      var ring := RingOf(store, d);
      RotatedKeeps(d, ring, verifyFor, now, keks, key);
      RingFacts(d, ring);
      var active, maxVersion := Scan(ring);
      if active.None? {
        var lost := HasLost(ring);
        return Err(if lost then KeyLost else KeyUnavailable);
      }
      var current := ring[active.value];
      var material := Material(current, now, All(keks));
      if material.Err? { return Err(material.error); }
      var until := None;
      if d.CursorSigning? { until := Some(now + verifyFor); }
      ring := ring[active.value := current.(state := VerifyOnly, verifyUntil := until)];
      ring := ring + [NewRow(d, maxVersion + 1, keks, key)];
      store := store[d := ring];
      OneRingChanged(old(store), store, d, ring);
      return Ok(key);
    }

    method ReplaceRebuildable(d: Domain, invalidation: Invalidation, now: int, key: nat) returns (r: Result<nat>)
      requires Valid()
      modifies this
      ensures Valid()
      ensures match Rebuilt(d, RingOf(old(store), d), invalidation, now, keks, key)
        case Ok(ring) => Became(d, ring) && r == Ok(key) && Material(ring[|ring| - 1], now, All(keks)) == r
        case Err(e) => store == old(store) && keks == old(keks) && r == Err(e)
    {
      if !d.SearchToken? && !d.DerivedStore? && !d.ExportStore? { return Err(KeyRotationProhibited); }
      if invalidation.Absent? { return Err(InvalidState); }
      var ring := RingOf(store, d);
      RebuiltKeeps(d, ring, invalidation, now, keks, key);
      RingFacts(d, ring);
      var active, maxVersion := Scan(ring);
      if maxVersion == 0 { return Err(KeyUnavailable); }
      if active.None? {
        if ring[|ring| - 1].state != Lost { return Err(KeyUnavailable); }
      } else {
        var material := Material(ring[active.value], now, All(keks));
        if material.Err? { return Err(material.error); }
      }
      if invalidation.Fails? { return Err(invalidation.error); }
      if active.Some? {
        ring := ring[active.value := ring[active.value].(state := Retired, verifyUntil := None)];
      }
      ring := ring + [NewRow(d, maxVersion + 1, keks, key)];
      store := store[d := ring];
      OneRingChanged(old(store), store, d, ring);
      return Ok(key);
    }

    method MarkLost(d: Domain, version: int, now: int) returns (r: Result<()>)
      requires Valid()
      modifies this
      ensures Valid()
      ensures match MarkedLost(d, RingOf(old(store), d), version, now)
        case Ok(ring) => Became(d, ring) && r == Ok(())
        case Err(e) => store == old(store) && keks == old(keks) && r == Err(e)
    {
      if d.SearchToken? || d.DerivedStore? || d.ExportStore? { return Err(KeyRotationProhibited); }
      if version <= 0 { return Err(KeyUnavailable); }
      var ring := RingOf(store, d);
      LossKeeps(d, ring, version, Absent, now);
      IndexIs(d, ring, version);
      for i := 0 to |ring|
        invariant store == old(store) && keks == old(keks)
        invariant forall k :: 0 <= k < i ==> ring[k].version != version || ring[k].state == Lost
      {
        if ring[i].version == version && ring[i].state != Lost {
          ring := ring[i := ring[i].(state := Lost, verifyUntil := None, lostAt := Some(now))];
          store := store[d := ring];
          OneRingChanged(old(store), store, d, ring);
          return Ok(());
        }
      }
      return Err(KeyUnavailable);
    }

    method MarkRebuildableLost(d: Domain, version: int, invalidation: Invalidation, now: int) returns (r: Result<()>)
      requires Valid()
      modifies this
      ensures Valid()
      ensures match RebuildableLost(d, RingOf(old(store), d), version, invalidation, now)
        case Ok(ring) => Became(d, ring) && r == Ok(())
        case Err(e) => store == old(store) && keks == old(keks) && r == Err(e)
    {
      if !d.SearchToken? && !d.DerivedStore? && !d.ExportStore? { return Err(KeyRotationProhibited); }
      if invalidation.Absent? { return Err(InvalidState); }
      if version <= 0 { return Err(KeyUnavailable); }
      var ring := RingOf(store, d);
      LossKeeps(d, ring, version, invalidation, now);
      IndexIs(d, ring, version);
      var target := None;
      for i := 0 to |ring|
        invariant store == old(store) && keks == old(keks)
        invariant target.None? && forall k :: 0 <= k < i ==> ring[k].version != version
      {
        if ring[i].version == version {
          if ring[i].state == Active || (d.ExportStore? && ring[i].state == VerifyOnly) { target := Some(i); }
          break;
        }
      }
      if target.None? { return Err(KeyUnavailable); }
      if invalidation.Fails? { return Err(invalidation.error); }
      ring := ring[target.value := ring[target.value].(state := Lost, verifyUntil := None, lostAt := Some(now))];
      store := store[d := ring];
      OneRingChanged(old(store), store, d, ring);
      return Ok(());
    }

    /** Re-seal every row that is not lost and count them; one envelope that does not
        open undoes the whole pass. */
    method RewrapDomains(domains: seq<Domain>) returns (r: Result<nat>)
      requires Valid()
      modifies this
      ensures Valid() && keks == old(keks)
      ensures r.Err? ==> store == old(store)
      ensures domains == [] ==> r == Err(KeyUnavailable)
      ensures r.Ok? <==> domains != [] && Distinct(domains) && AllOpen(old(store), Elements(domains), keks)
      ensures r.Ok? ==> r.value == LiveIn(old(store), domains)
      ensures r.Ok? ==> forall d ::
        RingOf(store, d) == if d in domains then RewrappedRing(RingOf(old(store), d), keks) else RingOf(old(store), d)
    {
      if domains == [] { return Err(KeyUnavailable); }
      var seen: set<Domain> := {};
      for i := 0 to |domains|
        invariant store == old(store) && keks == old(keks)
        invariant Distinct(domains[..i]) && seen == Elements(domains[..i])
      {
        if domains[i] in seen {
          var k :| 0 <= k < i && domains[k] == domains[i];
          return Err(InvalidState);
        }
        seen := seen + {domains[i]};
      }
      assert domains[..|domains|] == domains;
      var draft := RewrapEach(domains);
      if draft.Err? { return Err(draft.error); }
      RewrapKeepsRings(store, draft.value.0, keks, Elements(domains));
      store := draft.value.0;
      return Ok(draft.value.1);
    }

    /** One domain after another, on a draft of the store. */
    method RewrapEach(domains: seq<Domain>) returns (r: Result<(Store, nat)>)
      requires Distinct(domains)
      ensures r.Ok? <==> AllOpen(store, Elements(domains), keks)
      ensures r.Ok? ==> r.value.1 == LiveIn(store, domains)
      ensures r.Ok? ==> forall d ::
        RingOf(r.value.0, d) == if d in domains then RewrappedRing(RingOf(store, d), keks) else RingOf(store, d)
    {
      assert domains[..|domains|] == domains;
      var draft, count := store, 0;
      for i := 0 to |domains|
        invariant count == LiveIn(store, domains[..i])
        invariant forall k :: 0 <= k < i ==> Opens(RingOf(store, domains[k]), keks)
        invariant forall d :: RingOf(draft, d) == if d in domains[..i] then RewrappedRing(RingOf(store, d), keks)
          else RingOf(store, d)
      {
        var d := domains[i];
        assert d !in domains[..i];
        var ring := RewrapRing(RingOf(store, d));
        if ring.Err? {
          assert d in Elements(domains);
          return Err(ring.error);
        }
        draft, count := draft[d := ring.value.0], count + ring.value.1;
        assert domains[..i + 1][..i] == domains[..i];
        assert forall e :: e in domains[..i + 1] <==> e in domains[..i] || e == d;
      }
      return Ok((draft, count));
    }

    method RewrapRing(ring: Ring) returns (r: Result<(Ring, nat)>)
      ensures r.Ok? <==> Opens(ring, keks)
      ensures r.Ok? ==> r.value == (RewrappedRing(ring, keks), Live(ring))
    {
      var done: Ring := [];
      var count := 0;
      for i := 0 to |ring|
        invariant |done| == i && forall k :: 0 <= k < i ==> done[k] == Rewrapped(ring[k], keks)
        invariant count == Live(ring[..i])
        invariant forall k :: 0 <= k < i && ring[k].state != Lost ==> Unwrapped(ring[k], All(keks)).Ok?
      {
        var row := ring[i];
        if row.state != Lost {
          var material := Unwrapped(row, All(keks));
          if material.Err? { return Err(material.error); }
          row := row.(wrapped := Envelope(keks.primary, row.domain, row.version, material.value));
          count := count + 1;
        }
        assert ring[..i + 1][..i] == ring[..i];
        done := done + [row];
      }
      assert ring[..|ring|] == ring;
      assert done == RewrappedRing(ring, keks);
      return Ok((done, count));
    }
  }

  /** How many rows are not lost. */
  function Live(ring: Ring): nat {
    if ring == [] then 0 else Live(ring[..|ring| - 1]) + if ring[|ring| - 1].state == Lost then 0 else 1
  }

  function LiveIn(s: Store, ds: seq<Domain>): nat {
    if ds == [] then 0 else LiveIn(s, ds[..|ds| - 1]) + Live(RingOf(s, ds[|ds| - 1]))
  }

  predicate Distinct(s: seq<Domain>) { forall i, j :: 0 <= i < j < |s| ==> s[i] != s[j] }

  function Elements(s: seq<Domain>): set<Domain> { set i | 0 <= i < |s| :: s[i] }

  ghost predicate AllOk(s: Store) { forall d :: RingOk(d, RingOf(s, d)) }

  predicate Decisive(row: Row) { row.state == Active || row.state == Lost }

  /** When the active key was not readable, the first decisive row decides. */
  lemma EnsuredByRow(d: Domain, ring: Ring, at: Option<nat>, now: int, keks: Keks, key: nat)
    requires RingOk(d, ring) && Current(ring, now, keks).Err? && Current(ring, now, keks).error != KeyLost
    requires at.Some? ==> at.value < |ring| && Decisive(ring[at.value])
    requires forall k :: 0 <= k < (if at.Some? then at.value else |ring|) ==> !Decisive(ring[k])
    ensures Ensured(d, ring, now, keks, key) ==
      if at.Some? then (ring, if ring[at.value].state == Lost then Err(KeyLost)
        else Material(ring[at.value], now, All(keks)))
      else if |ring| > 0 then (ring, Err(KeyUnavailable))
      else ([NewRow(d, 1, keks, key)], Ok(key))
  {
    RingFacts(d, ring);
  }

  lemma OneRingChanged(s: Store, t: Store, d: Domain, ring: Ring)
    requires AllOk(s) && RingOk(d, ring) && t == s[d := ring]
    ensures AllOk(t)
  {
    forall e ensures RingOk(e, RingOf(t, e)) {
      assert RingOk(e, RingOf(s, e));
    }
  }

  lemma RewrapKeepsRings(s: Store, t: Store, keks: Keks, ds: set<Domain>)
    requires AllOk(s)
    requires forall d :: RingOf(t, d) == if d in ds then RewrappedRing(RingOf(s, d), keks) else RingOf(s, d)
    ensures AllOk(t)
  {
    forall d ensures RingOk(d, RingOf(t, d)) {
      assert RingOk(d, RingOf(s, d));
    }
  }
}
