/** The identity state machine: token versions, single-use login challenges,
    recovery codes and recovery enrolments, over every run of their transactions. */
module IdentityRuns {
  import opened Basics

  datatype Role = Admin | Operator | Viewer

  /** A stored recovery code: a salted hash, idealised to match exactly the text it
      was made from, or the historical plain text. */
  datatype Stored = Hashed(salt: nat, plain: string) | Plain(plain: string)

  datatype User = User(
    passwordHash: nat, role: Role, version: nat, totpEnabled: bool, secret: Option<nat>,
    enrollmentId: Option<nat>, enrollmentExpiresAt: Option<int>, reenrollmentRequired: bool, codes: seq<Stored>)

  datatype Pending = Pending(user: nat, version: nat, binding: Option<nat>, expiresAt: int, consumedAt: Option<int>)

  datatype World = World(users: map<nat, User>, pending: map<nat, Pending>)

  /** The signed claims of a login challenge and of a recovery enrolment. */
  datatype Challenge = Challenge(user: nat, role: Role, version: nat, binding: Option<nat>, jti: nat, expiresAt: int)
  datatype Enrolment = Enrolment(user: nat, role: Role, version: nat, enrollmentId: nat, issuedAt: int, expiresAt: int)

  /** A session token that already passed its signature check; live: not revoked. */
  datatype Session = Session(user: nat, role: Role, version: nat, expiresAt: int, live: bool)

  /** The row a login read when it checked the password. */
  datatype Snapshot = Snapshot(id: nat, user: User)

  const PENDING_TTL := 5 * 60 * SECOND
  const ENROLLMENT_TTL := 10 * 60 * SECOND

  // ---------------------------------------------------------- recovery codes

  function UpperChar(c: char): char { if 'a' <= c <= 'z' then (c as int - 32) as char else c }

  function Upper(s: string): string { seq(|s|, i requires 0 <= i < |s| => UpperChar(s[i])) }

  predicate Matches(stored: Stored, code: string) { stored.plain == Upper(code) }

  predicate AnyMatch(codes: seq<Stored>, code: string) { exists i :: 0 <= i < |codes| && Matches(codes[i], code) }

  /** The inventory without every entry the code matches, in its old order. */
  function Remaining(codes: seq<Stored>, code: string): seq<Stored> {
    if codes == [] then []
    else
      var rest := Remaining(codes[..|codes| - 1], code);
      if Matches(codes[|codes| - 1], code) then rest else rest + [codes[|codes| - 1]]
  }

  lemma {:induction false} RemainingMatches(codes: seq<Stored>, code: string)
    ensures !AnyMatch(Remaining(codes, code), code)
    ensures |Remaining(codes, code)| <= |codes| && (AnyMatch(codes, code) <==> |Remaining(codes, code)| < |codes|)
  {
    if codes != [] {
      var init, last := codes[..|codes| - 1], codes[|codes| - 1];
      RemainingMatches(init, code);
      assert codes == init + [last];
      assert Matches(last, code) ==> AnyMatch(codes, code);
      assert forall i :: 0 <= i < |init| ==> codes[i] == init[i];
    }
  }

  lemma {:induction false} RemainingKeeps(codes: seq<Stored>, code: string)
    ensures multiset(Remaining(codes, code)) <= multiset(codes)
    ensures forall s :: s in codes && !Matches(s, code) ==> multiset(Remaining(codes, code))[s] == multiset(codes)[s]
  {
    if codes != [] {
      var init, last := codes[..|codes| - 1], codes[|codes| - 1];
      RemainingKeeps(init, code);
      assert codes == init + [last];
    }
  }

  lemma RemainingSubset(codes: seq<Stored>, code: string, other: string)
    requires !AnyMatch(codes, other)
    ensures !AnyMatch(Remaining(codes, code), other)
  {
    RemainingKeeps(codes, code);
    var rest := Remaining(codes, code);
    forall i | 0 <= i < |rest| ensures !Matches(rest[i], other) {
      assert rest[i] in multiset(rest);
      assert rest[i] in multiset(codes);
      var k :| 0 <= k < |codes| && codes[k] == rest[i];
    }
  }

  // ------------------------------------------------------------ transactions

  /** What a transaction leaves and answers. Only an expired enrolment both
      commits and reports an error. */
  datatype Tx = Tx(world: World, outcome: Result<()>)

  function Fail(w: World, e: Error): Tx { Tx(w, Err(e)) }

  function WithUser(w: World, id: nat, u: User): World { w.(users := w.users[id := u]) }

  function WithoutPending(w: World, id: nat): World {
    w.(pending := map j | j in w.pending && w.pending[j].user != id :: w.pending[j])
  }

  /** A change of the user that invalidates all open challenges of the user. */
  function Secured(w: World, id: nat, u: User): Tx { Tx(WithoutPending(WithUser(w, id, u), id), Ok(())) }

  predicate ChallengeFits(u: User, c: Challenge) {
    !u.reenrollmentRequired && u.version == c.version && u.role == c.role && u.totpEnabled && u.secret.Some?
      && u.secret == c.binding
  }

  predicate PendingFits(p: Pending, c: Challenge, now: int) {
    p.user == c.user && p.version == c.version && p.binding == c.binding && p.consumedAt.None? && now < p.expiresAt
  }

  /** totp is the answer of the one-time-password check for this code. */
  function Complete2FA(w: World, c: Challenge, code: string, totp: bool, now: int): Tx {
    if now >= c.expiresAt then Fail(w, PendingLoginInvalid)
    else if code == [] then Fail(w, RecoveryCodeInvalid)
    else if c.user !in w.users then Fail(w, NotFound)
    else
      var u := w.users[c.user];
      if !ChallengeFits(u, c) then Fail(w, PendingLoginInvalid)
      else if c.jti !in w.pending || !PendingFits(w.pending[c.jti], c, now) then Fail(w, PendingLoginInvalid)
      else if !totp && !AnyMatch(u.codes, code) then Fail(w, RecoveryCodeInvalid)
      else
        var after := if totp then u else u.(codes := Remaining(u.codes, code));
        Tx(World(w.users[c.user := after], w.pending[c.jti := w.pending[c.jti].(consumedAt := Some(now))]), Ok(()))
  }

  function NewChallenge(s: Snapshot, jti: nat, now: int): Challenge {
    Challenge(s.id, s.user.role, s.user.version, s.user.secret, jti, now + PENDING_TTL)
  }

  /** Registering a challenge for the row the login read, however old it is. */
  function Challenged(w: World, s: Snapshot, jti: nat, now: int): Tx {
    if s.user.reenrollmentRequired then Fail(w, RecoveryEnrollmentInvalid)
    else if jti in w.pending then Tx(w, Ok(()))
    else Tx(w.(pending := w.pending[jti := Pending(s.id, s.user.version, s.user.secret, now + PENDING_TTL, None)]),
      Ok(()))
  }

  function SetUp(w: World, id: nat, secret: nat, enrollmentId: nat, now: int): Tx {
    if id !in w.users then Fail(w, NotFound)
    else
      var u := w.users[id];
      if u.reenrollmentRequired then Fail(w, RecoveryEnrollmentInvalid)
      else if u.totpEnabled then Fail(w, TotpAlreadyEnabled)
      else Secured(w, id, u.(secret := Some(secret), enrollmentId := Some(enrollmentId),
        enrollmentExpiresAt := Some(now + ENROLLMENT_TTL)))
  }

  function Verified(w: World, s: Session, enrollmentId: nat, totp: bool, codes: seq<Stored>, now: int): Tx {
    if now >= s.expiresAt then Fail(w, SecurityConflict)
    else if s.user !in w.users then Fail(w, NotFound)
    else
      var u := w.users[s.user];
      if u.reenrollmentRequired || u.role != s.role || u.version != s.version then Fail(w, SecurityConflict)
      else if u.totpEnabled then Fail(w, TotpAlreadyEnabled)
      else if u.enrollmentId.None? || u.secret.None? then Fail(w, TotpEnrollmentRequired)
      else if u.enrollmentId.value != enrollmentId then Fail(w, TotpEnrollmentConflict)
      else if u.enrollmentExpiresAt.None? || now >= u.enrollmentExpiresAt.value then
        Secured(w, s.user, u.(secret := None, enrollmentId := None,
          enrollmentExpiresAt := None)).(outcome := Err(TotpEnrollmentExpired))
      else if !totp then Fail(w, TotpCodeInvalid)
      else Secured(w, s.user, u.(totpEnabled := true, codes := codes, enrollmentId := None,
        enrollmentExpiresAt := None, version := u.version + 1))
  }

  function Disabled(w: World, id: nat, password: bool, totp: bool): Tx {
    if id !in w.users then Fail(w, NotFound)
    else
      var u := w.users[id];
      if u.reenrollmentRequired then Fail(w, RecoveryEnrollmentInvalid)
      else if !u.totpEnabled || u.secret.None? then Fail(w, TotpCodeInvalid)
      else if !password then Fail(w, WrongPassword)
      else if !totp then Fail(w, TotpCodeInvalid)
      else Secured(w, id, u.(secret := None, totpEnabled := false, codes := [], enrollmentId := None,
        enrollmentExpiresAt := None, version := u.version + 1))
  }

  predicate SessionFits(u: User, s: Session) { !u.reenrollmentRequired && u.role == s.role && u.version == s.version }

  /** baseline is the row read before the transaction. */
  function Regenerated(w: World, s: Session, baseline: Option<User>, totp: bool, codes: seq<Stored>, now: int): Tx {
    if baseline.None? || !SessionFits(baseline.value, s) then Fail(w, RecoveryCodeSessionInvalid)
    else if !baseline.value.totpEnabled || baseline.value.secret.None? then Fail(w, TotpDisabled)
    else if s.user !in w.users then Fail(w, NotFound)
    else
      var u, b := w.users[s.user], baseline.value;
      if u.reenrollmentRequired || now >= s.expiresAt then Fail(w, RecoveryCodeSessionInvalid)
      else if u.role != s.role || u.version != s.version || !u.totpEnabled || u.secret.None?
        then Fail(w, RecoveryCodeConflict)
      else if u.secret != b.secret || u.codes != b.codes then Fail(w, RecoveryCodeConflict)
      else if !s.live then Fail(w, RecoveryCodeSessionInvalid)
      else if !totp then Fail(w, TotpCodeInvalid)
      else Tx(WithUser(w, s.user, u.(codes := codes)), Ok(()))
  }

  /** now cut down to whole seconds; instants are counted from the epoch. */
  function NewEnrolment(s: Snapshot, enrollmentId: nat, now: nat): Enrolment {
    var issued := now - now % SECOND;
    Enrolment(s.id, s.user.role, s.user.version, enrollmentId, issued, issued + ENROLLMENT_TTL)
  }

  function Begun(w: World, s: Snapshot, secret: nat, enrollmentId: nat, now: nat): Tx {
    if s.id !in w.users then Fail(w, RecoveryEnrollmentInvalid)
    else
      var u := w.users[s.id];
      if u.passwordHash != s.user.passwordHash || u.version != s.user.version || u.role != s.user.role ||
         !u.reenrollmentRequired || u.totpEnabled then Fail(w, RecoveryEnrollmentInvalid)
      else Secured(w, s.id, u.(secret := Some(secret), enrollmentId := Some(enrollmentId),
                               enrollmentExpiresAt := Some(NewEnrolment(s, enrollmentId, now).expiresAt)))
  }

  predicate EnrolmentFits(u: User, e: Enrolment, now: int) {
    && now < e.expiresAt && e.issuedAt <= now && u.role == e.role && u.version == e.version
    && u.reenrollmentRequired && !u.totpEnabled && u.enrollmentId == Some(e.enrollmentId)
    && u.enrollmentExpiresAt == Some(e.expiresAt) && u.secret.Some?
  }

  function Enrolled(w: World, e: Enrolment, totp: bool, codes: seq<Stored>, now: int): Tx {
    if e.user !in w.users || !EnrolmentFits(w.users[e.user], e, now) then Fail(w, RecoveryEnrollmentInvalid)
    else if !totp then Fail(w, TotpCodeInvalid)
    else
      var u := w.users[e.user];
      Secured(w, e.user, u.(totpEnabled := true, reenrollmentRequired := false, codes := codes,
                            enrollmentId := None, enrollmentExpiresAt := None, version := u.version + 1))
  }

  function Admins(users: map<nat, User>): set<nat> { set id | id in users && users[id].role == Admin }

  function Updated(w: World, id: nat, role: Option<Role>, hash: Option<nat>): Tx {
    if id !in w.users then Fail(w, NotFound)
    else
      var u := w.users[id];
      if role.Some? && u.role == Admin && role.value != Admin && |Admins(w.users)| <= 1 then Fail(w, LastAdmin)
      else if hash.None? && (role.None? || role.value == u.role) then Tx(w, Ok(()))
      else Secured(w, id, u.(role := if role.Some? then role.value else u.role,
                             passwordHash := if hash.Some? then hash.value
                               else u.passwordHash, version := u.version + 1))
  }

  function Deleted(w: World, id: nat, actor: nat): Tx {
    if id == actor then Fail(w, Conflict)
    else if id !in w.users then Fail(w, NotFound)
    else if w.users[id].role == Admin && |Admins(w.users)| <= 1 then Fail(w, LastAdmin)
    else Tx(w.(users := w.users - {id}), Ok(()))
  }

  function PasswordChanged(w: World, id: nat, password: bool, hash: nat): Tx {
    if id !in w.users then Fail(w, NotFound)
    else if !password then Fail(w, WrongPassword)
    else Secured(w, id, w.users[id].(passwordHash := hash, version := w.users[id].version + 1))
  }

  /** The break-glass reset: a new password, a cleared second factor that must be
      enrolled anew, or both. A password-only reset keeps an enabled factor and its
      codes, and drops the secret of an unfinished enrolment. */
  function OfflineReset(w: World, id: nat, hash: Option<nat>, totp: bool): Tx {
    if hash.None? && !totp then Fail(w, InvalidState)
    else if id !in w.users then Fail(w, NotFound)
    else
      var u := w.users[id];
      var after := u.(version := u.version + 1, enrollmentId := None, enrollmentExpiresAt := None,
                      passwordHash := if hash.Some? then hash.value else u.passwordHash);
      if totp then
        Secured(w, id, after.(secret := None, codes := [], totpEnabled := false, reenrollmentRequired := true))
      else Secured(w, id, if u.totpEnabled then after else after.(secret := None))
  }

  // -------------------------------------------------------------------- runs

  datatype Op =
    | Authenticate(id: nat)
    | IssueChallenge(snapshot: Snapshot, jti: nat)
    | CompleteLogin(challenge: Challenge, code: string, totp: bool)
    | Setup(id: nat, secret: nat, enrollmentId: nat)
    | Verify(session: Session, enrollmentId: nat, totp: bool, codes: seq<Stored>)
    | Disable(id: nat, password: bool, totp: bool)
    | Regenerate(session: Session, baseline: Option<User>, totp: bool, codes: seq<Stored>)
    | Begin(snapshot: Snapshot, secret: nat, enrollmentId: nat)
    | CompleteEnrolment(enrolment: Enrolment, totp: bool, codes: seq<Stored>)
    | Update(id: nat, newRole: Option<Role>, newHash: Option<nat>)
    | Delete(id: nat, actor: nat)
    | ChangePassword(id: nat, password: bool, hash: nat)
    | Create(id: nat, role: Role, hash: nat)
    | Reset(id: nat, newHash: Option<nat>, totp: bool)
    | Prune(jtis: set<nat>)

  function Performed(w: World, op: Op, now: nat): Tx {
    match op
    case Authenticate(_) => Tx(w, Ok(()))
    case IssueChallenge(s, jti) => Challenged(w, s, jti, now)
    case CompleteLogin(c, code, totp) => Complete2FA(w, c, code, totp, now)
    case Setup(id, secret, eid) => SetUp(w, id, secret, eid, now)
    case Verify(s, eid, totp, codes) => Verified(w, s, eid, totp, codes, now)
    case Disable(id, password, totp) => Disabled(w, id, password, totp)
    case Regenerate(s, baseline, totp, codes) => Regenerated(w, s, baseline, totp, codes, now)
    case Begin(s, secret, eid) => Begun(w, s, secret, eid, now)
    case CompleteEnrolment(e, totp, codes) => Enrolled(w, e, totp, codes, now)
    case Update(id, role, hash) => Updated(w, id, role, hash)
    case Delete(id, actor) => Deleted(w, id, actor)
    case ChangePassword(id, password, hash) => PasswordChanged(w, id, password, hash)
    case Create(id, role, hash) => Tx(WithUser(w, id, User(hash, role, 0, false, None, None, None, false, [])), Ok(()))
    case Reset(id, hash, totp) => OfflineReset(w, id, hash, totp)
    case Prune(jtis) => Tx(w.(pending := w.pending - jtis), Ok(()))
  }

  /** The rows, with history: user ids ever used, random ids drawn, the rows logins
      have read, and the claims ever signed. */
  datatype Moment = Moment(
    now: nat, world: World, known: set<nat>, drawn: set<nat>,
    snapshots: set<Snapshot>, challenges: set<Challenge>, enrolments: set<Enrolment>)

  function Draws(op: Op): set<nat> {
    match op
    case IssueChallenge(_, jti) => {jti}
    case Setup(_, _, eid) => {eid}
    case Begin(_, _, eid) => {eid}
    case _ => {}
  }

  /** What a transaction may rely on: signed claims were issued, logins work on rows
      they read, random ids are new, and user ids are not reused. */
  predicate Enabled(m: Moment, op: Op) {
    && Draws(op) !! m.drawn
    && match op
       case IssueChallenge(s, _) => s in m.snapshots
       case Begin(s, _, _) => s in m.snapshots
       case CompleteLogin(c, _, _) => c in m.challenges
       case CompleteEnrolment(e, _, _) => e in m.enrolments
       case Create(id, _, _) => id !in m.known
       case _ => true
  }

  ghost predicate Step(m: Moment, op: Op, n: Moment) {
    var done := Performed(m.world, op, n.now);
    && m.now <= n.now && Enabled(m, op)
    && n.world == done.world
    && n.known == m.known + (if op.Create? then {op.id} else {})
    && n.drawn == m.drawn + Draws(op)
    && n.snapshots == m.snapshots + (if op.Authenticate? && op.id in m.world.users
      then {Snapshot(op.id, m.world.users[op.id])} else {})
    && n.challenges == m.challenges
      + (if op.IssueChallenge? && done.outcome.Ok? then {NewChallenge(op.snapshot, op.jti, n.now)} else {})
    && n.enrolments == m.enrolments
      + (if op.Begin? && done.outcome.Ok? then {NewEnrolment(op.snapshot, op.enrollmentId, n.now)} else {})
  }

  ghost predicate StepAt(ms: seq<Moment>, ops: seq<Op>, i: nat)
    requires i < |ops| && |ms| == |ops| + 1
  {
    Step(ms[i], ops[i], ms[i + 1])
  }

  ghost predicate Initial(m: Moment) {
    m.world == World(map[], map[]) && m.snapshots == {} && m.challenges == {} && m.enrolments == {}
  }

  ghost predicate IsRun(ms: seq<Moment>, ops: seq<Op>) {
    && |ms| == |ops| + 1 && Initial(ms[0])
    && forall i: nat :: i < |ops| ==> StepAt(ms, ops, i)
  }

  ghost predicate Commits(ms: seq<Moment>, ops: seq<Op>, i: nat)
    requires i < |ops| && |ms| == |ops| + 1
  {
    Performed(ms[i].world, ops[i], ms[i + 1].now).outcome.Ok?
  }

  // ---------------------------------------------------------------- versions

  /** The fields whose change must end every session and challenge. */
  predicate SameSecurity(a: User, b: User) {
    && a.passwordHash == b.passwordHash && a.role == b.role && a.totpEnabled == b.totpEnabled
    && a.reenrollmentRequired == b.reenrollmentRequired && (a.totpEnabled ==> a.secret == b.secret)
  }

  /** One step against one user: the version never falls, every committed role,
      password or second-factor change raises it by one, and an unchanged version
      means that nothing of the kind changed. */
  lemma StepVersion(m: Moment, op: Op, n: Moment, id: nat)
    requires Step(m, op, n) && id in m.world.users && id in n.world.users && m.world.users.Keys <= m.known
    ensures m.world.users[id].version <= n.world.users[id].version
    ensures n.world.users[id].version <= m.world.users[id].version + 1
    ensures n.world.users[id].version == m.world.users[id].version ==>
      SameSecurity(m.world.users[id], n.world.users[id])
  {
  }

  ghost predicate Inv(m: Moment) {
    && m.world.users.Keys <= m.known
    && (forall s :: s in m.snapshots ==>
      s.id in m.known && (s.id in m.world.users ==> s.user.version <= m.world.users[s.id].version))
    && (forall c :: c in m.challenges ==>
          && c.user in m.known && c.jti in m.drawn
          && (c.user in m.world.users ==> c.version <= m.world.users[c.user].version))
    && (forall e :: e in m.enrolments ==>
          && e.user in m.known && e.enrollmentId in m.drawn
          && (e.user in m.world.users ==> e.version <= m.world.users[e.user].version))
    && (forall j :: j in m.world.pending ==> j in m.drawn)
    && (forall id :: id in m.world.users && m.world.users[id].enrollmentId.Some? ==>
      m.world.users[id].enrollmentId.value in m.drawn)
  }

  lemma StepUsers(m: Moment, op: Op, n: Moment, id: nat)
    requires Step(m, op, n) && m.world.users.Keys <= m.known && id in n.world.users
    ensures id in n.known && (id in m.known ==> id in m.world.users)
  {
  }

  lemma StepKeepsInv(m: Moment, op: Op, n: Moment)
    requires Inv(m) && Step(m, op, n)
    ensures Inv(n)
  {
    forall id | id in n.world.users ensures id in n.known {
      StepUsers(m, op, n, id);
    }
    forall s | s in n.snapshots
      ensures s.id in n.known && (s.id in n.world.users ==> s.user.version <= n.world.users[s.id].version)
    {
      StepClaim(m, op, n, s.id, s.user.version);
    }
    forall c | c in n.challenges
      ensures c.user in n.known && c.jti in n.drawn
        && (c.user in n.world.users ==> c.version <= n.world.users[c.user].version)
    {
      StepClaim(m, op, n, c.user, c.version);
    }
    forall e | e in n.enrolments
      ensures e.user in n.known && e.enrollmentId in n.drawn
        && (e.user in n.world.users ==> e.version <= n.world.users[e.user].version)
    {
      StepClaim(m, op, n, e.user, e.version);
    }
    StepKeepsPending(m, op, n);
    StepKeepsEnrollmentIds(m, op, n);
  }

  lemma StepKeepsPending(m: Moment, op: Op, n: Moment)
    requires Step(m, op, n) && forall j :: j in m.world.pending ==> j in m.drawn
    ensures forall j :: j in n.world.pending ==> j in n.drawn
  {
  }

  lemma StepKeepsEnrollmentIds(m: Moment, op: Op, n: Moment)
    requires Step(m, op, n)
    requires forall id :: id in m.world.users && m.world.users[id].enrollmentId.Some? ==>
      m.world.users[id].enrollmentId.value in m.drawn
    ensures forall id :: id in n.world.users && n.world.users[id].enrollmentId.Some? ==>
      n.world.users[id].enrollmentId.value in n.drawn
  {
  }

  lemma StepClaim(m: Moment, op: Op, n: Moment, id: nat, version: nat)
    requires Inv(m) && Step(m, op, n) && id in m.known && (id in m.world.users ==> version <= m.world.users[id].version)
    ensures id in n.known && (id in n.world.users ==> version <= n.world.users[id].version)
  {
    if id in n.world.users {
      StepUsers(m, op, n, id);
      StepVersion(m, op, n, id);
    }
  }

  lemma {:induction false} RunInv(ms: seq<Moment>, ops: seq<Op>, k: nat)
    requires IsRun(ms, ops) && k < |ms|
    ensures Inv(ms[k])
  {
    if k > 0 {
      RunInv(ms, ops, k - 1);
      assert StepAt(ms, ops, k - 1);
      StepKeepsInv(ms[k - 1], ops[k - 1], ms[k]);
    }
  }

  /** A user's version never decreases, and while it stays the same so do the
      password, the role and the second factor. */
  lemma {:induction false} VersionMonotone(ms: seq<Moment>, ops: seq<Op>, i: nat, j: nat, id: nat)
    requires IsRun(ms, ops) && i <= j < |ms| && id in ms[i].world.users && id in ms[j].world.users
    ensures ms[i].world.users[id].version <= ms[j].world.users[id].version
    ensures ms[i].world.users[id].version == ms[j].world.users[id].version ==>
      SameSecurity(ms[i].world.users[id], ms[j].world.users[id])
  {
    if i < j {
      RunInv(ms, ops, i);
      RunInv(ms, ops, j - 1);
      assert StepAt(ms, ops, j - 1);
      KnownGrows(ms, ops, i, j - 1);
      StepUsers(ms[j - 1], ops[j - 1], ms[j], id);
      VersionMonotone(ms, ops, i, j - 1, id);
      StepVersion(ms[j - 1], ops[j - 1], ms[j], id);
    }
  }

  lemma {:induction false} KnownGrows(ms: seq<Moment>, ops: seq<Op>, i: nat, j: nat)
    requires IsRun(ms, ops) && i <= j < |ms|
    ensures ms[i].known <= ms[j].known && ms[i].drawn <= ms[j].drawn
    ensures ms[i].challenges <= ms[j].challenges && ms[i].enrolments <= ms[j].enrolments
  {
    if i < j {
      KnownGrows(ms, ops, i, j - 1);
      assert StepAt(ms, ops, j - 1);
    }
  }

  /** Between moments i and k the user's role, password or second factor changed, the
      version rose for another reason, or the user was deleted. */
  ghost predicate Changed(ms: seq<Moment>, i: nat, k: nat, id: nat)
    requires i < |ms| && k < |ms| && id in ms[i].world.users
  {
    id in ms[k].world.users ==>
      || ms[i].world.users[id].version != ms[k].world.users[id].version
      || !SameSecurity(ms[i].world.users[id], ms[k].world.users[id])
  }

  lemma ChangeRaises(ms: seq<Moment>, ops: seq<Op>, i: nat, k: nat, j: nat, id: nat)
    requires IsRun(ms, ops) && i <= k <= j < |ms| && id in ms[i].world.users && Changed(ms, i, k, id)
    ensures id in ms[j].world.users ==> ms[i].world.users[id].version < ms[j].world.users[id].version
  {
    RunInv(ms, ops, i);
    if id in ms[j].world.users {
      KnownGrows(ms, ops, i, k);
      StaysKnown(ms, ops, k, j, id);
      VersionMonotone(ms, ops, i, k, id);
      VersionMonotone(ms, ops, k, j, id);
    }
  }

  /** A challenge or an enrolment that was issued before such a change never
      completes after it. */
  lemma StaleClaimsNeverComplete(ms: seq<Moment>, ops: seq<Op>, i: nat, k: nat, j: nat, id: nat)
    requires IsRun(ms, ops) && i <= k <= j < |ops| && id in ms[i].world.users && Changed(ms, i, k, id)
    ensures ops[j].CompleteLogin? && ops[j].challenge in ms[i].challenges && ops[j].challenge.user == id ==>
      !Commits(ms, ops, j)
    ensures ops[j].CompleteEnrolment? && ops[j].enrolment in ms[i].enrolments && ops[j].enrolment.user == id ==>
      !Commits(ms, ops, j)
  {
    RunInv(ms, ops, i);
    ChangeRaises(ms, ops, i, k, j, id);
  }

  /** Nor does a challenge or an enrolment for a row that a login read before the
      change, even if it is issued only after it. */
  lemma StaleLoginsNeverComplete(ms: seq<Moment>, ops: seq<Op>, i: nat, k: nat, j: nat, s: Snapshot, drawn: nat,
      at: nat)
    requires IsRun(ms, ops) && i <= k <= j < |ops| && s.id in ms[i].world.users && Changed(ms, i, k, s.id)
    requires s in ms[i].snapshots
    ensures ops[j].CompleteLogin? && ops[j].challenge == NewChallenge(s, drawn, at) ==> !Commits(ms, ops, j)
    ensures ops[j].CompleteEnrolment? && ops[j].enrolment == NewEnrolment(s, drawn, at) ==> !Commits(ms, ops, j)
  {
    RunInv(ms, ops, i);
    ChangeRaises(ms, ops, i, k, j, s.id);
  }

  /** A session that fitted the user's row before the change neither verifies a set-up nor
      replaces recovery codes after it. */
  lemma StaleSessionsRefused(ms: seq<Moment>, ops: seq<Op>, i: nat, k: nat, j: nat, s: Session)
    requires IsRun(ms, ops) && i <= k <= j < |ops| && s.user in ms[i].world.users && Changed(ms, i, k, s.user)
    requires s.version <= ms[i].world.users[s.user].version
    ensures ops[j].Verify? && ops[j].session == s ==> !Commits(ms, ops, j)
    ensures ops[j].Regenerate? && ops[j].session == s ==> !Commits(ms, ops, j)
  {
    ChangeRaises(ms, ops, i, k, j, s.user);
  }

  lemma {:induction false} StaysKnown(ms: seq<Moment>, ops: seq<Op>, i: nat, j: nat, id: nat)
    requires IsRun(ms, ops) && i <= j < |ms| && id in ms[i].known && id in ms[j].world.users
    ensures id in ms[i].world.users
  {
    if i < j {
      RunInv(ms, ops, j - 1);
      KnownGrows(ms, ops, i, j - 1);
      assert StepAt(ms, ops, j - 1);
      StepUsers(ms[j - 1], ops[j - 1], ms[j], id);
      StaysKnown(ms, ops, i, j - 1, id);
    }
  }

  // -------------------------------------------------------------- challenges

  /** The challenge was consumed, or its row is gone for good. */
  predicate Used(m: Moment, jti: nat) {
    jti in m.drawn && (jti in m.world.pending ==> m.world.pending[jti].consumedAt.Some?)
  }

  lemma StepKeepsUsed(m: Moment, op: Op, n: Moment, jti: nat)
    requires Step(m, op, n) && Used(m, jti)
    ensures Used(n, jti)
  {
  }

  /** Each challenge completes at most one login. */
  lemma {:induction false} ChallengeCompletesOnce(ms: seq<Moment>, ops: seq<Op>, i: nat, j: nat)
    requires IsRun(ms, ops) && i < j < |ops| && ops[i].CompleteLogin? && ops[j].CompleteLogin?
    requires ops[i].challenge.jti == ops[j].challenge.jti && Commits(ms, ops, i)
    ensures !Commits(ms, ops, j)
  {
    UsedAfter(ms, ops, i, j);
  }

  lemma {:induction false} UsedAfter(ms: seq<Moment>, ops: seq<Op>, i: nat, j: nat)
    requires IsRun(ms, ops) && i < j < |ms| && ops[i].CompleteLogin? && Commits(ms, ops, i)
    ensures Used(ms[j], ops[i].challenge.jti)
  {
    assert StepAt(ms, ops, j - 1);
    if j == i + 1 {
      RunInv(ms, ops, i);
    } else {
      UsedAfter(ms, ops, i, j - 1);
      StepKeepsUsed(ms[j - 1], ops[j - 1], ms[j], ops[i].challenge.jti);
    }
  }

  ghost predicate Consumed(m: Moment, n: Moment, jti: nat) {
    jti in m.world.pending && m.world.pending[jti].consumedAt.None? && jti in n.world.pending
      && n.world.pending[jti].consumedAt.Some?
  }

  /** A step of the login path that changes any user row consumes exactly one
      challenge, its own, and touches nothing but the codes of that user: it removes
      the entries the code matches and keeps every other. A failed one changes
      nothing at all. */
  lemma LoginRemovesAndConsumes(m: Moment, op: Op, n: Moment)
    requires Step(m, op, n) && op.CompleteLogin?
    ensures n.world != m.world ==> forall j :: Consumed(m, n, j) <==> j == op.challenge.jti
    ensures n.world.users != m.world.users ==>
      && op.challenge.user in m.world.users && n.world.users.Keys == m.world.users.Keys
      && (forall id :: id in m.world.users && id != op.challenge.user ==> n.world.users[id] == m.world.users[id])
      && var a, b := m.world.users[op.challenge.user], n.world.users[op.challenge.user];
         && b == a.(codes := b.codes) && |b.codes| < |a.codes| && multiset(b.codes) <= multiset(a.codes)
         && AnyMatch(a.codes, op.code) && !AnyMatch(b.codes, op.code)
         && forall s :: s in a.codes && !Matches(s, op.code) ==> multiset(b.codes)[s] == multiset(a.codes)[s]
  {
    if op.challenge.user in m.world.users {
      RemainingMatches(m.world.users[op.challenge.user].codes, op.code);
      RemainingKeeps(m.world.users[op.challenge.user].codes, op.code);
    }
    if n.world != m.world {
      assert Consumed(m, n, op.challenge.jti);
    }
  }

  /** Steps that install a new inventory for the user. */
  predicate Installs(op: Op, id: nat) {
    (op.Verify? && op.session.user == id) || (op.Regenerate? && op.session.user == id)
      || (op.CompleteEnrolment? && op.enrolment.user == id)
  }

  predicate Recovers(ms: seq<Moment>, ops: seq<Op>, i: nat, id: nat)
    requires i < |ops| && |ms| == |ops| + 1
  {
    ops[i].CompleteLogin? && ops[i].challenge.user == id && !ops[i].totp
      && Performed(ms[i].world, ops[i], ms[i + 1].now).outcome.Ok?
  }

  lemma StepKeepsCodes(m: Moment, op: Op, n: Moment, id: nat, code: string)
    requires Step(m, op, n) && m.world.users.Keys <= m.known && id in m.known && !Installs(op, id)
    requires id in m.world.users ==> !AnyMatch(m.world.users[id].codes, code)
    ensures id in n.world.users ==> !AnyMatch(n.world.users[id].codes, code)
  {
    if op.CompleteLogin? && op.challenge.user in m.world.users {
      if !AnyMatch(m.world.users[op.challenge.user].codes, code) {
        RemainingSubset(m.world.users[op.challenge.user].codes, op.code, code);
      }
    }
  }

  lemma LoginClears(w: World, c: Challenge, code: string, now: int)
    requires Complete2FA(w, c, code, false, now).outcome.Ok?
    ensures var after := Complete2FA(w, c, code, false, now).world.users;
      c.user in w.users && c.user in after && !AnyMatch(after[c.user].codes, code)
  {
    RemainingMatches(w.users[c.user].codes, code);
  }

  lemma {:induction false} CodeGone(ms: seq<Moment>, ops: seq<Op>, i: nat, j: nat, id: nat)
    requires IsRun(ms, ops) && i < j < |ms| && Recovers(ms, ops, i, id)
    requires forall k :: i < k < j ==> !Installs(ops[k], id)
    ensures id in ms[j].known && (id in ms[j].world.users ==> !AnyMatch(ms[j].world.users[id].codes, ops[i].code))
  {
    RunInv(ms, ops, j - 1);
    assert StepAt(ms, ops, j - 1);
    if j == i + 1 {
      StepPerforms(ms[i], ops[i], ms[j]);
      LoginClears(ms[i].world, ops[i].challenge, ops[i].code, ms[j].now);
    } else {
      CodeGone(ms, ops, i, j - 1, id);
      StepKeepsCodes(ms[j - 1], ops[j - 1], ms[j], id, ops[i].code);
    }
  }

  /** Between two inventories each recovery code completes at most one login: once
      it has, no stored entry matches it in any spelling, and it is refused. */
  lemma RecoveryCodeOnce(ms: seq<Moment>, ops: seq<Op>, i: nat, j: nat, id: nat)
    requires IsRun(ms, ops) && i < j < |ops| && Recovers(ms, ops, i, id) && Recovers(ms, ops, j, id)
    requires forall k :: i < k < j ==> !Installs(ops[k], id)
    ensures Upper(ops[i].code) != Upper(ops[j].code)
  {
    CodeGone(ms, ops, i, j, id);
    var codes := ms[j].world.users[id].codes;
    assert AnyMatch(codes, ops[j].code);
    var k :| 0 <= k < |codes| && Matches(codes[k], ops[j].code);
    assert !Matches(codes[k], ops[i].code);
  }

  // -------------------------------------------------------------- enrolments

  /** The user's row does not carry this enrolment id, and it will not be drawn again. */
  predicate Dead(m: Moment, id: nat, eid: nat) {
    eid in m.drawn && (id in m.world.users ==> m.world.users[id].enrollmentId != Some(eid))
  }

  lemma StepKeepsDead(m: Moment, op: Op, n: Moment, id: nat, eid: nat)
    requires Step(m, op, n) && Dead(m, id, eid)
    ensures Dead(n, id, eid)
  {
  }

  lemma {:induction false} DeadForever(ms: seq<Moment>, ops: seq<Op>, i: nat, j: nat, id: nat, eid: nat)
    requires IsRun(ms, ops) && i <= j < |ms| && Dead(ms[i], id, eid)
    ensures Dead(ms[j], id, eid)
  {
    if i < j {
      DeadForever(ms, ops, i, j - 1, id, eid);
      assert StepAt(ms, ops, j - 1);
      StepKeepsDead(ms[j - 1], ops[j - 1], ms[j], id, eid);
    }
  }

  /** The user and the enrolment id that a step starts, or completes. */
  predicate Starts(op: Op, id: nat) { (op.Begin? && op.snapshot.id == id) || (op.Setup? && op.id == id) }

  predicate Completes(op: Op, id: nat, eid: nat) {
    || (op.CompleteEnrolment? && op.enrolment.user == id && op.enrolment.enrollmentId == eid)
    || (op.Verify? && op.session.user == id && op.enrollmentId == eid)
  }

  lemma StartEndsEarlier(m: Moment, op: Op, n: Moment, id: nat, eid: nat)
    requires Step(m, op, n) && Starts(op, id) && Performed(m.world, op, n.now).outcome.Ok? && eid in m.drawn
    ensures Dead(n, id, eid)
  {
  }

  lemma CompletionEndsIt(m: Moment, op: Op, n: Moment, id: nat, eid: nat)
    requires Step(m, op, n) && Completes(op, id, eid) && Performed(m.world, op, n.now).outcome.Ok? && Inv(m)
    ensures Dead(n, id, eid)
  {
    assert id in m.world.users && m.world.users[id].enrollmentId == Some(eid);
  }

  /** Of several enrolments of a user, recovery enrolments and ordinary set-ups alike,
      only the newest can complete: once a later one has started, none whose id was
      drawn before ever does. */
  lemma LaterStartWins(ms: seq<Moment>, ops: seq<Op>, j: nat, k: nat, id: nat, eid: nat)
    requires IsRun(ms, ops) && j < k < |ops| && Completes(ops[k], id, eid) && eid in ms[j].drawn
    requires Starts(ops[j], id) && Commits(ms, ops, j)
    ensures !Commits(ms, ops, k)
  {
    assert StepAt(ms, ops, j);
    StartEndsEarlier(ms[j], ops[j], ms[j + 1], id, eid);
    DeadForever(ms, ops, j + 1, k, id, eid);
  }

  /** A recovery enrolment that was issued before a later one of its user began never
      completes. */
  lemma OnlyNewestEnrolment(ms: seq<Moment>, ops: seq<Op>, j: nat, k: nat, e: Enrolment)
    requires IsRun(ms, ops) && j < k < |ops| && e in ms[j].enrolments
    requires ops[j].Begin? && ops[j].snapshot.id == e.user && Commits(ms, ops, j)
    requires ops[k].CompleteEnrolment? && ops[k].enrolment == e
    ensures !Commits(ms, ops, k)
  {
    RunInv(ms, ops, j);
    LaterStartWins(ms, ops, j, k, e.user, e.enrollmentId);
  }

  /** An enrolment completes at most once. */
  lemma EnrolmentCompletesOnce(ms: seq<Moment>, ops: seq<Op>, i: nat, j: nat, id: nat, eid: nat)
    requires IsRun(ms, ops) && i < j < |ops| && Completes(ops[i], id, eid) && Completes(ops[j], id, eid)
      && Commits(ms, ops, i)
    ensures !Commits(ms, ops, j)
  {
    RunInv(ms, ops, i);
    assert StepAt(ms, ops, i);
    CompletionEndsIt(ms[i], ops[i], ms[i + 1], id, eid);
    DeadForever(ms, ops, i + 1, j, id, eid);
  }

  // --------------------------------------------------------------- lifetimes

  lemma {:induction false} ClockMonotone(ms: seq<Moment>, ops: seq<Op>, i: nat, j: nat)
    requires IsRun(ms, ops) && i <= j < |ms|
    ensures ms[i].now <= ms[j].now
  {
    if i < j {
      ClockMonotone(ms, ops, i, j - 1);
      assert StepAt(ms, ops, j - 1);
    }
  }

  lemma {:induction false} ChallengeHasIssue(ms: seq<Moment>, ops: seq<Op>, k: nat, c: Challenge) returns (i: nat)
    requires IsRun(ms, ops) && k < |ms| && c in ms[k].challenges
    ensures i < k && ops[i].IssueChallenge? && Commits(ms, ops, i)
    ensures c == NewChallenge(ops[i].snapshot, ops[i].jti, ms[i + 1].now)
  {
    assert StepAt(ms, ops, k - 1);
    if c in ms[k - 1].challenges {
      i := ChallengeHasIssue(ms, ops, k - 1, c);
    } else {
      i := k - 1;
    }
  }

  /** Every login completed with a challenge goes back to the step that issued it for
      this user, less than five minutes before. */
  lemma ChallengeLifetime(ms: seq<Moment>, ops: seq<Op>, j: nat) returns (i: nat)
    requires IsRun(ms, ops) && j < |ops| && ops[j].CompleteLogin? && Commits(ms, ops, j)
    ensures i < j && ops[i].IssueChallenge? && Commits(ms, ops, i)
    ensures ops[i].jti == ops[j].challenge.jti && ops[i].snapshot.id == ops[j].challenge.user
    ensures ms[i + 1].now <= ms[j + 1].now < ms[i + 1].now + 5 * 60 * SECOND
  {
    assert StepAt(ms, ops, j);
    i := ChallengeHasIssue(ms, ops, j, ops[j].challenge);
    ClockMonotone(ms, ops, i + 1, j + 1);
  }

  lemma {:induction false} EnrolmentHasBegin(ms: seq<Moment>, ops: seq<Op>, k: nat, e: Enrolment) returns (i: nat)
    requires IsRun(ms, ops) && k < |ms| && e in ms[k].enrolments
    ensures i < k && ops[i].Begin? && Commits(ms, ops, i)
    ensures e == NewEnrolment(ops[i].snapshot, ops[i].enrollmentId, ms[i + 1].now)
  {
    assert StepAt(ms, ops, k - 1);
    if e in ms[k - 1].enrolments {
      i := EnrolmentHasBegin(ms, ops, k - 1, e);
    } else {
      i := k - 1;
    }
  }

  /** Every completed recovery enrolment goes back to the login that began it, less
      than ten minutes before. */
  lemma EnrolmentLifetime(ms: seq<Moment>, ops: seq<Op>, j: nat) returns (i: nat)
    requires IsRun(ms, ops) && j < |ops| && ops[j].CompleteEnrolment? && Commits(ms, ops, j)
    ensures i < j && ops[i].Begin? && Commits(ms, ops, i)
    ensures ops[i].enrollmentId == ops[j].enrolment.enrollmentId && ops[i].snapshot.id == ops[j].enrolment.user
    ensures ms[i + 1].now <= ms[j + 1].now < ms[i + 1].now + 10 * 60 * SECOND
  {
    assert StepAt(ms, ops, j);
    i := EnrolmentHasBegin(ms, ops, j, ops[j].enrolment);
    ClockMonotone(ms, ops, i + 1, j + 1);
  }

  /** The step gives this user this enrolment id. */
  predicate StartsAs(op: Op, id: nat, eid: nat) { Starts(op, id) && op.enrollmentId == eid }

  /** The step gave this user's row its enrolment id, for at most ten minutes. */
  predicate Started(m: Moment, op: Op, n: Moment, id: nat)
    requires id in n.world.users && n.world.users[id].enrollmentId.Some?
  {
    var u := n.world.users[id];
    && StartsAs(op, id, u.enrollmentId.value) && Performed(m.world, op, n.now).outcome.Ok?
    && u.enrollmentExpiresAt.Some? && u.enrollmentExpiresAt.value <= n.now + 10 * 60 * SECOND
  }

  lemma EnrollmentKept(m: Moment, op: Op, n: Moment, id: nat)
    requires Step(m, op, n) && m.world.users.Keys <= m.known
    requires id in n.world.users && n.world.users[id].enrollmentId.Some? && !Started(m, op, n, id)
    ensures id in m.world.users && m.world.users[id].enrollmentId == n.world.users[id].enrollmentId
    ensures m.world.users[id].enrollmentExpiresAt == n.world.users[id].enrollmentExpiresAt
  {
  }

  lemma {:induction false} EnrollmentHasStart(ms: seq<Moment>, ops: seq<Op>, k: nat, id: nat) returns (i: nat)
    requires IsRun(ms, ops) && k < |ms| && id in ms[k].world.users && ms[k].world.users[id].enrollmentId.Some?
    ensures i < k && StartsAs(ops[i], id, ms[k].world.users[id].enrollmentId.value) && Commits(ms, ops, i)
    ensures ms[k].world.users[id].enrollmentExpiresAt.Some?
    ensures ms[k].world.users[id].enrollmentExpiresAt.value <= ms[i + 1].now + 10 * 60 * SECOND
  {
    assert StepAt(ms, ops, k - 1);
    if Started(ms[k - 1], ops[k - 1], ms[k], id) {
      i := k - 1;
    } else {
      RunInv(ms, ops, k - 1);
      EnrollmentKept(ms[k - 1], ops[k - 1], ms[k], id);
      i := EnrollmentHasStart(ms, ops, k - 1, id);
    }
  }

  /** Every verified set-up goes back to the step that started it, less than ten
      minutes before. */
  lemma SetupLifetime(ms: seq<Moment>, ops: seq<Op>, j: nat) returns (i: nat)
    requires IsRun(ms, ops) && j < |ops| && ops[j].Verify? && Commits(ms, ops, j)
    ensures i < j && StartsAs(ops[i], ops[j].session.user, ops[j].enrollmentId) && Commits(ms, ops, i)
    ensures ms[i + 1].now <= ms[j + 1].now < ms[i + 1].now + 10 * 60 * SECOND
  {
    i := EnrollmentHasStart(ms, ops, j, ops[j].session.user);
    ClockMonotone(ms, ops, i + 1, j + 1);
  }

  // ------------------------------------------------------------- round trips

  /** A challenge issued for the current row of a user with a second factor completes
      a login exactly within its five minutes, with a valid one-time password or a
      recovery code of the user. */
  lemma ChallengeWorks(w: World, s: Snapshot, jti: nat, now: int, code: string, totp: bool, later: int)
    requires s.id in w.users && w.users[s.id] == s.user && s.user.totpEnabled && s.user.secret.Some?
    requires !s.user.reenrollmentRequired && jti !in w.pending && code != []
    ensures Challenged(w, s, jti, now).outcome.Ok?
    ensures Complete2FA(Challenged(w, s, jti, now).world, NewChallenge(s, jti, now), code, totp, later).outcome.Ok? <==>
      later < now + 5 * 60 * SECOND && (totp || AnyMatch(s.user.codes, code))
  {
  }

  /** On any table, reachable or not, the only logins that complete are those of a row
      that still is what the challenge was signed for, with its own open challenge. */
  lemma LoginNeedsItsRow(w: World, c: Challenge, code: string, totp: bool, now: int)
    requires Complete2FA(w, c, code, totp, now).outcome.Ok?
    ensures c.user in w.users && w.users[c.user].totpEnabled && !w.users[c.user].reenrollmentRequired
    ensures w.users[c.user].version == c.version && w.users[c.user].role == c.role
    ensures w.users[c.user].secret == c.binding && c.binding.Some?
    ensures c.jti in w.pending && w.pending[c.jti].user == c.user && w.pending[c.jti].version == c.version
    ensures w.pending[c.jti].binding == c.binding && now < w.pending[c.jti].expiresAt && now < c.expiresAt
    ensures w.pending[c.jti].consumedAt.None? && code != []
  {
  }

  /** The same for recovery enrolments. */
  lemma EnrolmentNeedsItsRow(w: World, e: Enrolment, totp: bool, codes: seq<Stored>, now: int)
    requires Enrolled(w, e, totp, codes, now).outcome.Ok?
    ensures e.user in w.users && w.users[e.user].reenrollmentRequired && !w.users[e.user].totpEnabled && totp
    ensures w.users[e.user].version == e.version && w.users[e.user].role == e.role
    ensures w.users[e.user].enrollmentId == Some(e.enrollmentId) && w.users[e.user].secret.Some?
    ensures w.users[e.user].enrollmentExpiresAt == Some(e.expiresAt) && e.issuedAt <= now < e.expiresAt
  {
  }

  /** What a login with a verified password may start: a challenge unless its row demands
      a new enrolment, and an enrolment exactly if it does, and the row still has the
      password, role and version the login read and no second factor. */
  lemma LoginStartsIff(w: World, s: Snapshot, jti: nat, secret: nat, eid: nat, now: nat)
    ensures Challenged(w, s, jti, now).outcome.Ok? <==> !s.user.reenrollmentRequired
    ensures Begun(w, s, secret, eid, now).outcome.Ok? <==>
      && s.id in w.users && w.users[s.id].reenrollmentRequired && !w.users[s.id].totpEnabled
      && w.users[s.id].passwordHash == s.user.passwordHash
      && w.users[s.id].role == s.user.role && w.users[s.id].version == s.user.version
  {
  }

  /** A set-up can be verified in the same session exactly within its ten minutes, with
      a valid one-time password; the user then has the new factor and codes. */
  lemma SetupWorks(w: World, id: nat, secret: nat, eid: nat, now: int, s: Session, totp: bool, codes: seq<Stored>,
      later: int)
    requires id in w.users && !w.users[id].reenrollmentRequired && !w.users[id].totpEnabled
    requires s.user == id && s.role == w.users[id].role && s.version == w.users[id].version
    ensures SetUp(w, id, secret, eid, now).outcome.Ok?
    ensures var done := Verified(SetUp(w, id, secret, eid, now).world, s, eid, totp, codes, later);
      && (done.outcome.Ok? <==> later < s.expiresAt && later < now + 10 * 60 * SECOND && totp)
      && (done.outcome.Ok? ==> done.world.users[id] == w.users[id].(
            totpEnabled := true, secret := Some(secret), codes := codes, version := w.users[id].version + 1,
            enrollmentId := None, enrollmentExpiresAt := None))
  {
  }

  /** A recovery enrolment begun for the current row can be completed exactly within
      its ten minutes, with a valid one-time password; the user then has the new factor
      and codes and need not enrol again. */
  lemma EnrolmentWorks(w: World, s: Snapshot, secret: nat, eid: nat, now: nat, totp: bool, codes: seq<Stored>,
      later: int)
    requires s.id in w.users && w.users[s.id] == s.user && s.user.reenrollmentRequired && !s.user.totpEnabled
      && now <= later
    ensures Begun(w, s, secret, eid, now).outcome.Ok?
    ensures var done := Enrolled(Begun(w, s, secret, eid, now).world, NewEnrolment(s, eid, now), totp, codes, later);
      && (done.outcome.Ok? <==> later < now - now % SECOND + 10 * 60 * SECOND && totp)
      && (done.outcome.Ok? ==> done.world.users[s.id] == s.user.(
            totpEnabled := true, reenrollmentRequired := false, secret := Some(secret), codes := codes,
            version := s.user.version + 1, enrollmentId := None, enrollmentExpiresAt := None))
  {
  }

  // ----------------------------------------------------------------- effects

  /** The user that a step is about. */
  function Subject(op: Op): Option<nat> {
    match op
    case CompleteLogin(c, _, _) => Some(c.user)
    case Setup(id, _, _) => Some(id)
    case Verify(s, _, _, _) => Some(s.user)
    case Disable(id, _, _) => Some(id)
    case Regenerate(s, _, _, _) => Some(s.user)
    case Begin(s, _, _) => Some(s.id)
    case CompleteEnrolment(e, _, _) => Some(e.user)
    case Update(id, _, _) => Some(id)
    case Delete(id, _) => Some(id)
    case ChangePassword(id, _, _) => Some(id)
    case Create(id, _, _) => Some(id)
    case Reset(id, _, _) => Some(id)
    case _ => None
  }

  predicate OpenFor(w: World, id: nat, j: nat) { j in w.pending && w.pending[j].user == id }

  /** No step touches another user's row or pending challenges, but for the pruning of
      challenges. */
  lemma StepTouchesSubject(m: Moment, op: Op, n: Moment, id: nat, j: nat)
    requires Step(m, op, n) && Subject(op) != Some(id)
    ensures id in m.world.users <==> id in n.world.users
    ensures id in m.world.users ==> n.world.users[id] == m.world.users[id]
    ensures (op.Prune? || (op.CompleteLogin? && op.challenge.jti == j)) || !OpenFor(m.world, id, j)
      || (OpenFor(n.world, id, j) && n.world.pending[j] == m.world.pending[j])
  {
  }

  /** Every committed change of a user's security, set-ups and enrolments included,
      leaves the user without an open challenge. */
  lemma ChangesDropChallenges(m: Moment, op: Op, n: Moment, id: nat, j: nat)
    requires Step(m, op, n) && Subject(op) == Some(id) && id in m.world.users && id in n.world.users
    requires m.world.users.Keys <= m.known
    requires op.Setup? || !SameSecurity(m.world.users[id], n.world.users[id])
      || (op.Begin? && Performed(m.world, op, n.now).outcome.Ok?)
    requires op.Setup? ==> Performed(m.world, op, n.now).outcome.Ok?
    ensures !OpenFor(n.world, id, j)
  {
  }

  /** Role changes and deletions are refused for nothing but the last administrator,
      and a deletion of oneself. */
  lemma AdminGuardsIff(w: World, id: nat, role: Option<Role>, hash: Option<nat>, actor: nat)
    requires id in w.users
    ensures Updated(w, id, role, hash).outcome.Ok? <==> !(role.Some? && role.value != Admin && Admins(w.users) == {id})
    ensures Deleted(w, id, actor).outcome.Ok? <==> id != actor && Admins(w.users) != {id}
  {
    var admins := Admins(w.users);
    if id in admins && |admins| <= 1 {
      assert |admins - {id}| == |admins| - 1;
    }
  }

  /** What a committed change leaves: exactly the role and password that were asked
      for, and nothing else of the row but its version. */
  lemma UpdateTakesEffect(w: World, id: nat, role: Option<Role>, hash: Option<nat>, newHash: nat, actor: nat)
    requires id in w.users
    ensures var u, t := w.users[id], Updated(w, id, role, hash);
      t.outcome.Ok? ==> id in t.world.users && t.world.users[id] == u.(
        role := if role.Some? then role.value else u.role,
        passwordHash := if hash.Some? then hash.value else u.passwordHash, version := t.world.users[id].version)
    ensures PasswordChanged(w, id, false, newHash) == Tx(w, Err(WrongPassword))
    ensures var t := PasswordChanged(w, id, true, newHash);
      && t.outcome.Ok? && id in t.world.users
      && t.world.users[id] == w.users[id].(passwordHash := newHash, version := w.users[id].version + 1)
    ensures var t := Deleted(w, id, actor); t.outcome.Ok? ==> id !in t.world.users
  {
  }

  /** Disabling takes the factor, its secret and its codes away, and new codes replace
      the old ones, exactly when the user proves possession of the factor. */
  lemma FactorTakesEffect(w: World, id: nat, password: bool, totp: bool, s: Session, baseline: Option<User>,
                          codes: seq<Stored>, now: int)
    requires id in w.users && s.user == id
    ensures var u, t := w.users[id], Disabled(w, id, password, totp);
      && (t.outcome.Ok? <==> !u.reenrollmentRequired && u.totpEnabled && u.secret.Some? && password && totp)
      && (t.outcome.Ok? ==>
            && id in t.world.users && !t.world.users[id].totpEnabled
            && t.world.users[id].secret.None? && t.world.users[id].codes == [])
    ensures var t := Regenerated(w, s, baseline, totp, codes, now);
      t.outcome.Ok? ==>
        && totp && s.live && now < s.expiresAt && t.world == WithUser(w, id, w.users[id].(codes := codes))
        && baseline.Some? && baseline.value.secret == w.users[id].secret && baseline.value.codes == w.users[id].codes
    ensures var t := Regenerated(w, s, Some(w.users[id]), totp, codes, now); var u := w.users[id];
      t.outcome.Ok? <==> SessionFits(u, s) && u.totpEnabled && u.secret.Some? && totp && s.live && now < s.expiresAt
  {
  }

  /** An offline reset leaves the password that was asked for; one of the second factor
      takes it away with its codes and demands a new enrolment, and one of the password
      alone keeps an enabled factor and its codes. */
  lemma ResetTakesEffect(w: World, id: nat, hash: Option<nat>, totp: bool)
    requires id in w.users
    ensures var u, t := w.users[id], OfflineReset(w, id, hash, totp);
      && (t.outcome.Ok? <==> hash.Some? || totp)
      && (t.outcome.Ok? ==>
            && id in t.world.users && t.world.users[id].enrollmentId.None?
            && t.world.users[id].passwordHash == (if hash.Some? then hash.value else u.passwordHash)
            && var v := t.world.users[id];
               if totp then v.reenrollmentRequired && !v.totpEnabled && v.secret.None? && v.codes == []
               else SameSecurity(u, v.(passwordHash := u.passwordHash)) && v.codes == u.codes)
  {
  }

  // ------------------------------------------------------------------ admins

  /** Only an update or a deletion of this very user can take its role away. */
  lemma StepKeepsRole(m: Moment, op: Op, n: Moment, id: nat)
    requires Step(m, op, n) && id in m.world.users && m.world.users.Keys <= m.known
    requires (op.Update? || op.Delete?) ==> op.id != id
    ensures id in n.world.users && n.world.users[id].role == m.world.users[id].role
  {
  }

  /** The guards on the last administrator hold it back from both transactions. */
  lemma LastAdminStays(w: World, id: nat, role: Option<Role>, hash: Option<nat>, actor: nat)
    requires Admins(w.users) == {id}
    ensures id in Admins(Updated(w, id, role, hash).world.users) && id in Admins(Deleted(w, id, actor).world.users)
  {
    assert id in Admins(w.users) && |Admins(w.users)| == 1;
  }

  lemma StepPerforms(m: Moment, op: Op, n: Moment)
    requires Step(m, op, n)
    ensures n.world == Performed(m.world, op, n.now).world
    ensures op.CompleteLogin? ==>
      Performed(m.world, op, n.now) == Complete2FA(m.world, op.challenge, op.code, op.totp, n.now)
    ensures op.Update? ==> n.world == Updated(m.world, op.id, op.newRole, op.newHash).world
    ensures op.Delete? ==> n.world == Deleted(m.world, op.id, op.actor).world
  {
  }

  lemma LastAdminStep(w: World, op: Op, v: World)
    requires (op.Update? || op.Delete?) && Admins(w.users) == {op.id}
    requires op.Update? ==> v == Updated(w, op.id, op.newRole, op.newHash).world
    requires op.Delete? ==> v == Deleted(w, op.id, op.actor).world
    ensures op.id in Admins(v.users)
  {
    if op.Update? {
      LastAdminStays(w, op.id, op.newRole, op.newHash, 0);
    } else {
      LastAdminStays(w, op.id, None, None, op.actor);
    }
  }

  lemma StepKeepsAdmin(m: Moment, op: Op, n: Moment)
    requires Step(m, op, n) && Admins(m.world.users) != {} && m.world.users.Keys <= m.known
    ensures Admins(n.world.users) != {}
  {
    if (op.Update? || op.Delete?) && Admins(m.world.users) == {op.id} {
      StepPerforms(m, op, n);
      LastAdminStep(m.world, op, n.world);
    } else {
      var a :| a in Admins(m.world.users) && ((op.Update? || op.Delete?) ==> op.id != a);
      StepKeepsRole(m, op, n, a);
      assert a in Admins(n.world.users);
    }
  }

  /** Whatever the order of role changes and deletions, an installation that has an
      administrator keeps one. */
  lemma {:induction false} AdminRemains(ms: seq<Moment>, ops: seq<Op>, i: nat, j: nat)
    requires IsRun(ms, ops) && i <= j < |ms| && Admins(ms[i].world.users) != {}
    ensures Admins(ms[j].world.users) != {}
  {
    if i < j {
      AdminRemains(ms, ops, i, j - 1);
      RunInv(ms, ops, j - 1);
      assert StepAt(ms, ops, j - 1);
      StepKeepsAdmin(ms[j - 1], ops[j - 1], ms[j]);
    }
  }
}
