/** The identity service over its user and pending-token tables; every method is
    one transaction. */
module IdentityStore {
  import opened Basics
  import opened IdentityRuns

  /** What a password login ends with. */
  datatype LoginResult = Token | SecondFactor(challenge: Challenge) | Reenroll(enrolment: Enrolment)

  /** One pass over the inventory, dropping every entry that matches. */
  method ValidateAndConsumeRecoveryCode(stored: seq<Stored>, code: string) returns (remaining: seq<Stored>, found: bool)
    ensures found <==> AnyMatch(stored, code)
    ensures remaining == if found then Remaining(stored, code) else []
  {
    remaining, found := [], false;
    if |stored| == 0 { return; }
    var normalised := Upper(code);
    var i := 0;
    while i < |stored|
      invariant 0 <= i <= |stored|
      invariant remaining == Remaining(stored[..i], code)
      invariant found <==> exists k :: 0 <= k < i && Matches(stored[k], code)
    {
      assert stored[..i + 1][..i] == stored[..i];
      if stored[i].plain == normalised {
        assert Matches(stored[i], code);
        found := true;
      } else {
        remaining := remaining + [stored[i]];
      }
      i := i + 1;
    }
    assert stored[..i] == stored;
    if !found { remaining := []; }
  }

  class IdentityService {
    var users: map<nat, User>
    var pending: map<nat, Pending>

    ghost function Rows(): World reads this { World(users, pending) }

    constructor ()
      ensures Rows() == World(map[], map[])
    {
      users, pending := map[], map[];
    }

    method DeletePendingTokens(id: nat)
      modifies this`pending
      ensures Rows() == WithoutPending(old(Rows()), id)
    {
      pending := map j | j in pending && pending[j].user != id :: pending[j];
    }

    method Complete2FALogin(c: Challenge, code: string, totp: bool, now: int) returns (r: Result<()>)
      modifies this
      ensures Tx(Rows(), r) == Complete2FA(old(Rows()), c, code, totp, now)
    {
      if now >= c.expiresAt { return Err(PendingLoginInvalid); }
      if code == "" { return Err(RecoveryCodeInvalid); }
      if c.user !in users { return Err(NotFound); }
      var user := users[c.user];
      if user.reenrollmentRequired { return Err(PendingLoginInvalid); }
      if user.version != c.version || user.role != c.role || !user.totpEnabled || user.secret.None?
        || user.secret != c.binding {
        return Err(PendingLoginInvalid);
      }
      if c.jti !in pending { return Err(PendingLoginInvalid); }
      var row := pending[c.jti];
      if row.user != c.user || row.version != c.version || row.binding != c.binding || row.consumedAt.Some?
        || now >= row.expiresAt {
        return Err(PendingLoginInvalid);
      }
      if !totp {
        var remaining, ok := ValidateAndConsumeRecoveryCode(user.codes, code);
        if !ok { return Err(RecoveryCodeInvalid); }
        users := users[c.user := user.(codes := remaining)];
      }
      pending := pending[c.jti := row.(consumedAt := Some(now))];
      assert totp ==> users == old(users)[c.user := user];
      return Ok(());
    }

    /** The insert ignores a conflicting token id. */
    method Generate2FAPendingToken(s: Snapshot, jti: nat, now: int) returns (r: Result<Challenge>)
      modifies this`pending
      ensures match Challenged(old(Rows()), s, jti, now).outcome
        case Ok(_) => r == Ok(NewChallenge(s, jti, now))
        case Err(e) => r == Err(e)
      ensures Rows() == Challenged(old(Rows()), s, jti, now).world
    {
      if s.user.reenrollmentRequired { return Err(RecoveryEnrollmentInvalid); }
      var expiresAt := now + PENDING_TTL;
      if jti !in pending {
        pending := pending[jti := Pending(s.id, s.user.version, s.user.secret, expiresAt, None)];
      }
      return Ok(Challenge(s.id, s.user.role, s.user.version, s.user.secret, jti, expiresAt));
    }

    /** The branches of a login whose password was right, on the row it read. */
    method FinishLogin(s: Snapshot, drawn: nat, secret: nat, now: nat) returns (r: Result<LoginResult>)
      modifies this
      ensures s.user.reenrollmentRequired ==>
        && Rows() == Begun(old(Rows()), s, secret, drawn, now).world
        && (r.Ok? <==> Begun(old(Rows()), s, secret, drawn, now).outcome.Ok?)
        && (r.Ok? ==> r.value == Reenroll(NewEnrolment(s, drawn, now)))
      ensures !s.user.reenrollmentRequired && s.user.totpEnabled ==>
        r == Ok(SecondFactor(NewChallenge(s, drawn, now))) && Rows() == Challenged(old(Rows()), s, drawn, now).world
      ensures !s.user.reenrollmentRequired && !s.user.totpEnabled ==> r == Ok(Token) && Rows() == old(Rows())
    {
      if s.user.reenrollmentRequired {
        var enrolment := BeginRecoveryEnrollment(s, secret, drawn, now);
        if enrolment.Err? { return Err(enrolment.error); }
        return Ok(Reenroll(enrolment.value));
      }
      if s.user.totpEnabled {
        var challenge := Generate2FAPendingToken(s, drawn, now);
        return Ok(SecondFactor(challenge.value));
      }
      return Ok(Token);
    }

    method SetupTOTP(id: nat, secret: nat, enrollmentId: nat, now: int) returns (r: Result<()>)
      modifies this
      ensures Tx(Rows(), r) == SetUp(old(Rows()), id, secret, enrollmentId, now)
    {
      if id !in users { return Err(NotFound); }
      var row := users[id];
      if row.reenrollmentRequired { return Err(RecoveryEnrollmentInvalid); }
      if row.totpEnabled { return Err(TotpAlreadyEnabled); }
      users := users[id := row.(secret := Some(secret), enrollmentId := Some(enrollmentId),
        enrollmentExpiresAt := Some(now + ENROLLMENT_TTL))];
      DeletePendingTokens(id);
      return Ok(());
    }

    method VerifyTOTP(s: Session, enrollmentId: nat, totp: bool, codes: seq<Stored>, now: int) returns (r: Result<()>)
      modifies this
      ensures Tx(Rows(), r) == Verified(old(Rows()), s, enrollmentId, totp, codes, now)
    {
      if now >= s.expiresAt { return Err(SecurityConflict); }
      if s.user !in users { return Err(NotFound); }
      var row := users[s.user];
      if row.reenrollmentRequired || row.role != s.role || row.version != s.version { return Err(SecurityConflict); }
      if row.totpEnabled { return Err(TotpAlreadyEnabled); }
      if row.enrollmentId.None? || row.secret.None? { return Err(TotpEnrollmentRequired); }
      if row.enrollmentId.value != enrollmentId { return Err(TotpEnrollmentConflict); }
      if row.enrollmentExpiresAt.None? || now >= row.enrollmentExpiresAt.value {
        users := users[s.user := row.(secret := None, enrollmentId := None, enrollmentExpiresAt := None)];
        DeletePendingTokens(s.user);
        return Err(TotpEnrollmentExpired);
      }
      if !totp { return Err(TotpCodeInvalid); }
      row := row.(totpEnabled := true, codes := codes, enrollmentId := None, enrollmentExpiresAt := None,
        version := row.version + 1);
      users := users[s.user := row];
      DeletePendingTokens(s.user);
      return Ok(());
    }

    method DisableTOTP(id: nat, password: bool, totp: bool) returns (r: Result<()>)
      modifies this
      ensures Tx(Rows(), r) == Disabled(old(Rows()), id, password, totp)
    {
      if id !in users { return Err(NotFound); }
      var row := users[id];
      if row.reenrollmentRequired { return Err(RecoveryEnrollmentInvalid); }
      if !row.totpEnabled || row.secret.None? { return Err(TotpCodeInvalid); }
      if !password { return Err(WrongPassword); }
      if !totp { return Err(TotpCodeInvalid); }
      row := row.(secret := None, totpEnabled := false, codes := [], enrollmentId := None,
        enrollmentExpiresAt := None, version := row.version + 1);
      users := users[id := row];
      DeletePendingTokens(id);
      return Ok(());
    }

    method RegenerateRecoveryCodes(s: Session, baseline: Option<User>, totp: bool, codes: seq<Stored>, now: int)
        returns (r: Result<()>)
      modifies this`users
      ensures Tx(Rows(), r) == Regenerated(old(Rows()), s, baseline, totp, codes, now)
    {
      if baseline.None? { return Err(RecoveryCodeSessionInvalid); }
      var base := baseline.value;
      if base.reenrollmentRequired || base.role != s.role || base.version != s.version {
        return Err(RecoveryCodeSessionInvalid);
      }
      if !base.totpEnabled || base.secret.None? { return Err(TotpDisabled); }
      if s.user !in users { return Err(NotFound); }
      var row := users[s.user];
      if row.reenrollmentRequired { return Err(RecoveryCodeSessionInvalid); }
      if now >= s.expiresAt { return Err(RecoveryCodeSessionInvalid); }
      if row.role != s.role || row.version != s.version || !row.totpEnabled || row.secret.None? {
        return Err(RecoveryCodeConflict);
      }
      if row.role != base.role || row.version != base.version || row.totpEnabled != base.totpEnabled
        || row.secret != base.secret || row.codes != base.codes {
        return Err(RecoveryCodeConflict);
      }
      if !s.live { return Err(RecoveryCodeSessionInvalid); }
      if !totp { return Err(TotpCodeInvalid); }
      users := users[s.user := row.(codes := codes)];
      return Ok(());
    }

    method BeginRecoveryEnrollment(s: Snapshot, secret: nat, enrollmentId: nat, now: nat) returns (r: Result<Enrolment>)
      modifies this
      ensures Rows() == Begun(old(Rows()), s, secret, enrollmentId, now).world
      ensures match Begun(old(Rows()), s, secret, enrollmentId, now).outcome
        case Ok(_) => r == Ok(NewEnrolment(s, enrollmentId, now))
        case Err(e) => r == Err(e)
    {
      if s.id !in users { return Err(RecoveryEnrollmentInvalid); }
      var row := users[s.id];
      if row.passwordHash != s.user.passwordHash || row.version != s.user.version || row.role != s.user.role ||
         !row.reenrollmentRequired || row.totpEnabled
      {
        return Err(RecoveryEnrollmentInvalid);
      }
      var issuedAt := now - now % SECOND;
      var expiresAt := issuedAt + ENROLLMENT_TTL;
      var claims := Enrolment(s.id, row.role, row.version, enrollmentId, issuedAt, expiresAt);
      users := users[s.id := row.(secret := Some(secret), enrollmentId := Some(enrollmentId),
        enrollmentExpiresAt := Some(expiresAt))];
      DeletePendingTokens(s.id);
      return Ok(claims);
    }

    method CompleteRecoveryEnrollment(e: Enrolment, totp: bool, codes: seq<Stored>, now: int) returns (r: Result<()>)
      modifies this
      ensures Tx(Rows(), r) == Enrolled(old(Rows()), e, totp, codes, now)
    {
      if e.user !in users { return Err(RecoveryEnrollmentInvalid); }
      var row := users[e.user];
      if now >= e.expiresAt || e.issuedAt > now || row.role != e.role || row.version != e.version ||
         !row.reenrollmentRequired || row.totpEnabled || row.enrollmentId != Some(e.enrollmentId) ||
         row.enrollmentExpiresAt.None? || row.enrollmentExpiresAt.value != e.expiresAt ||
         row.enrollmentExpiresAt.value <= now || row.secret.None?
      {
        return Err(RecoveryEnrollmentInvalid);
      }
      if !totp { return Err(TotpCodeInvalid); }
      row := row.(totpEnabled := true, reenrollmentRequired := false, codes := codes,
                  enrollmentId := None, enrollmentExpiresAt := None, version := row.version + 1);
      users := users[e.user := row];
      DeletePendingTokens(e.user);
      return Ok(());
    }

    method UpdateUser(id: nat, role: Option<Role>, hash: Option<nat>) returns (r: Result<()>)
      modifies this
      ensures Tx(Rows(), r) == Updated(old(Rows()), id, role, hash)
    {
      if id !in users { return Err(NotFound); }
      var row := users[id];
      if role.Some? && row.role == Admin && role.value != Admin {
        if |Admins(users)| <= 1 { return Err(LastAdmin); }
      }
      var securityChanged := false;
      var after := row;
      if role.Some? && role.value != row.role {
        after := after.(role := role.value);
        securityChanged := true;
      }
      if hash.Some? {
        after := after.(passwordHash := hash.value);
        securityChanged := true;
      }
      if !securityChanged { return Ok(()); }
      after := after.(version := row.version + 1);
      users := users[id := after];
      DeletePendingTokens(id);
      return Ok(());
    }

    method DeleteUser(id: nat, actor: nat) returns (r: Result<()>)
      modifies this`users
      ensures Tx(Rows(), r) == Deleted(old(Rows()), id, actor)
    {
      if id == actor { return Err(Conflict); }
      if id !in users { return Err(NotFound); }
      if users[id].role == Admin {
        if |Admins(users)| <= 1 { return Err(LastAdmin); }
      }
      users := users - {id};
      return Ok(());
    }

    /** The offline reset, while no other writer runs. */
    method RecoverAccount(id: nat, hash: Option<nat>, totp: bool) returns (r: Result<()>)
      modifies this
      ensures Tx(Rows(), r) == OfflineReset(old(Rows()), id, hash, totp)
    {
      if hash.None? && !totp { return Err(InvalidState); }
      if id !in users { return Err(NotFound); }
      var row := users[id];
      var after := row.(version := row.version + 1, enrollmentId := None, enrollmentExpiresAt := None);
      if hash.Some? { after := after.(passwordHash := hash.value); }
      if totp {
        after := after.(secret := None, codes := [], totpEnabled := false, reenrollmentRequired := true);
      } else if !row.totpEnabled {
        after := after.(secret := None);
      }
      users := users[id := after];
      DeletePendingTokens(id);
      return Ok(());
    }

    method ChangePassword(id: nat, password: bool, hash: nat) returns (r: Result<()>)
      modifies this
      ensures Tx(Rows(), r) == PasswordChanged(old(Rows()), id, password, hash)
    {
      if id !in users { return Err(NotFound); }
      var row := users[id];
      if !password { return Err(WrongPassword); }
      users := users[id := row.(passwordHash := hash, version := row.version + 1)];
      DeletePendingTokens(id);
      return Ok(());
    }
  }
}
