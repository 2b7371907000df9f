/** The authentication services as they are written: statements on a session, then a commit, or a
    rollback on an exception. Each is proved to be one action of the token state machine. */
module AuthService {
  import opened Wrappers
  import opened Ledger
  import opened Tokens

  /** One session at a time over the token tables. */
  class AuthSession {
    var committed: Store

    // The tables as the session sees them, with what it has flushed.
    var users: seq<User>
    var refreshTokens: map<Token, RefreshToken>
    var resetTokens: map<Token, ResetToken>
    var auditLog: seq<Entry>

    function Seen(): Store
      reads this
    {
      Store(users, refreshTokens, resetTokens, auditLog)
    }

    /** Nothing is flushed and not committed: the state between requests. */
    predicate Clean()
      reads this
    {
      Seen() == committed
    }

    constructor (s: Store)
      ensures Clean() && committed == s
    {
      committed, users, refreshTokens, resetTokens, auditLog := s, s.users, s.refresh, s.resets, s.audit;
    }

    method Commit()
      modifies this`committed
      ensures Clean() && Seen() == old(Seen())
    {
      committed := Seen();
    }

    method Rollback()
      modifies this`users, this`refreshTokens, this`resetTokens, this`auditLog
      ensures Clean()
    {
      users, refreshTokens := committed.users, committed.refresh;
      resetTokens, auditLog := committed.resets, committed.audit;
    }

    // -------------------------------------------------------------------------
    // The repositories
    // -------------------------------------------------------------------------

    /** `AuditLogRepository.log`. */
    method LogEntry(action: Action, user: Option<Uuid>)
      modifies this`auditLog
      ensures auditLog == old(auditLog) + [Entry(action, user)]
    {
      auditLog := auditLog + [Entry(action, user)];
    }

    /** `RefreshTokenRepository.get_by_hash`. */
    method GetByHash(t: Token) returns (stored: Option<RefreshToken>)
      ensures stored == if t in refreshTokens then Some(refreshTokens[t]) else None
    {
      stored := if t in refreshTokens then Some(refreshTokens[t]) else None;
    }

    /** `RefreshTokenRepository.create`: false when the token is taken. */
    method CreateRefreshToken(user: Uuid, t: Token, expiresAt: int) returns (ok: bool)
      modifies this`refreshTokens
      ensures ok == (t !in old(refreshTokens))
      ensures ok ==> refreshTokens == old(refreshTokens)[t := RefreshToken(user, expiresAt, false)]
      ensures !ok ==> refreshTokens == old(refreshTokens)
    {
      ok := t !in refreshTokens;
      if ok { refreshTokens := refreshTokens[t := RefreshToken(user, expiresAt, false)]; }
    }

    /** `RefreshTokenRepository.revoke`. */
    method RevokeToken(t: Token)
      requires t in refreshTokens
      modifies this`refreshTokens
      ensures refreshTokens == old(refreshTokens)[t := old(refreshTokens)[t].(revoked := true)]
    {
      refreshTokens := refreshTokens[t := refreshTokens[t].(revoked := true)];
    }

    /** `RefreshTokenRepository.delete_expired`: a token that has not expired stays as it is, one
        that has is gone, and the count is the number of those. */
    method DeleteExpired(now: int) returns (count: nat)
      modifies this`refreshTokens
      ensures forall t :: t in refreshTokens <==>
                t in old(refreshTokens) && old(refreshTokens)[t].expiresAt >= now
      ensures forall t :: t in refreshTokens ==> refreshTokens[t] == old(refreshTokens)[t]
      ensures count == |set t | t in old(refreshTokens) && old(refreshTokens)[t].expiresAt < now|
    {
      var before := |refreshTokens|;
      DeletedAreTheRest(refreshTokens, now);
      refreshTokens := Unexpired(refreshTokens, now);
      count := before - |refreshTokens|;
    }

    /** `UserRepository.update` of the password hash. */
    method UpdatePassword(id: Uuid, password: string)
      modifies this`users
      ensures users == SetPassword(old(users), id, password)
    {
      var i := 0;
      while i < |users|
        invariant 0 <= i <= |users| == |old(users)|
        invariant forall j :: 0 <= j < i ==> users[j] == SetPassword(old(users), id, password)[j]
        invariant forall j :: i <= j < |users| ==> users[j] == old(users)[j]
      {
        if users[i].id == id { users := users[i := users[i].(password := password)]; }
        i := i + 1;
      }
    }

    // -------------------------------------------------------------------------
    // The services
    // -------------------------------------------------------------------------

    /** The token pair that ends a registration, a login or a rotation, and its audit entry; the
        commit, or the rollback when the token is taken. */
    method IssueAndCommit(user: Uuid, next: Token, later: int, why: Action) returns (r: Reply)
      modifies this
      ensures Clean()
      ensures next !in old(refreshTokens) ==> (committed, r) == Issue(old(Seen()), user, next, later, why)
      ensures next in old(refreshTokens) ==> committed == old(committed) && r == Failed
    {
      var ok := CreateRefreshToken(user, next, later + REFRESH_LIFETIME);
      if !ok {
        Rollback();
        return Failed;
      }
      LogEntry(why, Some(user));
      Commit();
      r := Issued(user, next);
    }

    /** `register_user`. */
    method RegisterUser(email: string, password: string, id: Uuid, next: Token, now: int, later: int) returns (r: Reply)
      requires Clean()
      modifies this
      ensures Clean()
      ensures (committed, r) == Serve(old(committed), Event(Register(email, password, id, next), now, later))
    {
      var existing := FindEmail(users, email);
      if existing.Some? { return Rejected; }
      var taken := FindUser(users, id);
      if taken.Some? { return Failed; }
      users := users + [User(id, email, password, true)];
      r := IssueAndCommit(id, next, later, UserRegistered);
    }

    /** `login_user`. */
    method LoginUser(email: string, password: string, next: Token, now: int, later: int) returns (r: Reply)
      requires Clean()
      modifies this
      ensures Clean()
      ensures (committed, r) == Serve(old(committed), Event(Login(email, password, next), now, later))
    {
      var user := FindEmail(users, email);
      if user.None? {
        LogEntry(LoginFailed, None);
        Commit();
        return Rejected;
      }
      if user.value.password != password {
        LogEntry(LoginFailed, Some(user.value.id));
        Commit();
        return Rejected;
      }
      if !user.value.active { return Rejected; }
      r := IssueAndCommit(user.value.id, next, later, LoginSuccess);
    }

    /** `refresh_tokens`: the old token is revoked before the new one is issued. */
    method RefreshTokens(token: Token, next: Token, now: int, later: int) returns (r: Reply)
      requires Clean()
      modifies this
      ensures Clean()
      ensures (committed, r) == Serve(old(committed), Event(Refresh(token, next), now, later))
    {
      var stored := GetByHash(token);
      if stored.None? || stored.value.revoked { return Rejected; }
      if stored.value.expiresAt < now { return Rejected; }
      RevokeToken(token);
      r := IssueAndCommit(stored.value.user, next, later, TokenRefreshed);
    }

    /** `logout_user`: whoever asks, and as often as they ask. */
    method LogoutUser(token: Token, user: Uuid, now: int, later: int) returns (r: Reply)
      requires Clean()
      modifies this
      ensures Clean()
      ensures (committed, r) == Serve(old(committed), Event(Logout(token, user), now, later))
    {
      var stored := GetByHash(token);
      if stored.Some? && !stored.value.revoked { RevokeToken(token); }
      assert stored.Some? && stored.value.revoked ==> stored.value == stored.value.(revoked := true);
      assert refreshTokens == Serve(old(committed), Event(Logout(token, user), now, later)).0.refresh;
      LogEntry(LoggedOut, Some(user));
      Commit();
      r := Done;
    }

    /** `request_password_reset`: the answer is the same for an unknown address. */
    method RequestPasswordReset(email: string, next: Token, now: int, later: int) returns (r: Reply)
      requires Clean()
      modifies this
      ensures Clean()
      ensures (committed, r) == Serve(old(committed), Event(RequestReset(email, next), now, later))
    {
      var user := FindEmail(users, email);
      if user.None? { return Done; }
      if next in resetTokens { return Failed; }
      resetTokens := resetTokens[next := ResetToken(user.value.id, later + RESET_LIFETIME, false)];
      LogEntry(ResetRequested, Some(user.value.id));
      Commit();
      r := Done;
    }

    /** `confirm_password_reset`. */
    method ConfirmPasswordReset(token: Token, password: string, now: int, later: int) returns (r: Reply)
      requires Clean()
      modifies this
      ensures Clean()
      ensures (committed, r) == Serve(old(committed), Event(ConfirmReset(token, password), now, later))
    {
      if token !in resetTokens || resetTokens[token].used { return Rejected; }
      var stored := resetTokens[token];
      if stored.expiresAt < now { return Rejected; }
      var user := FindUser(users, stored.user);
      if user.None? { return Rejected; }
      UpdatePassword(stored.user, password);
      resetTokens := resetTokens[token := stored.(used := true)];
      LogEntry(ResetCompleted, Some(stored.user));
      Commit();
      r := Done;
    }

    /** The scheduled clean-up task. */
    method CleanupExpiredRefreshTokens(now: int, later: int) returns (count: nat)
      requires Clean()
      modifies this
      ensures Clean()
      ensures committed == Serve(old(committed), Event(Cleanup, now, later)).0
      ensures count == |set t | t in old(committed).refresh && old(committed).refresh[t].expiresAt < now|
    {
      count := DeleteExpired(now);
      assert refreshTokens == Unexpired(old(refreshTokens), now);
      Commit();
    }
  }

  lemma DeletedAreTheRest(tokens: map<Token, RefreshToken>, now: int)
    ensures |tokens| - |Unexpired(tokens, now)| == |set t | t in tokens && tokens[t].expiresAt < now|
  {
    var kept, gone := Unexpired(tokens, now).Keys, set t | t in tokens && tokens[t].expiresAt < now;
    assert tokens.Keys == kept + gone && kept !! gone;
    assert |tokens| == |tokens.Keys| && |Unexpired(tokens, now)| == |kept|;
  }
}
