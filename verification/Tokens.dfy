/** Refresh tokens and password-reset tokens, one request at a time: what each request does to the
    stored tokens, and what that means over whole histories. Hashes are collision-free, so a token
    stands for its own hash; times are in microseconds. */
module Tokens {
  import opened Wrappers
  import opened Ledger

  type Token = string

  const REFRESH_LIFETIME: int := 30 * 24 * 3600 * 1_000_000
  const RESET_LIFETIME: int := 15 * 60 * 1_000_000

  datatype User = User(id: Uuid, email: string, password: string, active: bool)
  datatype RefreshToken = RefreshToken(user: Uuid, expiresAt: int, revoked: bool)
  datatype ResetToken = ResetToken(user: Uuid, expiresAt: int, used: bool)

  /** The entries the authentication services write to the audit log. */
  datatype Action =
    | UserRegistered | LoginSuccess | LoginFailed | TokenRefreshed | LoggedOut | ResetRequested | ResetCompleted

  datatype Entry = Entry(action: Action, user: Option<Uuid>)

  datatype Store = Store(users: seq<User>, refresh: map<Token, RefreshToken>, resets: map<Token, ResetToken>,
                         audit: seq<Entry>)

  /** The requests, each with the random token it draws, and the clean-up task. */
  datatype Call =
    | Register(email: string, password: string, newUser: Uuid, next: Token)
    | Login(email: string, password: string, next: Token)
    | Refresh(token: Token, next: Token)
    | Logout(token: Token, user: Uuid)
    | RequestReset(email: string, next: Token)
    | ConfirmReset(token: Token, password: string)
    | Cleanup

  /** A request with the clock's readings: the first, and a later one for the expiry of what it creates. */
  datatype Event = Event(call: Call, now: int, later: int)

  datatype Reply =
    | Issued(user: Uuid, token: Token)
    | Done
    | Rejected   // InvalidCredentialsError
    | Failed     // unique constraint

  function FindEmail(users: seq<User>, email: string): (r: Option<User>)
    ensures r.Some? ==> r.value in users && r.value.email == email
    ensures r.None? ==> forall u :: u in users ==> u.email != email
  {
    if |users| == 0 then None
    else if users[0].email == email then Some(users[0])
    else FindEmail(users[1..], email)
  }

  function FindUser(users: seq<User>, id: Uuid): (r: Option<User>)
    ensures r.Some? ==> r.value in users && r.value.id == id
    ensures r.None? ==> forall u :: u in users ==> u.id != id
  {
    if |users| == 0 then None
    else if users[0].id == id then Some(users[0])
    else FindUser(users[1..], id)
  }

  function SetPassword(users: seq<User>, id: Uuid, password: string): seq<User>
  {
    seq(|users|, i requires 0 <= i < |users| => if users[i].id == id then users[i].(password := password) else users[i])
  }

  function Unexpired(tokens: map<Token, RefreshToken>, now: int): map<Token, RefreshToken>
  {
    map t | t in tokens && tokens[t].expiresAt >= now :: tokens[t]
  }

  // ---------------------------------------------------------------------------
  // One request
  // ---------------------------------------------------------------------------

  function Log(s: Store, action: Action, user: Option<Uuid>): Store
  {
    s.(audit := s.audit + [Entry(action, user)])
  }

  /** Stores a new refresh token for a user and logs why. */
  function Issue(s: Store, user: Uuid, next: Token, at: int, why: Action): (Store, Reply)
  {
    if next in s.refresh then (s, Failed)
    else
      var issued := s.(refresh := s.refresh[next := RefreshToken(user, at + REFRESH_LIFETIME, false)]);
      (Log(issued, why, Some(user)), Issued(user, next))
  }

  function Revoke(s: Store, t: Token): Store
    requires t in s.refresh
  {
    s.(refresh := s.refresh[t := s.refresh[t].(revoked := true)])
  }

  /** The stored token can be rotated. */
  predicate Usable(s: Store, t: Token, now: int)
  {
    t in s.refresh && !s.refresh[t].revoked && s.refresh[t].expiresAt >= now
  }

  predicate ResetUsable(s: Store, t: Token, now: int)
  {
    && t in s.resets && !s.resets[t].used && s.resets[t].expiresAt >= now
    && FindUser(s.users, s.resets[t].user).Some?
  }

  /** The whole request as one action, as its commit or rollback leaves it. */
  function Serve(s: Store, e: Event): (Store, Reply)
  {
    match e.call
    case Register(email, password, id, next) =>
      if FindEmail(s.users, email).Some? then (s, Rejected)
      else if FindUser(s.users, id).Some? || next in s.refresh then (s, Failed)
      else Issue(s.(users := s.users + [User(id, email, password, true)]), id, next, e.later, UserRegistered)
    case Login(email, password, next) =>
      var found := FindEmail(s.users, email);
      if found.None? then (Log(s, LoginFailed, None), Rejected)
      else if found.value.password != password then (Log(s, LoginFailed, Some(found.value.id)), Rejected)
      else if !found.value.active then (s, Rejected)
      else Issue(s, found.value.id, next, e.later, LoginSuccess)
    case Refresh(t, next) =>
      if !Usable(s, t, e.now) then (s, Rejected)
      else if next in s.refresh then (s, Failed)
      else Issue(Revoke(s, t), s.refresh[t].user, next, e.later, TokenRefreshed)
    case Logout(t, user) => (Log(if t in s.refresh then Revoke(s, t) else s, LoggedOut, Some(user)), Done)
    case RequestReset(email, next) =>
      var found := FindEmail(s.users, email);
      if found.None? then (s, Done)
      else if next in s.resets then (s, Failed)
      else
        var requested := s.(resets := s.resets[next := ResetToken(found.value.id, e.later + RESET_LIFETIME, false)]);
        (Log(requested, ResetRequested, Some(found.value.id)), Done)
    case ConfirmReset(t, password) =>
      if !ResetUsable(s, t, e.now) then (s, Rejected)
      else
        var reset := s.(users := SetPassword(s.users, s.resets[t].user, password),
                        resets := s.resets[t := s.resets[t].(used := true)]);
        (Log(reset, ResetCompleted, Some(s.resets[t].user)), Done)
    case Cleanup => (s.(refresh := Unexpired(s.refresh, e.now)), Done)
  }

  // ---------------------------------------------------------------------------
  // Serial histories
  // ---------------------------------------------------------------------------

  function After(s: Store, events: seq<Event>): Store
  {
    if |events| == 0 then s else Serve(After(s, events[..|events| - 1]), events[|events| - 1]).0
  }

  function ReplyTo(s: Store, events: seq<Event>, i: nat): Reply
    requires i < |events|
  {
    Serve(After(s, events[..i]), events[i]).1
  }

  /** The clock never goes back. */
  predicate Clocked(from: int, events: seq<Event>)
  {
    if |events| == 0 then true
    else
      var front, last := events[..|events| - 1], events[|events| - 1];
      Clocked(from, front) && Clock(from, front) <= last.now <= last.later
  }

  function Clock(from: int, events: seq<Event>): int
  {
    if |events| == 0 then from else events[|events| - 1].later
  }

  /** The tokens a call draws. */
  function Drawn(c: Call): set<Token>
  {
    match c
    case Register(_, _, _, next) => {next}
    case Login(_, _, next) => {next}
    case Refresh(_, next) => {next}
    case RequestReset(_, next) => {next}
    case _ => {}
  }

  function DrawnBy(events: seq<Event>): set<Token>
  {
    if |events| == 0 then {} else DrawnBy(events[..|events| - 1]) + Drawn(events[|events| - 1].call)
  }

  /** No random token was ever drawn before, nor is one of the tokens already stored. */
  predicate AllFresh(stored: set<Token>, events: seq<Event>)
  {
    if |events| == 0 then true
    else
      var front, last := events[..|events| - 1], events[|events| - 1];
      AllFresh(stored, front) && Drawn(last.call) !! stored + DrawnBy(front)
  }

  function Stored(s: Store): set<Token>
  {
    s.refresh.Keys + s.resets.Keys
  }

  lemma {:induction false} OnlyDrawnAreStored(s: Store, events: seq<Event>)
    ensures Stored(After(s, events)) <= Stored(s) + DrawnBy(events)
  {
    if |events| > 0 {
      var front, last := events[..|events| - 1], events[|events| - 1];
      OnlyDrawnAreStored(s, front);
      StoresOnlyDrawn(After(s, front), last);
    }
  }

  lemma AfterNext(s: Store, events: seq<Event>, i: nat)
    requires i < |events|
    ensures After(s, events[..i + 1]) == Serve(After(s, events[..i]), events[i]).0
  {
    assert events[..i + 1][..i] == events[..i];
  }

  lemma StoresOnlyDrawn(s: Store, e: Event)
    ensures Stored(Serve(s, e).0) <= Stored(s) + Drawn(e.call)
  {
  }

  /** The next request's tokens are in no table. */
  lemma NextIsFresh(s: Store, events: seq<Event>)
    requires |events| > 0 && AllFresh(Stored(s), events)
    ensures Drawn(events[|events| - 1].call) !! Stored(After(s, events[..|events| - 1]))
  {
    OnlyDrawnAreStored(s, events[..|events| - 1]);
  }

  // ---------------------------------------------------------------------------
  // Clean-up is invisible
  // ---------------------------------------------------------------------------

  /** t is s without some refresh tokens that had expired before the clock's reading. */
  ghost predicate Shadows(s: Store, t: Store, clock: int)
  {
    && s.users == t.users && s.resets == t.resets && s.audit == t.audit
    && (forall k :: k in t.refresh ==> k in s.refresh && s.refresh[k] == t.refresh[k])
    && (forall k :: k in s.refresh && k !in t.refresh ==> s.refresh[k].expiresAt < clock)
  }

  lemma IssueAlike(s: Store, t: Store, clock: int, user: Uuid, next: Token, at: int, why: Action)
    requires Shadows(s, t, clock) && next !in s.refresh
    ensures Issue(s, user, next, at, why).1 == Issue(t, user, next, at, why).1
    ensures Shadows(Issue(s, user, next, at, why).0, Issue(t, user, next, at, why).0, clock)
  {
  }

  lemma RevokeAlike(s: Store, t: Store, clock: int, k: Token)
    requires Shadows(s, t, clock) && k in s.refresh
    ensures Shadows(Revoke(s, k), if k in t.refresh then Revoke(t, k) else t, clock)
  {
  }

  lemma RefreshAlike(s: Store, t: Store, clock: int, e: Event)
    requires Shadows(s, t, clock) && clock <= e.now <= e.later && e.call.Refresh? && e.call.next !in s.refresh
    ensures Serve(s, e).1 == Serve(t, e).1
    ensures Shadows(Serve(s, e).0, Serve(t, e).0, clock)
  {
    var k := e.call.token;
    assert Usable(s, k, e.now) == Usable(t, k, e.now);
    if Usable(s, k, e.now) {
      RevokeAlike(s, t, clock, k);
      IssueAlike(Revoke(s, k), Revoke(t, k), clock, s.refresh[k].user, e.call.next, e.later, TokenRefreshed);
    }
  }

  lemma RegisterAlike(s: Store, t: Store, clock: int, e: Event)
    requires Shadows(s, t, clock) && clock <= e.now <= e.later && Drawn(e.call) !! Stored(s) && e.call.Register?
    ensures Serve(s, e).1 == Serve(t, e).1 && Shadows(Serve(s, e).0, Serve(t, e).0, e.later)
  {
    var added := s.users + [User(e.call.newUser, e.call.email, e.call.password, true)];
    IssueAlike(s.(users := added), t.(users := added), clock, e.call.newUser, e.call.next, e.later, UserRegistered);
  }

  lemma LoginAlike(s: Store, t: Store, clock: int, e: Event)
    requires Shadows(s, t, clock) && clock <= e.now <= e.later && Drawn(e.call) !! Stored(s) && e.call.Login?
    ensures Serve(s, e).1 == Serve(t, e).1 && Shadows(Serve(s, e).0, Serve(t, e).0, e.later)
  {
    if FindEmail(s.users, e.call.email).Some? {
      IssueAlike(s, t, clock, FindEmail(s.users, e.call.email).value.id, e.call.next, e.later, LoginSuccess);
    }
  }

  lemma LogoutAlike(s: Store, t: Store, clock: int, e: Event)
    requires Shadows(s, t, clock) && clock <= e.now <= e.later && Drawn(e.call) !! Stored(s) && e.call.Logout?
    ensures Serve(s, e).1 == Serve(t, e).1 && Shadows(Serve(s, e).0, Serve(t, e).0, e.later)
  {
    if e.call.token in s.refresh { RevokeAlike(s, t, clock, e.call.token); }
  }

  lemma ResetsAlike(s: Store, t: Store, clock: int, e: Event)
    requires Shadows(s, t, clock) && clock <= e.now <= e.later && Drawn(e.call) !! Stored(s)
    requires e.call.RequestReset? || e.call.ConfirmReset?
    ensures Serve(s, e).1 == Serve(t, e).1 && Shadows(Serve(s, e).0, Serve(t, e).0, e.later)
  {
  }

  /** The two stores answer every request alike, and stay so related. */
  lemma ServeAlike(s: Store, t: Store, clock: int, e: Event)
    requires Shadows(s, t, clock) && clock <= e.now <= e.later
    requires Drawn(e.call) !! Stored(s)
    requires !e.call.Cleanup?
    ensures Serve(s, e).1 == Serve(t, e).1
    ensures Shadows(Serve(s, e).0, Serve(t, e).0, e.later)
  {
    match e.call
    case Register(_, _, _, _) => RegisterAlike(s, t, clock, e);
    case Login(_, _, _) => LoginAlike(s, t, clock, e);
    case Refresh(_, _) => RefreshAlike(s, t, clock, e);
    case Logout(_, _) => LogoutAlike(s, t, clock, e);
    case RequestReset(_, _) => ResetsAlike(s, t, clock, e);
    case ConfirmReset(_, _) => ResetsAlike(s, t, clock, e);
  }

  lemma CleanupShadows(s: Store, t: Store, clock: int, e: Event)
    requires Shadows(s, t, clock) && clock <= e.now <= e.later && e.call.Cleanup?
    ensures Shadows(s, Serve(t, e).0, e.later)
  {
  }

  function WithoutCleanup(events: seq<Event>): seq<Event>
  {
    if |events| == 0 then []
    else
      WithoutCleanup(events[..|events| - 1])
      + if events[|events| - 1].call.Cleanup? then [] else [events[|events| - 1]]
  }

  /** The replies to everything but clean-ups, in order. */
  function ClientReplies(s: Store, events: seq<Event>): seq<Reply>
  {
    if |events| == 0 then []
    else
      var front, last := events[..|events| - 1], events[|events| - 1];
      ClientReplies(s, front) + if last.call.Cleanup? then [] else [Serve(After(s, front), last).1]
  }

  lemma {:induction false} CleanupDrawsNothing(events: seq<Event>)
    ensures DrawnBy(WithoutCleanup(events)) == DrawnBy(events)
  {
    if |events| > 0 {
      var front, last := events[..|events| - 1], events[|events| - 1];
      CleanupDrawsNothing(front);
      if last.call.Cleanup? {
        assert WithoutCleanup(events) == WithoutCleanup(front);
      } else {
        assert WithoutCleanup(events)[..|WithoutCleanup(front)|] == WithoutCleanup(front);
      }
    }
  }

  lemma Appended(s: Store, events: seq<Event>, e: Event)
    ensures After(s, events + [e]) == Serve(After(s, events), e).0
    ensures ClientReplies(s, events + [e])
         == ClientReplies(s, events) + if e.call.Cleanup? then [] else [Serve(After(s, events), e).1]
  {
    assert (events + [e])[..|events|] == events;
  }

  lemma ClientStep(s: Store, from: int, front: seq<Event>, e: Event)
    requires Clock(from, front) <= e.now <= e.later && !e.call.Cleanup?
    requires Drawn(e.call) !! Stored(s) + DrawnBy(front)
    requires Shadows(After(s, WithoutCleanup(front)), After(s, front), Clock(from, front))
    requires ClientReplies(s, front) == ClientReplies(s, WithoutCleanup(front))
    ensures ClientReplies(s, front + [e]) == ClientReplies(s, WithoutCleanup(front) + [e])
    ensures Shadows(After(s, WithoutCleanup(front) + [e]), After(s, front + [e]), e.later)
  {
    var plain := WithoutCleanup(front);
    OnlyDrawnAreStored(s, plain);
    CleanupDrawsNothing(front);
    ServeAlike(After(s, plain), After(s, front), Clock(from, front), e);
    Appended(s, plain, e);
    Appended(s, front, e);
  }

  lemma CleanupStep(s: Store, from: int, front: seq<Event>, e: Event)
    requires Clock(from, front) <= e.now <= e.later && e.call.Cleanup?
    requires Shadows(After(s, WithoutCleanup(front)), After(s, front), Clock(from, front))
    ensures ClientReplies(s, front + [e]) == ClientReplies(s, front)
    ensures Shadows(After(s, WithoutCleanup(front)), After(s, front + [e]), e.later)
  {
    CleanupShadows(After(s, WithoutCleanup(front)), After(s, front), Clock(from, front), e);
    Appended(s, front, e);
  }

  lemma WithoutLast(front: seq<Event>, e: Event)
    ensures WithoutCleanup(front + [e]) == WithoutCleanup(front) + if e.call.Cleanup? then [] else [e]
  {
    assert (front + [e])[..|front|] == front;
  }

  lemma InvisibleNext(s: Store, from: int, front: seq<Event>, e: Event)
    requires Clock(from, front) <= e.now <= e.later && Drawn(e.call) !! Stored(s) + DrawnBy(front)
    requires Shadows(After(s, WithoutCleanup(front)), After(s, front), Clock(from, front))
    requires ClientReplies(s, front) == ClientReplies(s, WithoutCleanup(front))
    ensures ClientReplies(s, front + [e]) == ClientReplies(s, WithoutCleanup(front + [e]))
    ensures Shadows(After(s, WithoutCleanup(front + [e])), After(s, front + [e]), e.later)
  {
    WithoutLast(front, e);
    if e.call.Cleanup? {
      CleanupStep(s, from, front, e);
      assert WithoutCleanup(front) + [] == WithoutCleanup(front);
    } else {
      ClientStep(s, from, front, e);
    }
  }

  /** Clean-ups at any moments of any history change no reply. */
  lemma {:induction false} CleanupIsInvisible(s: Store, from: int, events: seq<Event>)
    requires Clocked(from, events) && AllFresh(Stored(s), events)
    ensures ClientReplies(s, events) == ClientReplies(s, WithoutCleanup(events))
    ensures Shadows(After(s, WithoutCleanup(events)), After(s, events), Clock(from, events))
  {
    if |events| > 0 {
      var front, last := events[..|events| - 1], events[|events| - 1];
      CleanupIsInvisible(s, from, front);
      InvisibleNext(s, from, front, last);
      assert events == front + [last];
    }
  }

  /** So when and how often clean-up runs is invisible: two histories of the same requests get the
      same replies. */
  lemma CleanupTimesDoNotMatter(s: Store, from: int, one: seq<Event>, two: seq<Event>)
    requires Clocked(from, one) && AllFresh(Stored(s), one)
    requires Clocked(from, two) && AllFresh(Stored(s), two)
    requires WithoutCleanup(one) == WithoutCleanup(two)
    ensures ClientReplies(s, one) == ClientReplies(s, two)
  {
    CleanupIsInvisible(s, from, one);
    CleanupIsInvisible(s, from, two);
  }

  // ---------------------------------------------------------------------------
  // When a refresh token is accepted, told from the history alone
  // ---------------------------------------------------------------------------

  /** A refresh token as the history tells it: issued to whom, until when, and whether it was
      rotated or logged out since. */
  datatype Tale = Tale(user: Uuid, expiresAt: int, ended: bool)

  predicate Ends(e: Event, reply: Reply, t: Token)
  {
    (e.call.Logout? && e.call.token == t) || (e.call.Refresh? && e.call.token == t && reply.Issued?)
  }

  /** From the requests and their replies; clean-ups play no part. */
  function TaleOf(s: Store, events: seq<Event>, t: Token): Option<Tale>
  {
    if |events| == 0 then None
    else
      var front, last := events[..|events| - 1], events[|events| - 1];
      var before, reply := TaleOf(s, front, t), ReplyTo(s, events, |events| - 1);
      if reply.Issued? && reply.token == t then Some(Tale(reply.user, last.later + REFRESH_LIFETIME, false))
      else if before.Some? && Ends(last, reply, t) then Some(before.value.(ended := true))
      else before
  }

  /** The table says of a token what the history says, unless it has been cleaned up. */
  ghost predicate TellsTrue(s: Store, t: Token, tale: Option<Tale>, clock: int)
  {
    match tale
    case None => t !in s.refresh
    case Some(k) =>
      if t in s.refresh then s.refresh[t] == RefreshToken(k.user, k.expiresAt, k.ended) else k.expiresAt < clock
  }

  lemma {:induction false} HistoryTellsTrue(s: Store, from: int, events: seq<Event>, t: Token)
    requires s.refresh == map[] && Clocked(from, events) && AllFresh(Stored(s), events)
    ensures TellsTrue(After(s, events), t, TaleOf(s, events, t), Clock(from, events))
  {
    if |events| > 0 {
      var front, last := events[..|events| - 1], events[|events| - 1];
      HistoryTellsTrue(s, from, front, t);
      NextIsFresh(s, events);
      StepTellsTrue(After(s, front), t, TaleOf(s, front, t), Clock(from, front), last);
      assert events[..|events| - 1] == front;
    }
  }

  lemma StepTellsTrue(s: Store, t: Token, tale: Option<Tale>, clock: int, e: Event)
    requires TellsTrue(s, t, tale, clock) && clock <= e.now <= e.later && Drawn(e.call) !! Stored(s)
    ensures var reply := Serve(s, e).1;
            TellsTrue(Serve(s, e).0, t,
                      if reply.Issued? && reply.token == t
                      then Some(Tale(reply.user, e.later + REFRESH_LIFETIME, false))
                      else if tale.Some? && Ends(e, reply, t) then Some(tale.value.(ended := true)) else tale,
                      e.later)
  {
  }

  /** A refresh is accepted exactly when its token was issued, has since been neither rotated nor
      logged out, and has not expired; whatever was cleaned up. The new token goes to the user the
      old one was issued to. */
  lemma AcceptedExactly(s: Store, from: int, events: seq<Event>, t: Token, next: Token, now: int, later: int)
    requires s.refresh == map[] && Clocked(from, events) && AllFresh(Stored(s), events)
    requires Clock(from, events) <= now <= later && next !in Stored(s) + DrawnBy(events)
    ensures var tale := TaleOf(s, events, t);
            var reply := Serve(After(s, events), Event(Refresh(t, next), now, later)).1;
            && (reply.Issued? <==> tale.Some? && !tale.value.ended && tale.value.expiresAt >= now)
            && (reply.Issued? ==> reply == Issued(tale.value.user, next))
            && (!reply.Issued? ==> reply == Rejected)
  {
    HistoryTellsTrue(s, from, events, t);
    OnlyDrawnAreStored(s, events);
  }

  // ---------------------------------------------------------------------------
  // Ended tokens stay ended
  // ---------------------------------------------------------------------------

  /** The token is known, and will never be accepted: it is revoked, or no longer stored. */
  predicate Spent(s: Store, t: Token)
  {
    t in s.refresh ==> s.refresh[t].revoked
  }

  lemma SpentStays(s: Store, e: Event, t: Token)
    requires Spent(s, t) && t !in Drawn(e.call)
    ensures Spent(Serve(s, e).0, t)
    ensures e.call.Refresh? && e.call.token == t ==> Serve(s, e).1 == Rejected
  {
  }

  lemma {:induction false} PrefixFresh(stored: set<Token>, events: seq<Event>, n: nat)
    requires AllFresh(stored, events) && n <= |events|
    ensures AllFresh(stored, events[..n])
    ensures forall i :: n <= i < |events| ==> Drawn(events[i].call) !! stored + DrawnBy(events[..n])
    decreases |events|
  {
    if n == |events| {
      assert events[..n] == events;
    } else {
      var front := events[..|events| - 1];
      PrefixFresh(stored, front, n);
      assert front[..n] == events[..n];
      DrawnGrows(front, n);
      forall i | n <= i < |events|
        ensures Drawn(events[i].call) !! stored + DrawnBy(events[..n])
      {
        if i < |events| - 1 { assert front[i] == events[i]; }
      }
    }
  }

  lemma {:induction false} DrawnGrows(events: seq<Event>, n: nat)
    requires n <= |events|
    ensures DrawnBy(events[..n]) <= DrawnBy(events)
    decreases |events|
  {
    if n == |events| {
      assert events[..n] == events;
    } else {
      DrawnGrows(events[..|events| - 1], n);
      assert events[..|events| - 1][..n] == events[..n];
    }
  }

  lemma SpentNext(s: Store, events: seq<Event>, n: nat, t: Token)
    requires n < |events| && Spent(After(s, events[..n]), t) && t !in Drawn(events[n].call)
    ensures Spent(After(s, events[..n + 1]), t)
  {
    SpentStays(After(s, events[..n]), events[n], t);
    AfterNext(s, events, n);
  }

  /** From a moment when a token is spent, and can no longer be drawn, it stays spent. */
  lemma {:induction false} SpentForever(s: Store, events: seq<Event>, i: nat, n: nat, t: Token)
    requires i <= n <= |events| && Spent(After(s, events[..i]), t)
    requires forall k :: i <= k < n ==> t !in Drawn(events[k].call)
    ensures Spent(After(s, events[..n]), t)
    decreases n
  {
    if i < n {
      SpentForever(s, events, i, n - 1, t);
      SpentNext(s, events, n - 1, t);
    }
  }

  /** A token that was stored when a request ended it: an accepted rotation, or a logout. */
  lemma EndingSpends(s: Store, e: Event, t: Token)
    requires t in s.refresh && Ends(e, Serve(s, e).1, t) && Drawn(e.call) !! Stored(s)
    ensures Spent(Serve(s, e).0, t)
  {
  }

  /** Once rotated, or once logged out after it was issued, a token is never accepted again: so
      each token has at most one successor. */
  lemma NeverAcceptedAgain(s: Store, events: seq<Event>, i: nat, j: nat, t: Token)
    requires AllFresh(Stored(s), events) && i < j < |events|
    requires t in After(s, events[..i]).refresh && Ends(events[i], ReplyTo(s, events, i), t)
    requires events[j].call.Refresh? && events[j].call.token == t
    ensures ReplyTo(s, events, j) == Rejected
  {
    PrefixFresh(Stored(s), events, i);
    OnlyDrawnAreStored(s, events[..i]);
    EndingSpends(After(s, events[..i]), events[i], t);
    AfterNext(s, events, i);
    SpentForever(s, events, i + 1, j, t);
    SpentStays(After(s, events[..j]), events[j], t);
  }

  // ---------------------------------------------------------------------------
  // Rotation chains
  // ---------------------------------------------------------------------------

  /** Puts a token's successor behind it. */
  function Extend(chains: seq<seq<Token>>, t: Token, next: Token): seq<seq<Token>>
  {
    seq(|chains|, c requires 0 <= c < |chains| =>
      if |chains[c]| > 0 && chains[c][|chains[c]| - 1] == t then chains[c] + [next] else chains[c])
  }

  function Linked(chains: seq<seq<Token>>, e: Event, reply: Reply): seq<seq<Token>>
  {
    if !reply.Issued? then chains
    else if e.call.Refresh? then Extend(chains, e.call.token, reply.token)
    else chains + [[reply.token]]
  }

  /** The chains of a history: each login or registration starts one, each rotation extends one. */
  function Chains(s: Store, events: seq<Event>): seq<seq<Token>>
  {
    if |events| == 0 then []
    else Linked(Chains(s, events[..|events| - 1]), events[|events| - 1], ReplyTo(s, events, |events| - 1))
  }

  predicate IsLast(chain: seq<Token>, t: Token)
  {
    |chain| > 0 && chain[|chain| - 1] == t
  }

  /** Every token of the chains was drawn, and stands in one place only. */
  ghost predicate Distinct(chains: seq<seq<Token>>, drawn: set<Token>)
  {
    && (forall c, p :: 0 <= c < |chains| && 0 <= p < |chains[c]| ==> chains[c][p] in drawn)
    && (forall c, p, d, q :: 0 <= c < |chains| && 0 <= p < |chains[c]| && 0 <= d < |chains| && 0 <= q < |chains[d]| ==>
          chains[c][p] == chains[d][q] ==> c == d && p == q)
  }

  /** Every live token ends a chain; every other token of a chain is spent. */
  ghost predicate LiveAtEnds(s: Store, chains: seq<seq<Token>>)
  {
    && (forall t :: t in s.refresh && !s.refresh[t].revoked ==> exists c :: 0 <= c < |chains| && IsLast(chains[c], t))
    && (forall c, p :: 0 <= c < |chains| && 0 <= p < |chains[c]| - 1 ==> Spent(s, chains[c][p]))
  }

  lemma LinkedDistinct(chains: seq<seq<Token>>, drawn: set<Token>, e: Event, reply: Reply)
    requires Distinct(chains, drawn) && (reply.Issued? ==> reply.token !in drawn)
    ensures Distinct(Linked(chains, e, reply), drawn + if reply.Issued? then {reply.token} else {})
  {
  }

  lemma LinkedCovers(s: Store, chains: seq<seq<Token>>, e: Event, t: Token)
    requires LiveAtEnds(s, chains) && Drawn(e.call) !! Stored(s)
    requires t in Serve(s, e).0.refresh && !Serve(s, e).0.refresh[t].revoked
    ensures var linked := Linked(chains, e, Serve(s, e).1); exists c :: 0 <= c < |linked| && IsLast(linked[c], t)
  {
    var reply := Serve(s, e).1;
    var linked := Linked(chains, e, reply);
    if reply.Issued? && t == reply.token && !e.call.Refresh? {
      assert IsLast(linked[|chains|], t);
    } else {
      var u := if reply.Issued? && t == reply.token then e.call.token else t;
      assert u in s.refresh && !s.refresh[u].revoked;
      var c :| 0 <= c < |chains| && IsLast(chains[c], u);
      assert IsLast(linked[c], t);
    }
  }

  /** What a request accepts to rotate is spent afterwards. */
  lemma RotatedIsSpent(s: Store, e: Event)
    requires e.call.Refresh? && Drawn(e.call) !! Stored(s) && Serve(s, e).1.Issued?
    ensures Spent(Serve(s, e).0, e.call.token)
  {
  }

  lemma LinkedSpends(s: Store, chains: seq<seq<Token>>, drawn: set<Token>, e: Event, c: nat, p: nat)
    requires Distinct(chains, drawn) && LiveAtEnds(s, chains) && Drawn(e.call) !! drawn && Drawn(e.call) !! Stored(s)
    requires var linked := Linked(chains, e, Serve(s, e).1); c < |linked| && p < |linked[c]| - 1
    ensures Spent(Serve(s, e).0, Linked(chains, e, Serve(s, e).1)[c][p])
  {
    var t := chains[c][p];
    assert t in drawn;
    if p < |chains[c]| - 1 {
      SpentStays(s, e, t);
    } else {
      RotatedIsSpent(s, e);
    }
  }

  lemma LinkedLive(s: Store, chains: seq<seq<Token>>, drawn: set<Token>, e: Event)
    requires Distinct(chains, drawn) && LiveAtEnds(s, chains) && Drawn(e.call) !! drawn && Drawn(e.call) !! Stored(s)
    ensures LiveAtEnds(Serve(s, e).0, Linked(chains, e, Serve(s, e).1))
  {
    var after, linked := Serve(s, e).0, Linked(chains, e, Serve(s, e).1);
    forall t | t in after.refresh && !after.refresh[t].revoked
      ensures exists c :: 0 <= c < |linked| && IsLast(linked[c], t)
    {
      LinkedCovers(s, chains, e, t);
    }
    forall c, p | 0 <= c < |linked| && 0 <= p < |linked[c]| - 1
      ensures Spent(after, linked[c][p])
    {
      LinkedSpends(s, chains, drawn, e, c, p);
    }
  }

  lemma IssuedIsDrawn(s: Store, e: Event)
    ensures Serve(s, e).1.Issued? ==> Drawn(e.call) == {Serve(s, e).1.token}
  {
  }

  /** In every serial history: the chains' tokens are all different, and in each chain every token
      but the last is revoked or gone, so at most one is live. */
  lemma {:induction false} OneLivePerChain(s: Store, events: seq<Event>)
    requires s.refresh == map[] && AllFresh(Stored(s), events)
    ensures Distinct(Chains(s, events), DrawnBy(events))
    ensures LiveAtEnds(After(s, events), Chains(s, events))
  {
    if |events| > 0 {
      var front, last := events[..|events| - 1], events[|events| - 1];
      OneLivePerChain(s, front);
      NextIsFresh(s, events);
      var before := After(s, front);
      IssuedIsDrawn(before, last);
      LinkedDistinct(Chains(s, front), DrawnBy(front), last, Serve(before, last).1);
      LinkedLive(before, Chains(s, front), DrawnBy(front), last);
    }
  }

  /** Two live tokens never share a chain. */
  lemma LiveTokensAreApart(s: Store, events: seq<Event>, t: Token, u: Token, c: nat, p: nat, q: nat)
    requires s.refresh == map[] && AllFresh(Stored(s), events)
    requires c < |Chains(s, events)| && p < |Chains(s, events)[c]| && q < |Chains(s, events)[c]|
    requires Chains(s, events)[c][p] == t && Chains(s, events)[c][q] == u
    requires !Spent(After(s, events), t) && !Spent(After(s, events), u)
    ensures t == u
  {
    OneLivePerChain(s, events);
  }

  // ---------------------------------------------------------------------------
  // Reset tokens
  // ---------------------------------------------------------------------------

  /** A used reset token stays used, and is refused. */
  lemma UsedStays(s: Store, e: Event, t: Token)
    requires t in s.resets && s.resets[t].used
    ensures t in Serve(s, e).0.resets && (t !in Drawn(e.call) ==> Serve(s, e).0.resets[t].used)
    ensures e.call.ConfirmReset? && e.call.token == t ==> Serve(s, e).1 == Rejected
  {
  }

  lemma {:induction false} UsedForever(s: Store, events: seq<Event>, i: nat, n: nat, t: Token)
    requires i <= n <= |events|
    requires t in After(s, events[..i]).resets && After(s, events[..i]).resets[t].used
    requires forall k :: i <= k < n ==> t !in Drawn(events[k].call)
    ensures t in After(s, events[..n]).resets && After(s, events[..n]).resets[t].used
    decreases n
  {
    if i < n {
      UsedForever(s, events, i, n - 1, t);
      UsedStays(After(s, events[..n - 1]), events[n - 1], t);
      AfterNext(s, events, n - 1);
    }
  }

  /** A refused request changes nothing, except that a refused login may be logged. */
  lemma RefusalsChangeNothing(s: Store, e: Event)
    ensures Serve(s, e).1.Rejected? || Serve(s, e).1.Failed? ==> Serve(s, e).0.(audit := s.audit) == s
    ensures Serve(s, e).1.Failed? || (Serve(s, e).1.Rejected? && !e.call.Login?) ==> Serve(s, e).0 == s
  {
  }

  /** An accepted reset uses its token up. */
  lemma ResetUses(s: Store, e: Event)
    requires e.call.ConfirmReset? && Serve(s, e).1 == Done
    ensures e.call.token in s.resets
    ensures e.call.token in Serve(s, e).0.resets && Serve(s, e).0.resets[e.call.token].used
  {
  }

  /** Each reset token changes a password at most once. */
  lemma ResetOnce(s: Store, events: seq<Event>, i: nat, j: nat, t: Token)
    requires AllFresh(Stored(s), events) && i < j < |events|
    requires events[i].call.ConfirmReset? && events[i].call.token == t && ReplyTo(s, events, i) == Done
    requires events[j].call.ConfirmReset? && events[j].call.token == t
    ensures ReplyTo(s, events, j) == Rejected && After(s, events[..j + 1]) == After(s, events[..j])
  {
    PrefixFresh(Stored(s), events, i);
    OnlyDrawnAreStored(s, events[..i]);
    ResetUses(After(s, events[..i]), events[i]);
    AfterNext(s, events, i);
    UsedForever(s, events, i + 1, j, t);
    UsedStays(After(s, events[..j]), events[j], t);
    AfterNext(s, events, j);
    RefusalsChangeNothing(After(s, events[..j]), events[j]);
  }

  lemma {:induction false} FindAfterSet(users: seq<User>, id: Uuid, password: string, u: Uuid)
    ensures FindUser(SetPassword(users, id, password), u)
         == match FindUser(users, u)
            case None => None
            case Some(found) => Some(if u == id then found.(password := password) else found)
  {
    if |users| > 0 {
      assert SetPassword(users, id, password)[1..] == SetPassword(users[1..], id, password);
      FindAfterSet(users[1..], id, password, u);
    }
  }

  lemma {:induction false} FindAfterAppend(users: seq<User>, added: User, u: Uuid)
    requires FindUser(users, u).Some?
    ensures FindUser(users + [added], u) == FindUser(users, u)
  {
    if users[0].id != u {
      assert (users + [added])[1..] == users[1..] + [added];
      FindAfterAppend(users[1..], added, u);
    }
  }

  /** A known user's password changes only to the one given with that user's own reset token, which
      was unused and unexpired; nothing else about the user changes. */
  lemma PasswordChanges(s: Store, e: Event, u: Uuid)
    requires FindUser(s.users, u).Some?
    ensures var before, after := FindUser(s.users, u).value, FindUser(Serve(s, e).0.users, u);
            after == Some(
              if e.call.ConfirmReset? && ResetUsable(s, e.call.token, e.now) && s.resets[e.call.token].user == u
              then before.(password := e.call.password) else before)
  {
    if e.call.ConfirmReset? && ResetUsable(s, e.call.token, e.now) {
      FindAfterSet(s.users, s.resets[e.call.token].user, e.call.password, u);
    } else if e.call.Register? {
      FindAfterAppend(s.users, User(e.call.newUser, e.call.email, e.call.password, true), u);
    }
  }

  // ---------------------------------------------------------------------------
  // When a reset token is accepted
  // ---------------------------------------------------------------------------

  /** A reset token as the history tells it: requested for whom, until when, whether it was used. */
  function ResetTaleOf(s: Store, events: seq<Event>, t: Token): Option<Tale>
  {
    if |events| == 0 then None
    else
      var front, last := events[..|events| - 1], events[|events| - 1];
      NextTale(After(s, front), ResetTaleOf(s, front, t), last, t)
  }

  function NextTale(s: Store, before: Option<Tale>, e: Event, t: Token): Option<Tale>
  {
    if e.call.RequestReset? && e.call.next == t && FindEmail(s.users, e.call.email).Some? then
      Some(Tale(FindEmail(s.users, e.call.email).value.id, e.later + RESET_LIFETIME, false))
    else if before.Some? && e.call.ConfirmReset? && e.call.token == t && Serve(s, e).1 == Done then
      Some(before.value.(ended := true))
    else before
  }

  ghost predicate ResetTellsTrue(s: Store, t: Token, tale: Option<Tale>)
  {
    match tale
    case None => t !in s.resets
    case Some(k) =>
      && t in s.resets && s.resets[t] == ResetToken(k.user, k.expiresAt, k.ended)
      && FindUser(s.users, k.user).Some?
  }

  lemma UsersRemain(s: Store, e: Event, u: Uuid)
    requires FindUser(s.users, u).Some?
    ensures FindUser(Serve(s, e).0.users, u).Some?
  {
    PasswordChanges(s, e, u);
  }

  lemma StepTellsReset(s: Store, t: Token, tale: Option<Tale>, e: Event)
    requires ResetTellsTrue(s, t, tale) && Drawn(e.call) !! Stored(s)
    ensures ResetTellsTrue(Serve(s, e).0, t, NextTale(s, tale, e, t))
  {
    if tale.Some? { UsersRemain(s, e, tale.value.user); }
    if e.call.RequestReset? && FindEmail(s.users, e.call.email).Some? {
      UsersRemain(s, e, FindEmail(s.users, e.call.email).value.id);
    }
  }

  lemma {:induction false} HistoryTellsReset(s: Store, events: seq<Event>, t: Token)
    requires s.resets == map[] && AllFresh(Stored(s), events)
    ensures ResetTellsTrue(After(s, events), t, ResetTaleOf(s, events, t))
  {
    if |events| > 0 {
      var front, last := events[..|events| - 1], events[|events| - 1];
      HistoryTellsReset(s, front, t);
      NextIsFresh(s, events);
      StepTellsReset(After(s, front), t, ResetTaleOf(s, front, t), last);
    }
  }

  /** A reset is accepted exactly when its token was requested for a known user, has not been used
      and has not expired; a later request does not take an earlier token back. It then changes
      the password of the user it was requested for. */
  lemma ResetAcceptedExactly(s: Store, events: seq<Event>, t: Token, password: string, now: int, later: int)
    requires s.resets == map[] && AllFresh(Stored(s), events)
    ensures var tale, before := ResetTaleOf(s, events, t), After(s, events);
            var (after, reply) := Serve(before, Event(ConfirmReset(t, password), now, later));
            && (reply == Done <==> tale.Some? && !tale.value.ended && tale.value.expiresAt >= now)
            && (reply != Done ==> reply == Rejected && after == before)
            && (reply == Done ==> after.users == SetPassword(before.users, tale.value.user, password))
  {
    HistoryTellsReset(s, events, t);
  }

  // ---------------------------------------------------------------------------
  // Users
  // ---------------------------------------------------------------------------

  ghost predicate UsersUnique(users: seq<User>)
  {
    forall i, j :: 0 <= i < j < |users| ==> users[i].id != users[j].id && users[i].email != users[j].email
  }

  lemma UniqueAfterSet(users: seq<User>, id: Uuid, password: string)
    requires UsersUnique(users)
    ensures UsersUnique(SetPassword(users, id, password))
  {
  }

  lemma UniqueAfterAppend(users: seq<User>, added: User)
    requires UsersUnique(users) && FindEmail(users, added.email).None? && FindUser(users, added.id).None?
    ensures UsersUnique(users + [added])
  {
  }

  lemma UsersKeptUnique(s: Store, e: Event)
    requires UsersUnique(s.users)
    ensures UsersUnique(Serve(s, e).0.users)
  {
    var after := Serve(s, e).0.users;
    if e.call.ConfirmReset? && after != s.users {
      UniqueAfterSet(s.users, s.resets[e.call.token].user, e.call.password);
    } else if e.call.Register? && after != s.users {
      UniqueAfterAppend(s.users, User(e.call.newUser, e.call.email, e.call.password, true));
    }
  }

  /** No history gives two users one e-mail address or one id. */
  lemma {:induction false} UsersStayUnique(s: Store, events: seq<Event>)
    requires UsersUnique(s.users)
    ensures UsersUnique(After(s, events).users)
  {
    if |events| > 0 {
      UsersStayUnique(s, events[..|events| - 1]);
      UsersKeptUnique(After(s, events[..|events| - 1]), events[|events| - 1]);
    }
  }

  /** A registration is accepted exactly when address and id are unknown and the token is free; it
      adds an active user with just the password given, and a token good for thirty days. */
  lemma RegisterAnswers(s: Store, e: Event)
    requires e.call.Register?
    ensures Serve(s, e).1 ==
              if exists u :: u in s.users && u.email == e.call.email then Rejected
              else if (exists u :: u in s.users && u.id == e.call.newUser) || e.call.next in s.refresh then Failed
              else Issued(e.call.newUser, e.call.next)
    ensures Serve(s, e).1.Issued? ==>
              && Serve(s, e).0.users == s.users + [User(e.call.newUser, e.call.email, e.call.password, true)]
              && Serve(s, e).0.refresh
                 == s.refresh[e.call.next := RefreshToken(e.call.newUser, e.later + 2_592_000_000_000, false)]
  {
  }

  lemma FoundByEmail(users: seq<User>, u: User)
    requires UsersUnique(users) && u in users
    ensures FindEmail(users, u.email) == Some(u)
  {
    var found := FindEmail(users, u.email);
    var i :| 0 <= i < |users| && users[i] == u;
    var j :| 0 <= j < |users| && users[j] == found.value;
  }

  /** A login is accepted exactly with the password of an active user's address. */
  lemma LoginAnswers(s: Store, e: Event)
    requires e.call.Login? && UsersUnique(s.users)
    ensures forall u :: u in s.users && u.email == e.call.email ==>
              Serve(s, e).1 == if e.call.password != u.password || !u.active then Rejected
                               else if e.call.next in s.refresh then Failed else Issued(u.id, e.call.next)
    ensures (forall u :: u in s.users ==> u.email != e.call.email) ==> Serve(s, e).1 == Rejected
    ensures Serve(s, e).1.Issued? ==>
              Serve(s, e).0.refresh
              == s.refresh[e.call.next := RefreshToken(Serve(s, e).1.user, e.later + 2_592_000_000_000, false)]
  {
    forall u | u in s.users && u.email == e.call.email
      ensures FindEmail(s.users, e.call.email) == Some(u)
    {
      FoundByEmail(s.users, u);
    }
  }

  lemma {:induction false} FindAppended(users: seq<User>, added: User)
    requires FindEmail(users, added.email).None?
    ensures FindEmail(users + [added], added.email) == Some(added)
  {
    if |users| == 0 {
      assert users + [added] == [added];
    } else {
      assert (users + [added])[1..] == users[1..] + [added];
      FindAppended(users[1..], added);
    }
  }

  /** Who has registered can log in with that password, and with no other. */
  lemma LoginAfterRegister(s: Store, r: Event, l: Event)
    requires r.call.Register? && l.call.Login? && l.call.email == r.call.email
    requires Serve(s, r).1.Issued? && l.call.next !in Serve(s, r).0.refresh
    ensures Serve(Serve(s, r).0, l).1
         == if l.call.password == r.call.password then Issued(r.call.newUser, l.call.next) else Rejected
  {
    FindAppended(s.users, User(r.call.newUser, r.call.email, r.call.password, true));
  }

  lemma {:induction false} SetPasswordFinds(users: seq<User>, id: Uuid, password: string, email: string)
    ensures FindEmail(SetPassword(users, id, password), email)
         == match FindEmail(users, email)
            case None => None
            case Some(found) => Some(if found.id == id then found.(password := password) else found)
  {
    if |users| > 0 {
      assert SetPassword(users, id, password)[1..] == SetPassword(users[1..], id, password);
      SetPasswordFinds(users[1..], id, password, email);
    }
  }

  /** Who has reset a password can log in with the new one, and with no other. */
  lemma LoginAfterReset(s: Store, c: Event, l: Event, u: User)
    requires UsersUnique(s.users) && u in s.users && u.active
    requires c.call.ConfirmReset? && c.call.token in s.resets && s.resets[c.call.token].user == u.id
    requires Serve(s, c).1 == Done
    requires l.call.Login? && l.call.email == u.email && l.call.next !in s.refresh
    ensures Serve(Serve(s, c).0, l).1
         == if l.call.password == c.call.password then Issued(u.id, l.call.next) else Rejected
  {
    FoundByEmail(s.users, u);
    SetPasswordFinds(s.users, u.id, c.call.password, u.email);
  }

  /** A rotation replaces a token that is stored, not revoked and not expired: the old one is revoked,
      the new one is good for thirty days, and nothing else of the table changes. */
  lemma RefreshDoes(s: Store, e: Event)
    requires e.call.Refresh?
    ensures Serve(s, e).1.Issued? <==>
              && e.call.token in s.refresh && !s.refresh[e.call.token].revoked
              && s.refresh[e.call.token].expiresAt >= e.now && e.call.next !in s.refresh
    ensures Serve(s, e).1.Issued? ==>
              var stored := s.refresh[e.call.token];
              && Serve(s, e).1 == Issued(stored.user, e.call.next)
              && Serve(s, e).0.users == s.users && Serve(s, e).0.resets == s.resets
              && Serve(s, e).0.refresh
                 == s.refresh[e.call.token := RefreshToken(stored.user, stored.expiresAt, true)]
                             [e.call.next := RefreshToken(stored.user, e.later + 2_592_000_000_000, false)]
  {
  }

  /** A logout revokes the token if it is stored, whoever asks, and always succeeds. */
  lemma LogoutDoes(s: Store, e: Event)
    requires e.call.Logout?
    ensures Serve(s, e).1 == Done && Serve(s, e).0.users == s.users && Serve(s, e).0.resets == s.resets
    ensures e.call.token !in s.refresh ==> Serve(s, e).0.refresh == s.refresh
    ensures e.call.token in s.refresh ==>
              var stored := s.refresh[e.call.token];
              Serve(s, e).0.refresh == s.refresh[e.call.token := RefreshToken(stored.user, stored.expiresAt, true)]
  {
  }

  /** A reset request gets the same answer for a known and an unknown address; it stores a token good
      for fifteen minutes for a known one, and nothing for an unknown one. */
  lemma RequestResetAnswers(s: Store, e: Event)
    requires e.call.RequestReset? && UsersUnique(s.users)
    ensures e.call.next !in s.resets ==> Serve(s, e).1 == Done
    ensures (forall u :: u in s.users ==> u.email != e.call.email) ==> Serve(s, e) == (s, Done)
    ensures e.call.next !in s.resets ==>
              forall u :: u in s.users && u.email == e.call.email ==>
                && Serve(s, e).0.users == s.users && Serve(s, e).0.refresh == s.refresh
                && Serve(s, e).0.resets
                   == s.resets[e.call.next := ResetToken(u.id, e.later + 900_000_000, false)]
  {
    forall u | u in s.users && u.email == e.call.email
      ensures FindEmail(s.users, e.call.email) == Some(u)
    {
      FoundByEmail(s.users, u);
    }
  }

  /** A refresh token is only issued to a new user, to an active user who gave the right password,
      or to the user of a token that could be rotated. */
  lemma TokensAreEarned(s: Store, e: Event)
    ensures Serve(s, e).1.Issued? ==>
              var user := Serve(s, e).1.user;
              match e.call
              case Register(email, _, _, _) => forall u :: u in s.users ==> u.id != user && u.email != email
              case Login(email, password, _) => exists u :: u in s.users && u == User(user, email, password, true)
              case Refresh(t, _) => Usable(s, t, e.now) && s.refresh[t].user == user
              case _ => false
  {
    if e.call.Login? && FindEmail(s.users, e.call.email).Some? {
      var u := FindEmail(s.users, e.call.email).value;
      assert u in s.users;
    }
  }

  // ---------------------------------------------------------------------------
  // The audit log
  // ---------------------------------------------------------------------------

  /** Entries for tokens issued to a user. */
  function IssueEntries(audit: seq<Entry>, user: Uuid): nat
  {
    if |audit| == 0 then 0
    else
      var last := audit[|audit| - 1];
      IssueEntries(audit[..|audit| - 1], user)
      + if last.action in {UserRegistered, LoginSuccess, TokenRefreshed} && last.user == Some(user) then 1 else 0
  }

  /** Tokens a history issued to a user, by its replies. */
  function IssuedTo(s: Store, events: seq<Event>, user: Uuid): nat
  {
    if |events| == 0 then 0
    else
      var reply := ReplyTo(s, events, |events| - 1);
      IssuedTo(s, events[..|events| - 1], user) + if reply.Issued? && reply.user == user then 1 else 0
  }

  lemma LogCounts(s: Store, action: Action, who: Option<Uuid>, user: Uuid)
    ensures IssueEntries(Log(s, action, who).audit, user)
         == IssueEntries(s.audit, user)
          + if action in {UserRegistered, LoginSuccess, TokenRefreshed} && who == Some(user) then 1 else 0
  {
    assert Log(s, action, who).audit[..|s.audit|] == s.audit;
  }

  /** The entry a request writes, if any. */
  function EntriesOf(s: Store, e: Event): seq<Entry>
  {
    var reply := Serve(s, e).1;
    match e.call
    case Register(_, _, _, _) => if reply.Issued? then [Entry(UserRegistered, Some(reply.user))] else []
    case Login(email, password, _) =>
      var found := FindEmail(s.users, email);
      if reply.Issued? then [Entry(LoginSuccess, Some(reply.user))]
      else if found.None? then [Entry(LoginFailed, None)]
      else if found.value.password != password then [Entry(LoginFailed, Some(found.value.id))] else []
    case Refresh(_, _) => if reply.Issued? then [Entry(TokenRefreshed, Some(reply.user))] else []
    case Logout(_, user) => [Entry(LoggedOut, Some(user))]
    case RequestReset(email, _) =>
      var found := FindEmail(s.users, email);
      if reply == Done && found.Some? then [Entry(ResetRequested, Some(found.value.id))] else []
    case ConfirmReset(t, _) =>
      if reply == Done && t in s.resets then [Entry(ResetCompleted, Some(s.resets[t].user))] else []
    case Cleanup => []
  }

  /** Each request's entry commits with it, and only with it: a request that fails leaves none. */
  lemma ServeLogs(s: Store, e: Event)
    ensures Serve(s, e).0.audit == s.audit + EntriesOf(s, e)
  {
  }

  /** The entries, case by case. */
  lemma EntriesAre(s: Store, e: Event)
    requires UsersUnique(s.users)
    ensures Serve(s, e).1.Issued? ==>
              Serve(s, e).0.audit == s.audit + [Entry(
                if e.call.Register? then UserRegistered else if e.call.Login? then LoginSuccess else TokenRefreshed,
                Some(Serve(s, e).1.user))]
    ensures e.call.Logout? ==> Serve(s, e).0.audit == s.audit + [Entry(LoggedOut, Some(e.call.user))]
    ensures e.call.Login? && (forall u :: u in s.users ==> u.email != e.call.email) ==>
              Serve(s, e).0.audit == s.audit + [Entry(LoginFailed, None)]
    ensures e.call.Login? ==> forall u :: u in s.users && u.email == e.call.email && u.password != e.call.password ==>
              Serve(s, e).0.audit == s.audit + [Entry(LoginFailed, Some(u.id))]
    ensures e.call.RequestReset? && e.call.next !in s.resets ==>
              forall u :: u in s.users && u.email == e.call.email ==>
                Serve(s, e).0.audit == s.audit + [Entry(ResetRequested, Some(u.id))]
    ensures e.call.ConfirmReset? && Serve(s, e).1 == Done ==>
              && e.call.token in s.resets
              && Serve(s, e).0.audit == s.audit + [Entry(ResetCompleted, Some(s.resets[e.call.token].user))]
    ensures Serve(s, e).1.Failed? || (Serve(s, e).1.Rejected? && !e.call.Login?) || e.call.Cleanup? ==>
              Serve(s, e).0.audit == s.audit
  {
    if e.call.Login? || e.call.RequestReset? {
      forall u | u in s.users && u.email == e.call.email
        ensures FindEmail(s.users, e.call.email) == Some(u)
      {
        FoundByEmail(s.users, u);
      }
    }
  }

  lemma ServeCounts(s: Store, e: Event, user: Uuid)
    ensures s.audit <= Serve(s, e).0.audit
    ensures IssueEntries(Serve(s, e).0.audit, user)
         == IssueEntries(s.audit, user)
          + if Serve(s, e).1.Issued? && Serve(s, e).1.user == user then 1 else 0
  {
    ServeLogs(s, e);
    var entries := EntriesOf(s, e);
    if entries == [] {
      assert s.audit + entries == s.audit;
    } else {
      assert s.audit + entries == Log(s, entries[0].action, entries[0].user).audit;
      LogCounts(s, entries[0].action, entries[0].user, user);
    }
  }

  /** No phantom entries and none missing: over every history the log only grows, and it gains as
      many registration, login and refresh entries for a user as tokens were issued to that user. */
  lemma {:induction false} IssuesAreAudited(s: Store, events: seq<Event>, user: Uuid)
    ensures s.audit <= After(s, events).audit
    ensures IssueEntries(After(s, events).audit, user) == IssueEntries(s.audit, user) + IssuedTo(s, events, user)
  {
    if |events| > 0 {
      var front := events[..|events| - 1];
      IssuesAreAudited(s, front, user);
      ServeCounts(After(s, front), events[|events| - 1], user);
    }
  }
}
