/**
 The token lifecycle as a state machine. Every request is a task that issues one
 SQL statement at a time, and the statements of different requests, the hourly
 cleaner, the clock and restarts interleave freely.
 */
module AuthRuns {
  import opened Basics
  import opened TokenTables
  import opened Access

  // ---------- Tokens ----------

  /** A JSON web token as the server signs it. `hash` is the hash of its text; the expiry claim is
      kept in whole seconds. */
  datatype Jwt = Jwt(hash: U64, user: string, groups: set<string>, exp: int)

  /** What a client presents: some other text, or a token of ours under some algorithm. */
  datatype Presented = Forged | Signed(jwt: Jwt, hs512: bool)

  // chrono::serde::ts_seconds drops the fraction of a second.
  function Seconds(instant: int): int {
    instant / SECOND
  }

  predicate Expired(jwt: Jwt, now: int) {
    jwt.exp * SECOND < now
  }

  /** How a token came about. */
  datatype Origin = ByPassword | ByRefresh | ByReset(token: string)

  // ---------- Requests ----------

  /** A request in progress, named by the statement it issues next. */
  datatype Task =
    | InsertingRefresh(user: string, groups: set<string>)
    | CheckingRefresh(hash: U64, user: string)
    | Minting(user: string, groups: set<string>, origin: Origin)
    | Registering(jwt: Jwt, expiry: int, origin: Origin)
    | LogoutDeleting(hash: U64, user: string)
    | LogoutSelecting(user: string)
    | LogoutUpdating(user: string, selected: set<U64>)
    | LogoutInserting(user: string, selected: set<U64>)
    | ResetLooking(token: string)
    | ResetDeleting(token: string, user: string)

  datatype State = State(
    now: int,
    db: Tables,
    blacklist: set<U64>,           // the in-memory set
    tasks: map<nat, Task>,
    nextTask: nat,
    issued: set<Jwt>,              // history: tokens registered and handed out
    hashes: set<U64>,              // history: hashes of tokens signed
    requested: set<string>,        // history: reset tokens sent out
    redeemed: seq<Redemption>)     // history: reset tokens turned into JWTs

  datatype Redemption = Redemption(token: string, jwt: Jwt)

  /** What the outside decides in a step: random hashes, group memberships, database failures. */
  datatype Choice = Choice(hash: U64, groups: set<string>, fails: bool)

  datatype Event =
    | Tick(nanoseconds: nat)
    | Restart
    | CleanRefreshTable
    | CleanJwtTable
    | CleanResetTable
    | Login(user: string, groups: set<string>)
    | Refresh(hash: U64, user: string)
    | Logout(hash: U64, user: string)
    | RequestReset(user: string, token: string)
    | RedeemReset(token: string)
    | Run(task: nat, choice: Choice)

  const INITIAL := State(0, Tables(map[], map[], map[]), {}, map[], 0, {}, {}, {}, [])

  function Start(s: State, task: Task): State {
    s.(tasks := s.tasks[s.nextTask := task], nextTask := s.nextTask + 1)
  }

  function Become(s: State, id: nat, task: Task): State {
    s.(tasks := s.tasks[id := task])
  }

  function Finish(s: State, id: nat): State {
    s.(tasks := s.tasks - {id})
  }

  /** The next statement of a request. A failed statement ends the request, except that the failure
      to delete a reset token is ignored. */
  function Advance(s: State, id: nat, c: Choice): State
    requires id in s.tasks
  {
    match s.tasks[id]
    case InsertingRefresh(user, groups) =>
      var inserted := InsertRefresh(s.db, c.hash, user, s.now + REFRESH_LIFETIME);
      if c.fails || inserted == None then Finish(s, id)
      else Become(s.(db := inserted.value), id, Minting(user, groups, ByPassword))
    case CheckingRefresh(hash, user) =>
      if c.fails || !HasRefresh(s.db, hash, user) then Finish(s, id)
      else Become(s, id, Minting(user, c.groups, ByRefresh))
    case Minting(user, groups, origin) =>
      var expiry := s.now + JWT_LIFETIME;
      Become(s.(hashes := s.hashes + {c.hash}), id,
             Registering(Jwt(c.hash, user, groups, Seconds(expiry)), expiry, origin))
    case Registering(jwt, expiry, origin) =>
      var inserted := InsertJwt(s.db, jwt.hash, jwt.user, expiry);
      if c.fails || inserted == None then Finish(s, id)
      else
        Finish(s.(db := inserted.value,
                  issued := s.issued + {jwt},
                  redeemed := if origin.ByReset? then s.redeemed + [Redemption(origin.token, jwt)] else s.redeemed), id)
    case LogoutDeleting(hash, user) =>
      if c.fails then Finish(s, id)
      else Become(s.(db := DeleteRefresh(s.db, hash)), id, LogoutSelecting(user))
    case LogoutSelecting(user) =>
      if c.fails then Finish(s, id)
      else Become(s, id, LogoutUpdating(user, ValidHashes(s.db, user)))
    case LogoutUpdating(user, selected) =>
      if c.fails then Finish(s, id)
      else Become(s.(db := BlacklistUser(s.db, user)), id, LogoutInserting(user, selected))
    case LogoutInserting(user, selected) =>
      Finish(s.(blacklist := s.blacklist + selected), id)
    case ResetLooking(token) =>
      var found := ResetUser(s.db, token, s.now);
      if c.fails || found == None then Finish(s, id)
      else Become(s, id, ResetDeleting(token, found.value))
    case ResetDeleting(token, user) =>
      Become(if c.fails then s else s.(db := DeleteReset(s.db, token)), id, Minting(user, {}, ByReset(token)))
  }

  function Next(s: State, e: Event): State {
    match e
    case Tick(dt) => s.(now := s.now + dt)
    case Restart => s.(blacklist := BlacklistedHashes(s.db), tasks := map[])
    case CleanRefreshTable => s.(db := CleanRefreshes(s.db, s.now))
    case CleanJwtTable => s.(db := CleanJwts(s.db, s.now))
    case CleanResetTable => s.(db := CleanResets(s.db, s.now))
    case Login(user, groups) => Start(s, InsertingRefresh(user, groups))
    case Refresh(hash, user) => Start(s, CheckingRefresh(hash, user))
    case Logout(hash, user) => Start(s, LogoutDeleting(hash, user))
    case RequestReset(user, token) =>
      var inserted := InsertReset(s.db, token, user, s.now + RESET_LIFETIME);
      var s' := s.(requested := s.requested + {token});
      if inserted == None then s' else s'.(db := inserted.value)
    case RedeemReset(token) => Start(s, ResetLooking(token))
    case Run(id, c) => if id in s.tasks then Advance(s, id, c) else s
  }

  /** The state after the first n events of a run. */
  function After(s: State, events: seq<Event>, n: nat): State
    requires n <= |events|
  {
    if n == 0 then s else Next(After(s, events, n - 1), events[n - 1])
  }

  lemma Unroll(s: State, events: seq<Event>, n: nat)
    requires n < |events|
    ensures After(s, events, 0) == s
    ensures After(s, events, n + 1) == Next(After(s, events, n), events[n])
  {
  }

  lemma {:induction false} AfterPrefix(s: State, a: seq<Event>, b: seq<Event>, n: nat)
    requires n <= |a|
    ensures After(s, a + b, n) == After(s, a, n)
  {
    if n > 0 {
      AfterPrefix(s, a, b, n - 1);
    }
  }

  /** Running one list of events and then another is running their concatenation. */
  lemma {:induction false} AfterConcat(s: State, a: seq<Event>, b: seq<Event>, n: nat)
    requires n <= |b|
    ensures After(s, a + b, |a| + n) == After(After(s, a, |a|), b, n)
  {
    if n == 0 {
      AfterPrefix(s, a, b, |a|);
    } else {
      AfterConcat(s, a, b, n - 1);
    }
  }

  // ---------- Checking a token ----------

  datatype Rejection = InvalidJwt | ExpiredJwt | WrongAlgorithm | LoggedOut

  datatype Verdict = Accepted(who: ValidationResults) | Rejected(why: Rejection)

  // check_if_token_is_valid; `lower` is the Unicode lower-casing behind group names.
  function CheckToken(lower: char -> string, s: State, t: Presented): Verdict {
    if t.Forged? then Rejected(InvalidJwt)
    else if Expired(t.jwt, s.now) then Rejected(ExpiredJwt)
    else if !t.hs512 then Rejected(WrongAlgorithm)
    else if t.jwt.hash in s.blacklist then Rejected(LoggedOut)
    else Accepted(PermissionsFromGroups(lower, t.jwt.user, t.jwt.groups))
  }

  predicate IsRejected(s: State, jwt: Jwt) {
    Expired(jwt, s.now) || jwt.hash in s.blacklist
  }

  /** A token is rejected in a state exactly when it has expired or its hash is blacklisted. */
  lemma RejectedIff(lower: char -> string, s: State, jwt: Jwt)
    ensures CheckToken(lower, s, Signed(jwt, true)).Rejected? <==> IsRejected(s, jwt)
  {
  }

  /** Which texts are accepted, in every state, and why the others are not. */
  lemma CheckTokenExact(lower: char -> string, s: State, t: Presented)
    ensures var v := CheckToken(lower, s, t);
            && (v.Accepted? <==>
                  t.Signed? && t.hs512 && s.now <= t.jwt.exp * SECOND && t.jwt.hash !in s.blacklist)
            && (v == Rejected(InvalidJwt) <==> t.Forged?)
            && (v == Rejected(ExpiredJwt) <==> t.Signed? && t.jwt.exp * SECOND < s.now)
            && (v == Rejected(WrongAlgorithm) <==> t.Signed? && s.now <= t.jwt.exp * SECOND && !t.hs512)
  {
  }

  /** Whom an accepted token stands for, and what they may do: what the groups in its claims say. */
  lemma AcceptedWho(lower: char -> string, s: State, t: Presented, other: string, otherIsAdmin: bool)
    requires CheckToken(lower, s, t).Accepted?
    ensures var who := CheckToken(lower, s, t).who;
            var admin := InGroup(lower, t.jwt.groups, "lldap_admin");
            var manager := InGroup(lower, t.jwt.groups, "lldap_password_manager");
            var readonly := InGroup(lower, t.jwt.groups, "lldap_strict_readonly");
            && who.user == t.jwt.user
            && (who.IsAdmin() <==> admin)
            && (who.CanReadAll() <==> admin || manager || readonly)
            && (who.CanRead(other) <==> other == t.jwt.user || admin || manager || readonly)
            && (who.CanWrite(other) <==> other == t.jwt.user || admin)
            && (who.CanChangePassword(other, otherIsAdmin) <==> other == t.jwt.user || admin || (manager && !otherIsAdmin))
  {
    PermissionsExact(lower, t.jwt.user, t.jwt.groups, other, otherIsAdmin);
  }

  /** The expiry claim is the expiry less a fraction of a second. */
  lemma ClaimCutsFraction(expiry: int)
    ensures Seconds(expiry) * SECOND <= expiry < Seconds(expiry) * SECOND + SECOND
  {
  }

  // ---------- Tokens and their rows ----------

  /** The token's own row: right user, and the expiry the claim was cut from. */
  predicate HasRow(s: State, jwt: Jwt) {
    var k := AsI64(jwt.hash);
    k in s.db.jwts && s.db.jwts[k].user == jwt.user && Seconds(s.db.jwts[k].expiry) == jwt.exp
  }

  predicate HasBlacklistedRow(s: State, jwt: Jwt) {
    HasRow(s, jwt) && s.db.jwts[AsI64(jwt.hash)].blacklisted
  }

  /** The cut-off claim: a row past its expiry belongs to a token that is past its own. */
  lemma RowOutlivesToken(jwt: Jwt, expiry: int, now: int)
    requires Seconds(expiry) == jwt.exp && expiry < now
    ensures Expired(jwt, now)
  {
  }

  /** Every token handed out has its row until it expires, and task ids are never reused. */
  ghost predicate Inv(s: State) {
    && (forall jwt :: jwt in s.issued ==> Expired(jwt, s.now) || HasRow(s, jwt))
    && (forall id :: id in s.tasks ==> id < s.nextTask)
    && (forall id :: id in s.tasks && s.tasks[id].Registering? ==>
                       Seconds(s.tasks[id].expiry) == s.tasks[id].jwt.exp)
  }

  /** Blacklisting, cleaning and inserting leave an unexpired token's row in place. */
  lemma RowSurvives(s: State, e: Event, jwt: Jwt)
    requires HasRow(s, jwt)
    ensures Expired(jwt, Next(s, e).now) || HasRow(Next(s, e), jwt)
    ensures HasBlacklistedRow(s, jwt) ==> Expired(jwt, Next(s, e).now) || HasBlacklistedRow(Next(s, e), jwt)
  {
    var k := AsI64(jwt.hash);
    if e.CleanJwtTable? && s.db.jwts[k].expiry < s.now {
      RowOutlivesToken(jwt, s.db.jwts[k].expiry, s.now);
    }
  }

  lemma InvStep(s: State, e: Event)
    requires Inv(s)
    ensures Inv(Next(s, e))
  {
    var s' := Next(s, e);
    forall jwt | jwt in s'.issued
      ensures Expired(jwt, s'.now) || HasRow(s', jwt)
    {
      if jwt in s.issued && HasRow(s, jwt) {
        RowSurvives(s, e, jwt);
      }
    }
  }

  lemma {:induction false} InvAlways(events: seq<Event>, n: nat)
    requires n <= |events|
    ensures Inv(After(INITIAL, events, n))
  {
    if n > 0 {
      InvAlways(events, n - 1);
      InvStep(After(INITIAL, events, n - 1), events[n - 1]);
    }
  }
}
