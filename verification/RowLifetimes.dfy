/**
 How long rows live: over every run, exactly which steps remove, blacklist or
 expose the row of a token, and what a restart leaves of requests in progress.
 */
module RowLifetimes {
  import opened Basics
  import opened TokenTables
  import opened AuthRuns
  import opened ResetTokens

  // ---------- The rows of reset tokens ----------

  /** Step i stores the reset token for the user. */
  ghost predicate SendsAt(events: seq<Event>, i: nat, token: string, user: string) {
    i < |events| && events[i] == RequestReset(user, token) && token !in After(INITIAL, events, i).db.resets
  }

  ghost predicate NotSentAgain(events: seq<Event>, i: nat, n: nat, token: string)
    requires n <= |events|
  {
    forall m :: i < m < n ==> !(events[m].RequestReset? && events[m].token == token)
  }

  /** The step deletes the token. */
  predicate DeletesToken(s: State, e: Event, token: string) {
    e.Run? && e.task in s.tasks && s.tasks[e.task].ResetDeleting? && s.tasks[e.task].token == token && !e.choice.fails
  }

  ghost predicate DeletedBetween(events: seq<Event>, i: nat, n: nat, token: string)
    requires n <= |events|
  {
    exists m :: i < m < n && DeletesToken(After(INITIAL, events, m), events[m], token)
  }

  /** The cleaner runs after the row's expiry. */
  predicate SweepsReset(s: State, e: Event, expiry: int) {
    e.CleanResetTable? && expiry < s.now
  }

  ghost predicate SweptBetween(events: seq<Event>, i: nat, n: nat, expiry: int)
    requires n <= |events|
  {
    exists m :: i < m < n && SweepsReset(After(INITIAL, events, m), events[m], expiry)
  }

  lemma ResetStep(s: State, e: Event, token: string, row: ResetRow)
    requires !(e.RequestReset? && e.token == token)
    ensures var t, t' := s.db.resets, Next(s, e).db.resets;
            && (token !in t ==> token !in t')
            && (token in t && t[token] == row ==>
                  if DeletesToken(s, e, token) || SweepsReset(s, e, row.expiry) then token !in t'
                  else token in t' && t'[token] == row)
  {
  }

  lemma SentRow(events: seq<Event>, i: nat, token: string, user: string)
    requires SendsAt(events, i, token, user)
    ensures var s, t := After(INITIAL, events, i), After(INITIAL, events, i + 1).db.resets;
            token in t && t[token] == ResetRow(user, s.now + RESET_LIFETIME)
  {
  }

  /** The row of a reset token is there exactly until the token is deleted or a cleaning finds it
      expired. */
  lemma {:induction false} ResetRowExact(events: seq<Event>, i: nat, n: nat, token: string, user: string)
    requires i < n <= |events| && SendsAt(events, i, token, user) && NotSentAgain(events, i, n, token)
    ensures var row, t := ResetRow(user, After(INITIAL, events, i).now + RESET_LIFETIME), After(INITIAL, events, n).db.resets;
            if DeletedBetween(events, i, n, token) || SweptBetween(events, i, n, row.expiry) then token !in t
            else token in t && t[token] == row
    decreases n
  {
    var row := ResetRow(user, After(INITIAL, events, i).now + RESET_LIFETIME);
    if n == i + 1 {
      SentRow(events, i, token, user);
    } else {
      ResetRowExact(events, i, n - 1, token, user);
      ResetStep(After(INITIAL, events, n - 1), events[n - 1], token, row);
      EndsGrow(events, i, n, token, row.expiry);
    }
  }

  lemma EndsGrow(events: seq<Event>, i: nat, n: nat, token: string, expiry: int)
    requires i + 1 < n <= |events|
    ensures var s, e := After(INITIAL, events, n - 1), events[n - 1];
            && (DeletedBetween(events, i, n, token) <==> DeletedBetween(events, i, n - 1, token) || DeletesToken(s, e, token))
            && (SweptBetween(events, i, n, expiry) <==> SweptBetween(events, i, n - 1, expiry) || SweepsReset(s, e, expiry))
  {
    if DeletedBetween(events, i, n - 1, token) {
      var m :| i < m < n - 1 && DeletesToken(After(INITIAL, events, m), events[m], token);
      assert DeletedBetween(events, i, n, token);
    }
    if SweptBetween(events, i, n - 1, expiry) {
      var m :| i < m < n - 1 && SweepsReset(After(INITIAL, events, m), events[m], expiry);
      assert SweptBetween(events, i, n, expiry);
    }
  }

  /** So a reset token is found, and for its user, exactly in the ten minutes after it was sent and
      until it is deleted: cleaning and restarts cannot be told. */
  lemma ResetFoundIff(events: seq<Event>, i: nat, n: nat, token: string, user: string, who: string)
    requires i < n <= |events| && SendsAt(events, i, token, user) && NotSentAgain(events, i, n, token)
    ensures var s := After(INITIAL, events, n);
            ResetUser(s.db, token, s.now) == Some(who) <==>
              && who == user
              && s.now < After(INITIAL, events, i).now + RESET_LIFETIME
              && !DeletedBetween(events, i, n, token)
  {
    var expiry := After(INITIAL, events, i).now + RESET_LIFETIME;
    ResetRowExact(events, i, n, token, user);
    if SweptBetween(events, i, n, expiry) {
      var m :| i < m < n && SweepsReset(After(INITIAL, events, m), events[m], expiry);
      ClockNeverGoesBack(events, m, n);
    }
  }

  // ---------- The rows of tokens ----------

  /** The step stores a row under this key. */
  predicate Registers(s: State, e: Event, k: I64) {
    && e.Run? && e.task in s.tasks && s.tasks[e.task].Registering? && !e.choice.fails
    && AsI64(s.tasks[e.task].jwt.hash) == k && k !in s.db.jwts
  }

  ghost predicate RegistersAt(events: seq<Event>, i: nat, jwt: Jwt, expiry: int) {
    && i < |events| && Registers(After(INITIAL, events, i), events[i], AsI64(jwt.hash))
    && After(INITIAL, events, i).tasks[events[i].task].jwt == jwt
    && After(INITIAL, events, i).tasks[events[i].task].expiry == expiry
  }

  ghost predicate NotRegisteredAgain(events: seq<Event>, i: nat, n: nat, k: I64)
    requires n <= |events|
  {
    forall m :: i < m < n ==> !Registers(After(INITIAL, events, m), events[m], k)
  }

  predicate SweepsJwt(s: State, e: Event, expiry: int) {
    e.CleanJwtTable? && expiry < s.now
  }

  ghost predicate JwtSweptBetween(events: seq<Event>, i: nat, n: nat, expiry: int)
    requires n <= |events|
  {
    exists m :: i < m < n && SweepsJwt(After(INITIAL, events, m), events[m], expiry)
  }

  /** The step blacklists all rows of the user. */
  predicate Blacklists(s: State, e: Event, user: string) {
    e.Run? && e.task in s.tasks && s.tasks[e.task].LogoutUpdating? && s.tasks[e.task].user == user && !e.choice.fails
  }

  ghost predicate BlacklistedBetween(events: seq<Event>, i: nat, n: nat, user: string)
    requires n <= |events|
  {
    exists m :: i < m < n && Blacklists(After(INITIAL, events, m), events[m], user)
  }

  lemma JwtGoneStays(s: State, e: Event, k: I64)
    requires !Registers(s, e, k) && k !in s.db.jwts
    ensures k !in Next(s, e).db.jwts
  {
  }

  lemma JwtStep(s: State, e: Event, k: I64, row: JwtRow)
    requires !Registers(s, e, k)
    ensures var t, t' := s.db.jwts, Next(s, e).db.jwts;
            && (k !in t ==> k !in t')
            && (k in t && t[k] == row ==>
                  if SweepsJwt(s, e, row.expiry) then k !in t'
                  else k in t' && t'[k] == row.(blacklisted := row.blacklisted || Blacklists(s, e, row.user)))
  {
    if k !in s.db.jwts {
      JwtGoneStays(s, e, k);
    }
  }

  /** The row of a token is there exactly until a cleaning finds it expired, and is blacklisted exactly
      if a logout of its user has updated since it was stored. */
  lemma {:induction false} JwtRowExact(events: seq<Event>, i: nat, n: nat, jwt: Jwt, expiry: int)
    requires i < n <= |events| && RegistersAt(events, i, jwt, expiry) && NotRegisteredAgain(events, i, n, AsI64(jwt.hash))
    ensures var t := After(INITIAL, events, n).db.jwts;
            if JwtSweptBetween(events, i, n, expiry) then AsI64(jwt.hash) !in t
            else AsI64(jwt.hash) in t && t[AsI64(jwt.hash)] == JwtRow(jwt.user, BlacklistedBetween(events, i, n, jwt.user), expiry)
    decreases n
  {
    if n > i + 1 {
      JwtRowExact(events, i, n - 1, jwt, expiry);
      var s, e := After(INITIAL, events, n - 1), events[n - 1];
      JwtStep(s, e, AsI64(jwt.hash), JwtRow(jwt.user, BlacklistedBetween(events, i, n - 1, jwt.user), expiry));
      BetweenGrows(events, i, n, jwt.user, expiry);
    }
  }

  lemma BetweenGrows(events: seq<Event>, i: nat, n: nat, user: string, expiry: int)
    requires i + 1 < n <= |events|
    ensures var s, e := After(INITIAL, events, n - 1), events[n - 1];
            && (BlacklistedBetween(events, i, n, user) <==> BlacklistedBetween(events, i, n - 1, user) || Blacklists(s, e, user))
            && (JwtSweptBetween(events, i, n, expiry) <==> JwtSweptBetween(events, i, n - 1, expiry) || SweepsJwt(s, e, expiry))
  {
    var s, e := After(INITIAL, events, n - 1), events[n - 1];
    if BlacklistedBetween(events, i, n - 1, user) {
      var m :| i < m < n - 1 && Blacklists(After(INITIAL, events, m), events[m], user);
      assert BlacklistedBetween(events, i, n, user);
    }
    if JwtSweptBetween(events, i, n - 1, expiry) {
      var m :| i < m < n - 1 && SweepsJwt(After(INITIAL, events, m), events[m], expiry);
      assert JwtSweptBetween(events, i, n, expiry);
    }
  }

  // ---------- Restarts ----------

  lemma NeverAgain(s: State, e: Event, id: nat)
    requires id !in s.tasks && id < s.nextTask
    ensures id !in Next(s, e).tasks && id < Next(s, e).nextTask
  {
  }

  /** A restart ends every request in progress for good, and memory is then the database's. */
  lemma {:induction false} RestartEndsRequests(events: seq<Event>, i: nat, n: nat, id: nat)
    requires i < n <= |events| && events[i] == Restart && id < After(INITIAL, events, i).nextTask
    ensures id !in After(INITIAL, events, n).tasks && id < After(INITIAL, events, n).nextTask
    ensures After(INITIAL, events, i + 1).blacklist == BlacklistedHashes(After(INITIAL, events, i).db)
    ensures After(INITIAL, events, i + 1).db == After(INITIAL, events, i).db
    decreases n
  {
    if n > i + 1 {
      RestartEndsRequests(events, i, n - 1, id);
      NeverAgain(After(INITIAL, events, n - 1), events[n - 1], id);
    }
  }
}
