/**
 Logout safety over every run of the token state machine.
 */
module LogoutSafety {
  import opened TokenTables
  import opened Access
  import opened AuthRuns

  /** Rejected now and in every later state: expired, or blacklisted both in memory and on disk. */
  predicate Dead(s: State, jwt: Jwt) {
    Expired(jwt, s.now) || (jwt.hash in s.blacklist && HasBlacklistedRow(s, jwt))
  }

  lemma DeadStays(s: State, e: Event, jwt: Jwt)
    requires Dead(s, jwt)
    ensures Dead(Next(s, e), jwt)
  {
    if !Expired(jwt, Next(s, e).now) {
      RowSurvives(s, e, jwt);
      if e.Restart? {
        CastsUndoEachOther(jwt.hash, 0);
        assert AsU64(AsI64(jwt.hash)) in BlacklistedHashes(s.db);
      }
    }
  }

  /** A logout that has selected the token and not yet finished. */
  predicate Pending(s: State, id: nat, jwt: Jwt) {
    && id in s.tasks
    && match s.tasks[id]
       case LogoutUpdating(user, selected) =>
         user == jwt.user && jwt.hash in selected && (Expired(jwt, s.now) || HasRow(s, jwt))
       case LogoutInserting(user, selected) =>
         jwt.hash in selected && (Expired(jwt, s.now) || HasBlacklistedRow(s, jwt))
       case _ => false
  }

  lemma PendingStep(s: State, e: Event, id: nat, jwt: Jwt)
    requires Inv(s) && Pending(s, id, jwt)
    ensures id in Next(s, e).tasks ==> Pending(Next(s, e), id, jwt)
    ensures e.Run? && e.task == id && s.tasks[id].LogoutInserting? ==> Dead(Next(s, e), jwt)
  {
    if HasRow(s, jwt) {
      RowSurvives(s, e, jwt);
    }
  }

  lemma GoneStays(s: State, e: Event, id: nat)
    requires id !in s.tasks && id < s.nextTask
    ensures id !in Next(s, e).tasks && id < Next(s, e).nextTask
  {
  }

  lemma {:induction false} WasThere(s: State, events: seq<Event>, m: nat, n: nat, id: nat)
    requires m <= n <= |events| && id in After(s, events, n).tasks
    requires id < After(s, events, m).nextTask
    ensures id in After(s, events, m).tasks
    decreases n - m
  {
    if m < n && id !in After(s, events, m).tasks {
      GoneStays(After(s, events, m), events[m], id);
      WasThere(s, events, m + 1, n, id);
    }
  }

  lemma {:induction false} PendingUntil(events: seq<Event>, m: nat, n: nat, id: nat, jwt: Jwt)
    requires m <= n <= |events| && id in After(INITIAL, events, n).tasks
    requires Pending(After(INITIAL, events, m), id, jwt)
    ensures Pending(After(INITIAL, events, n), id, jwt)
    decreases n - m
  {
    if m < n {
      var s := After(INITIAL, events, m);
      InvAlways(events, m);
      PendingStep(s, events[m], id, jwt);
      InvAlways(events, m + 1);
      NextTaskGrows(s, events[m]);
      WasThere(INITIAL, events, m + 1, n, id);
      PendingUntil(events, m + 1, n, id, jwt);
    }
  }

  lemma NextTaskGrows(s: State, e: Event)
    ensures s.nextTask <= Next(s, e).nextTask
  {
  }

  lemma {:induction false} DeadForever(s: State, events: seq<Event>, m: nat, n: nat, jwt: Jwt)
    requires m <= n <= |events| && Dead(After(s, events, m), jwt)
    ensures Dead(After(s, events, n), jwt)
    decreases n
  {
    if m < n {
      DeadForever(s, events, m, n - 1, jwt);
      DeadStays(After(s, events, n - 1), events[n - 1], jwt);
    }
  }

  /** The event at step i is request `id` running its select for this user. */
  ghost predicate SelectsAt(events: seq<Event>, i: nat, id: nat, user: string) {
    && i < |events| && events[i].Run? && events[i].task == id && !events[i].choice.fails
    && id in After(INITIAL, events, i).tasks
    && After(INITIAL, events, i).tasks[id] == LogoutSelecting(user)
  }

  /** The event at step j is request `id` finishing its logout. */
  ghost predicate FinishesAt(events: seq<Event>, j: nat, id: nat) {
    && j < |events| && events[j].Run? && events[j].task == id
    && id in After(INITIAL, events, j).tasks
    && After(INITIAL, events, j).tasks[id].LogoutInserting?
  }

  /** Logout safety, over every interleaving of statements, restarts included: a token whose row was
      there and valid when a logout selected is rejected in every state after that logout ends. */
  lemma LogoutSafe(lower: char -> string, events: seq<Event>, i: nat, j: nat, k: nat, id: nat, jwt: Jwt)
    requires i < j < k <= |events|
    requires SelectsAt(events, i, id, jwt.user) && FinishesAt(events, j, id)
    requires HasRow(After(INITIAL, events, i), jwt) && !HasBlacklistedRow(After(INITIAL, events, i), jwt)
    ensures CheckToken(lower, After(INITIAL, events, k), Signed(jwt, true)).Rejected?
  {
    var s := After(INITIAL, events, i);
    var key := AsI64(jwt.hash);
    CastsUndoEachOther(jwt.hash, key);
    assert AsU64(key) in ValidHashes(s.db, jwt.user);
    assert Pending(After(INITIAL, events, i + 1), id, jwt);
    PendingUntil(events, i + 1, j, id, jwt);
    InvAlways(events, j);
    PendingStep(After(INITIAL, events, j), events[j], id, jwt);
    DeadForever(INITIAL, events, j + 1, k, jwt);
    RejectedIff(lower, After(INITIAL, events, k), jwt);
  }

  // ---------- A logout on its own ----------

  /** The events of a logout that nothing interrupts. */
  function SoloLogout(id: nat, hash: U64, user: string, c: Choice): seq<Event> {
    [Logout(hash, user), Run(id, c), Run(id, c), Run(id, c), Run(id, c)]
  }

  /** Uninterrupted, a logout deletes the refresh token, blacklists the user's tokens on disk and
      adds those that were valid to memory. */
  function LoggedOutState(s: State, hash: U64, user: string): State {
    s.(db := BlacklistUser(DeleteRefresh(s.db, hash), user),
       blacklist := s.blacklist + ValidHashes(s.db, user),
       nextTask := s.nextTask + 1)
  }

  /** The state with one more request under way. */
  function With(s: State, task: Task, db: Tables): State {
    s.(db := db, tasks := s.tasks[s.nextTask := task], nextTask := s.nextTask + 1)
  }

  lemma SoloDelete(s: State, hash: U64, user: string, c: Choice)
    requires !c.fails
    ensures Next(Next(s, Logout(hash, user)), Run(s.nextTask, c))
            == With(s, LogoutSelecting(user), DeleteRefresh(s.db, hash))
  {
    var s1 := Next(s, Logout(hash, user));
    assert s1 == With(s, LogoutDeleting(hash, user), s.db);
    assert s1.tasks[s.nextTask := LogoutSelecting(user)] == s.tasks[s.nextTask := LogoutSelecting(user)];
  }

  lemma SoloSelect(s: State, db: Tables, user: string, c: Choice)
    requires !c.fails
    ensures Next(With(s, LogoutSelecting(user), db), Run(s.nextTask, c))
            == With(s, LogoutUpdating(user, ValidHashes(db, user)), db)
  {
    var task := LogoutUpdating(user, ValidHashes(db, user));
    assert With(s, LogoutSelecting(user), db).tasks[s.nextTask := task] == s.tasks[s.nextTask := task];
  }

  lemma SoloUpdate(s: State, db: Tables, user: string, selected: set<U64>, c: Choice)
    requires !c.fails
    ensures Next(With(s, LogoutUpdating(user, selected), db), Run(s.nextTask, c))
            == With(s, LogoutInserting(user, selected), BlacklistUser(db, user))
  {
    var task := LogoutInserting(user, selected);
    assert With(s, LogoutUpdating(user, selected), db).tasks[s.nextTask := task] == s.tasks[s.nextTask := task];
  }

  lemma SoloInsert(s: State, db: Tables, user: string, selected: set<U64>, c: Choice)
    requires s.nextTask !in s.tasks
    ensures Next(With(s, LogoutInserting(user, selected), db), Run(s.nextTask, c))
            == s.(db := db, blacklist := s.blacklist + selected, nextTask := s.nextTask + 1)
  {
    assert s.tasks[s.nextTask := LogoutInserting(user, selected)] - {s.nextTask} == s.tasks;
  }

  lemma SoloLogoutResult(s: State, hash: U64, user: string, c: Choice)
    requires Inv(s) && !c.fails
    ensures After(s, SoloLogout(s.nextTask, hash, user, c), 5) == LoggedOutState(s, hash, user)
  {
    var events, db := SoloLogout(s.nextTask, hash, user, c), DeleteRefresh(s.db, hash);
    Unroll(s, events, 0);
    Unroll(s, events, 1);
    SoloDelete(s, hash, user, c);
    Unroll(s, events, 2);
    SoloSelect(s, db, user, c);
    Unroll(s, events, 3);
    SoloUpdate(s, db, user, ValidHashes(db, user), c);
    Unroll(s, events, 4);
    SoloInsert(s, BlacklistUser(db, user), user, ValidHashes(db, user), c);
    assert ValidHashes(db, user) == ValidHashes(s.db, user);
  }

  /** So an uninterrupted logout makes every valid token of its user, and nobody else's, rejected. */
  lemma SoloLogoutRejects(s: State, hash: U64, user: string, jwt: Jwt)
    requires HasRow(s, jwt) && !HasBlacklistedRow(s, jwt)
    ensures IsRejected(LoggedOutState(s, hash, user), jwt) <==> IsRejected(s, jwt) || jwt.user == user
  {
    CastsUndoEachOther(jwt.hash, AsI64(jwt.hash));
    if jwt.hash in ValidHashes(s.db, user) {
      var k :| k in s.db.jwts && s.db.jwts[k].user == user && !s.db.jwts[k].blacklisted && AsU64(k) == jwt.hash;
      CastsUndoEachOther(jwt.hash, k);
    }
    if jwt.user == user {
      assert AsU64(AsI64(jwt.hash)) in ValidHashes(s.db, user);
    }
  }
}
