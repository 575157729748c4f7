/**
 The in-memory blacklist as a cache of the database: what every run keeps, the
 race that breaks it, and exactly when a statement does.
 */
module BlacklistCache {
  import opened TokenTables
  import opened Access
  import opened AuthRuns
  import opened LogoutSafety

  // ---------- Memory covers the database ----------

  predicate AboutToInsert(s: State, h: U64) {
    exists id :: id in s.tasks && s.tasks[id].LogoutInserting? && h in s.tasks[id].selected
  }

  /** Every hash blacklisted on disk is blacklisted in memory, or some logout is about to see to it. */
  ghost predicate CacheCovers(s: State) {
    forall h :: h in BlacklistedHashes(s.db) ==> h in s.blacklist || AboutToInsert(s, h)
  }

  /** The selection a logout is about to act on has not been overtaken by a registration. */
  ghost predicate SelectionsCurrent(s: State) {
    forall id :: id in s.tasks && s.tasks[id].LogoutUpdating? ==>
                   ValidHashes(s.db, s.tasks[id].user) <= s.tasks[id].selected
  }

  /** The update of a logout breaks the cache exactly when the user has a valid row that the logout
      did not select and nobody else covers. */
  lemma UpdateKeepsCacheIff(s: State, id: nat, c: Choice)
    requires CacheCovers(s) && id in s.tasks && s.tasks[id].LogoutUpdating? && !c.fails
    ensures CacheCovers(Next(s, Run(id, c))) <==>
              forall h :: h in ValidHashes(s.db, s.tasks[id].user) ==>
                            h in s.tasks[id].selected || h in s.blacklist || AboutToInsert(s, h)
  {
    var user, selected := s.tasks[id].user, s.tasks[id].selected;
    var s' := Next(s, Run(id, c));
    BlacklistingSeen(s.db, user, user);
    forall h
      ensures AboutToInsert(s', h) <==> h in selected || AboutToInsert(s, h)
    {
      if h in selected {
        assert s'.tasks[id] == LogoutInserting(user, selected);
      }
      if AboutToInsert(s, h) {
        var other :| other in s.tasks && s.tasks[other].LogoutInserting? && h in s.tasks[other].selected;
        assert s'.tasks[other] == s.tasks[other];
      }
      if AboutToInsert(s', h) {
        var other :| other in s'.tasks && s'.tasks[other].LogoutInserting? && h in s'.tasks[other].selected;
        assert other == id || s.tasks[other] == s'.tasks[other];
      }
    }
  }

  /** No registration for a user happens between the select and the update of a logout of theirs. */
  ghost predicate NoOvertaking(s: State, e: Event) {
    e.Run? && e.task in s.tasks && s.tasks[e.task].Registering? ==>
      forall id :: id in s.tasks && s.tasks[id].LogoutUpdating? ==>
                     s.tasks[id].user != s.tasks[e.task].jwt.user
  }

  /** Rows still valid after a step were valid before it, unless the step registered them. */
  lemma ValidRowIsOld(s: State, e: Event, k: I64)
    requires k in Next(s, e).db.jwts && !Next(s, e).db.jwts[k].blacklisted
    ensures || (k in s.db.jwts && s.db.jwts[k] == Next(s, e).db.jwts[k])
            || (&& e.Run? && e.task in s.tasks && s.tasks[e.task].Registering?
                && s.tasks[e.task].jwt.user == Next(s, e).db.jwts[k].user)
  {
  }

  lemma BlacklistShrinks(s: State, e: Event, user: string)
    requires !(e.Run? && e.task in s.tasks && s.tasks[e.task].Registering? && s.tasks[e.task].jwt.user == user)
    ensures ValidHashes(Next(s, e).db, user) <= ValidHashes(s.db, user)
  {
    var s' := Next(s, e);
    forall h | h in ValidHashes(s'.db, user)
      ensures h in ValidHashes(s.db, user)
    {
      var k :| k in s'.db.jwts && s'.db.jwts[k].user == user && !s'.db.jwts[k].blacklisted && AsU64(k) == h;
      ValidRowIsOld(s, e, k);
    }
  }

  lemma SelectionsStayCurrent(s: State, e: Event)
    requires SelectionsCurrent(s) && NoOvertaking(s, e)
    ensures SelectionsCurrent(Next(s, e))
  {
    var s' := Next(s, e);
    forall id | id in s'.tasks && s'.tasks[id].LogoutUpdating?
      ensures ValidHashes(s'.db, s'.tasks[id].user) <= s'.tasks[id].selected
    {
      if id in s.tasks && s.tasks[id] == s'.tasks[id] {
        BlacklistShrinks(s, e, s.tasks[id].user);
      }
    }
  }

  predicate Updates(s: State, e: Event) {
    e.Run? && e.task in s.tasks && s.tasks[e.task].LogoutUpdating? && !e.choice.fails
  }

  /** No other step can break the cache. */
  lemma OtherStepsKeepCover(s: State, e: Event)
    requires Inv(s) && CacheCovers(s) && !Updates(s, e)
    ensures CacheCovers(Next(s, e))
  {
    var s' := Next(s, e);
    if !e.Restart? {
      forall h | h in BlacklistedHashes(s'.db)
        ensures h in s'.blacklist || AboutToInsert(s', h)
      {
        NoNewBlacklisting(s, e, h);
        if h !in s.blacklist {
          var id :| id in s.tasks && s.tasks[id].LogoutInserting? && h in s.tasks[id].selected;
          InsertionStays(s, e, id, h);
        }
      }
    }
  }

  lemma InsertionStays(s: State, e: Event, id: nat, h: U64)
    requires Inv(s) && !e.Restart? && id in s.tasks && s.tasks[id].LogoutInserting? && h in s.tasks[id].selected
    ensures h in Next(s, e).blacklist || AboutToInsert(Next(s, e), h)
  {
    assert id < s.nextTask;
    if !(e.Run? && e.task == id) {
      assert id in Next(s, e).tasks && Next(s, e).tasks[id] == s.tasks[id];
    }
  }

  /** If the step is the update of a logout: every row it is about to blacklist was selected, is in
      memory or is about to be. */
  ghost predicate UpdateIsCovered(s: State, e: Event) {
    Updates(s, e) ==>
      forall h :: h in ValidHashes(s.db, s.tasks[e.task].user) ==>
                    h in s.tasks[e.task].selected || h in s.blacklist || AboutToInsert(s, h)
  }

  lemma CoverStepIff(s: State, e: Event)
    requires Inv(s) && CacheCovers(s)
    ensures CacheCovers(Next(s, e)) <==> UpdateIsCovered(s, e)
  {
    if Updates(s, e) {
      UpdateKeepsCacheIff(s, e.task, e.choice);
    } else {
      OtherStepsKeepCover(s, e);
    }
  }

  ghost predicate CoversThroughout(events: seq<Event>) {
    forall n :: 0 <= n <= |events| ==> CacheCovers(After(INITIAL, events, n))
  }

  ghost predicate UpdatesCovered(events: seq<Event>) {
    forall i :: 0 <= i < |events| ==> UpdateIsCovered(After(INITIAL, events, i), events[i])
  }

  lemma {:induction false} CoversWhileCovered(events: seq<Event>, n: nat)
    requires n <= |events| && UpdatesCovered(events)
    ensures CacheCovers(After(INITIAL, events, n))
  {
    if n > 0 {
      CoversWhileCovered(events, n - 1);
      InvAlways(events, n - 1);
      CoverStepIff(After(INITIAL, events, n - 1), events[n - 1]);
    }
  }

  /** Over whole runs: memory covers the database all along exactly when every update is covered. */
  lemma CoversRunIff(events: seq<Event>)
    ensures CoversThroughout(events) <==> UpdatesCovered(events)
  {
    if UpdatesCovered(events) {
      forall n | 0 <= n <= |events|
        ensures CacheCovers(After(INITIAL, events, n))
      {
        CoversWhileCovered(events, n);
      }
    }
    if CoversThroughout(events) {
      forall i | 0 <= i < |events|
        ensures UpdateIsCovered(After(INITIAL, events, i), events[i])
      {
        assert CacheCovers(After(INITIAL, events, i)) && CacheCovers(After(INITIAL, events, i + 1));
        InvAlways(events, i);
        CoverStepIff(After(INITIAL, events, i), events[i]);
      }
    }
  }

  lemma CacheCoversStep(s: State, e: Event)
    requires Inv(s) && CacheCovers(s) && SelectionsCurrent(s)
    ensures CacheCovers(Next(s, e))
  {
    CoverStepIff(s, e);
  }

  lemma NoNewBlacklisting(s: State, e: Event, h: U64)
    requires !Updates(s, e)
    requires h in BlacklistedHashes(Next(s, e).db)
    ensures h in BlacklistedHashes(s.db)
  {
    var k :| k in Next(s, e).db.jwts && Next(s, e).db.jwts[k].blacklisted && AsU64(k) == h;
    assert k in s.db.jwts && s.db.jwts[k].blacklisted;
  }

  ghost predicate NeverOvertaken(events: seq<Event>) {
    forall i :: 0 <= i < |events| ==> NoOvertaking(After(INITIAL, events, i), events[i])
  }

  ghost predicate CacheInv(s: State) {
    Inv(s) && CacheCovers(s) && SelectionsCurrent(s)
  }

  lemma CacheInvStep(s: State, e: Event)
    requires CacheInv(s) && NoOvertaking(s, e)
    ensures CacheInv(Next(s, e))
  {
    InvStep(s, e);
    CacheCoversStep(s, e);
    SelectionsStayCurrent(s, e);
  }

  lemma CacheInvInitial()
    ensures CacheInv(INITIAL)
  {
  }

  lemma {:induction false} CacheInvAlways(events: seq<Event>, n: nat)
    requires n <= |events| && NeverOvertaken(events)
    ensures CacheInv(After(INITIAL, events, n))
  {
    if n == 0 {
      CacheInvInitial();
    } else {
      CacheInvAlways(events, n - 1);
      CacheInvStep(After(INITIAL, events, n - 1), events[n - 1]);
    }
  }

  // ---------- Memory holds nothing else of use ----------

  /** The hash belongs to a signed token that is not waiting to be registered. */
  predicate Taken(s: State, h: U64) {
    h in s.hashes && forall id :: id in s.tasks && s.tasks[id].Registering? ==> s.tasks[id].jwt.hash != h
  }

  predicate IssuedExpired(s: State, h: U64) {
    forall jwt :: jwt in s.issued && jwt.hash == h ==> Expired(jwt, s.now)
  }

  /** Past use: the row is blacklisted, or the token has expired. */
  predicate Settled(s: State, h: U64) {
    Taken(s, h) && (h in BlacklistedHashes(s.db) || IssuedExpired(s, h))
  }

  predicate RowOrExpired(s: State, h: U64, user: string) {
    && Taken(s, h)
    && ((AsI64(h) in s.db.jwts && s.db.jwts[AsI64(h)].user == user) || IssuedExpired(s, h))
  }

  ghost predicate RowsTaken(s: State) {
    forall k :: k in s.db.jwts ==> Taken(s, AsU64(k))
  }

  ghost predicate RegistrationsDistinct(s: State) {
    && (forall id :: id in s.tasks && s.tasks[id].Registering? ==> s.tasks[id].jwt.hash in s.hashes)
    && (forall id, id' :: id in s.tasks && id' in s.tasks && id != id' ==>
                            s.tasks[id].Registering? && s.tasks[id'].Registering? ==>
                              s.tasks[id].jwt.hash != s.tasks[id'].jwt.hash)
  }

  ghost predicate MemorySettled(s: State) {
    forall h :: h in s.blacklist ==> Settled(s, h)
  }

  ghost predicate LogoutsSettle(s: State) {
    forall id, h :: id in s.tasks ==> SelectionSettles(s, s.tasks[id], h)
  }

  ghost predicate SelectionSettles(s: State, task: Task, h: U64) {
    && (task.LogoutInserting? && h in task.selected ==> Settled(s, h))
    && (task.LogoutUpdating? && h in task.selected ==> RowOrExpired(s, h, task.user))
  }

  /** Hashes are used once, and everything in memory or on its way there is past use. */
  ghost predicate Exact(s: State) {
    RowsTaken(s) && RegistrationsDistinct(s) && MemorySettled(s) && LogoutsSettle(s)
  }

  /** Distinct tokens have distinct hashes. */
  predicate FreshHash(s: State, e: Event) {
    e.Run? && e.task in s.tasks && s.tasks[e.task].Minting? ==> e.choice.hash !in s.hashes
  }

  predicate WasIssued(s: State, h: U64) {
    exists jwt :: jwt in s.issued && jwt.hash == h
  }

  predicate Selects(task: Task, h: U64) {
    (task.LogoutUpdating? || task.LogoutInserting?) && h in task.selected
  }

  /** Every hash in the table, in memory or on its way there is that of a token handed out. */
  ghost predicate AllIssued(s: State) {
    && (forall k :: k in s.db.jwts ==> WasIssued(s, AsU64(k)))
    && (forall h :: h in s.blacklist ==> WasIssued(s, h))
    && (forall id, h :: id in s.tasks && Selects(s.tasks[id], h) ==> WasIssued(s, h))
  }

  lemma IssuedStays(s: State, e: Event, h: U64)
    requires WasIssued(s, h)
    ensures WasIssued(Next(s, e), h)
  {
    var jwt :| jwt in s.issued && jwt.hash == h;
    assert jwt in Next(s, e).issued;
  }

  lemma RowIssued(s: State, e: Event, k: I64)
    requires AllIssued(s) && k in Next(s, e).db.jwts
    ensures WasIssued(Next(s, e), AsU64(k))
  {
    if k in s.db.jwts {
      IssuedStays(s, e, AsU64(k));
    } else {
      var jwt := s.tasks[e.task].jwt;
      CastsUndoEachOther(jwt.hash, k);
      assert jwt in Next(s, e).issued;
    }
  }

  lemma SelectionIssued(s: State, e: Event, id: nat, h: U64)
    requires AllIssued(s) && id in Next(s, e).tasks && Selects(Next(s, e).tasks[id], h)
    ensures WasIssued(Next(s, e), h)
  {
    if !(id in s.tasks && Selects(s.tasks[id], h)) {
      assert h in ValidHashes(s.db, s.tasks[id].user);
    }
    IssuedStays(s, e, h);
  }

  lemma MemoryIssued(s: State, e: Event, h: U64)
    requires AllIssued(s) && h in Next(s, e).blacklist
    ensures WasIssued(Next(s, e), h)
  {
    if h !in s.blacklist {
      assert e.Restart? || Selects(s.tasks[e.task], h);
      if e.Restart? {
        var k :| k in s.db.jwts && s.db.jwts[k].blacklisted && AsU64(k) == h;
      }
    }
    IssuedStays(s, e, h);
  }

  lemma {:induction false} AllIssuedAlways(events: seq<Event>, n: nat)
    requires n <= |events|
    ensures AllIssued(After(INITIAL, events, n))
  {
    if n > 0 {
      AllIssuedAlways(events, n - 1);
      var s, e := After(INITIAL, events, n - 1), events[n - 1];
      forall k | k in Next(s, e).db.jwts { RowIssued(s, e, k); }
      forall h | h in Next(s, e).blacklist { MemoryIssued(s, e, h); }
      forall id, h | id in Next(s, e).tasks && Selects(Next(s, e).tasks[id], h) { SelectionIssued(s, e, id, h); }
    }
  }

  lemma TakenStays(s: State, e: Event, h: U64)
    requires FreshHash(s, e) && Taken(s, h)
    ensures Taken(Next(s, e), h)
    ensures IssuedExpired(s, h) ==> IssuedExpired(Next(s, e), h)
  {
  }

  lemma CleanedRowExpired(s: State, h: U64)
    requires Inv(s) && AsI64(h) in s.db.jwts && s.db.jwts[AsI64(h)].expiry < s.now
    ensures IssuedExpired(s, h)
  {
    forall jwt | jwt in s.issued && jwt.hash == h
      ensures Expired(jwt, s.now)
    {
      if HasRow(s, jwt) {
        RowOutlivesToken(jwt, s.db.jwts[AsI64(h)].expiry, s.now);
      }
    }
  }

  lemma SettledStays(s: State, e: Event, h: U64)
    requires Inv(s) && FreshHash(s, e) && Settled(s, h)
    ensures Settled(Next(s, e), h)
  {
    TakenStays(s, e, h);
    if h in BlacklistedHashes(s.db) {
      var k :| k in s.db.jwts && s.db.jwts[k].blacklisted && AsU64(k) == h;
      CastsUndoEachOther(h, k);
      var s' := Next(s, e);
      if e.CleanJwtTable? && s.db.jwts[k].expiry < s.now {
        CleanedRowExpired(s, h);
      } else {
        assert k in s'.db.jwts && s'.db.jwts[k].blacklisted;
      }
    }
  }

  lemma RowOrExpiredStays(s: State, e: Event, h: U64, user: string)
    requires Inv(s) && FreshHash(s, e) && RowOrExpired(s, h, user)
    ensures RowOrExpired(Next(s, e), h, user)
  {
    TakenStays(s, e, h);
    if AsI64(h) in s.db.jwts && s.db.jwts[AsI64(h)].user == user {
      if e.CleanJwtTable? && s.db.jwts[AsI64(h)].expiry < s.now {
        CleanedRowExpired(s, h);
      } else {
        assert AsI64(h) in Next(s, e).db.jwts && Next(s, e).db.jwts[AsI64(h)].user == user;
      }
    }
  }

  lemma UpdateSettles(s: State, id: nat, c: Choice, h: U64)
    requires id in s.tasks && s.tasks[id].LogoutUpdating? && !c.fails
    requires RowOrExpired(s, h, s.tasks[id].user)
    ensures Settled(Next(s, Run(id, c)), h)
  {
    var s' := Next(s, Run(id, c));
    TakenStays(s, Run(id, c), h);
    var k := AsI64(h);
    CastsUndoEachOther(h, k);
    if k in s.db.jwts && s.db.jwts[k].user == s.tasks[id].user {
      assert k in s'.db.jwts && s'.db.jwts[k].blacklisted;
      assert AsU64(k) in BlacklistedHashes(s'.db);
    }
  }

  lemma ExactRows(s: State, e: Event, k: I64)
    requires Exact(s) && FreshHash(s, e) && k in Next(s, e).db.jwts
    ensures Taken(Next(s, e), AsU64(k))
  {
    if k in s.db.jwts {
      TakenStays(s, e, AsU64(k));
    } else {
      NewRowTaken(s, e, k);
    }
  }

  lemma NewRowTaken(s: State, e: Event, k: I64)
    requires RegistrationsDistinct(s) && k in Next(s, e).db.jwts && k !in s.db.jwts
    ensures Taken(Next(s, e), AsU64(k))
  {
    assert e.Run? && e.task in s.tasks && s.tasks[e.task].Registering?;
    CastsUndoEachOther(s.tasks[e.task].jwt.hash, k);
  }

  lemma ExactTasks(s: State, e: Event, id: nat, h: U64)
    requires Inv(s) && Exact(s) && FreshHash(s, e) && id in Next(s, e).tasks
    ensures SelectionSettles(Next(s, e), Next(s, e).tasks[id], h)
  {
    var s' := Next(s, e);
    var task := s'.tasks[id];
    assert id in s.tasks ==> SelectionSettles(s, s.tasks[id], h);
    if task.LogoutInserting? && h in task.selected {
      if id in s.tasks && s.tasks[id] == task {
        SettledStays(s, e, h);
      } else {
        UpdateSettles(s, id, e.choice, h);
      }
    }
    if task.LogoutUpdating? && h in task.selected {
      if id in s.tasks && s.tasks[id] == task {
        RowOrExpiredStays(s, e, h, task.user);
      } else {
        var k :| k in s.db.jwts && s.db.jwts[k].user == task.user && !s.db.jwts[k].blacklisted && AsU64(k) == h;
        CastsUndoEachOther(h, k);
        TakenStays(s, e, h);
      }
    }
  }

  lemma ExactMemory(s: State, e: Event, h: U64)
    requires Inv(s) && Exact(s) && FreshHash(s, e) && h in Next(s, e).blacklist
    ensures Settled(Next(s, e), h)
  {
    if e.Restart? {
      var k :| k in s.db.jwts && s.db.jwts[k].blacklisted && AsU64(k) == h;
      assert h in BlacklistedHashes(Next(s, e).db);
    } else {
      if h !in s.blacklist {
        assert SelectionSettles(s, s.tasks[e.task], h);
      }
      SettledStays(s, e, h);
    }
  }

  lemma RegistrationsStayDistinct(s: State, e: Event)
    requires Inv(s) && RegistrationsDistinct(s) && FreshHash(s, e)
    ensures RegistrationsDistinct(Next(s, e))
  {
  }

  lemma ExactStep(s: State, e: Event)
    requires Inv(s) && Exact(s) && FreshHash(s, e)
    ensures Exact(Next(s, e))
  {
    RegistrationsStayDistinct(s, e);
    assert RowsTaken(Next(s, e)) by {
      forall k | k in Next(s, e).db.jwts { ExactRows(s, e, k); }
    }
    assert MemorySettled(Next(s, e)) by {
      forall h | h in Next(s, e).blacklist { ExactMemory(s, e, h); }
    }
    assert LogoutsSettle(Next(s, e)) by {
      forall id, h | id in Next(s, e).tasks { ExactTasks(s, e, id, h); }
    }
  }

  ghost predicate HashesDistinct(events: seq<Event>) {
    forall i :: 0 <= i < |events| ==> FreshHash(After(INITIAL, events, i), events[i])
  }

  lemma {:induction false} ExactUntil(events: seq<Event>, n: nat)
    requires n <= |events| && HashesDistinct(events)
    ensures Exact(After(INITIAL, events, n))
  {
    if n > 0 {
      ExactUntil(events, n - 1);
      InvAlways(events, n - 1);
      ExactStep(After(INITIAL, events, n - 1), events[n - 1]);
    }
  }

  /** In every reachable state, with distinct hashes: whatever is in memory or on its way there is the
      hash of a token handed out, and is blacklisted on disk or has expired. */
  lemma ExactAlways(events: seq<Event>, n: nat)
    requires n <= |events| && HashesDistinct(events)
    ensures Exact(After(INITIAL, events, n)) && AllIssued(After(INITIAL, events, n))
  {
    ExactUntil(events, n);
    AllIssuedAlways(events, n);
  }

  predicate NoLogoutInserting(s: State) {
    forall id :: id in s.tasks ==> !s.tasks[id].LogoutInserting?
  }

  /** The cache agrees with the database in every state of a run whose logouts are not overtaken:
      between logouts memory holds every blacklisted hash, and whatever else it holds is the hash of
      a token handed out that has expired. */
  lemma CacheAgrees(events: seq<Event>, n: nat)
    requires n <= |events| && NeverOvertaken(events) && HashesDistinct(events)
    ensures var s := After(INITIAL, events, n);
            && (NoLogoutInserting(s) ==> BlacklistedHashes(s.db) <= s.blacklist)
            && (forall h :: h in s.blacklist && h !in BlacklistedHashes(s.db) ==> WasIssued(s, h) && IssuedExpired(s, h))
  {
    CacheInvAlways(events, n);
    ExactAlways(events, n);
  }

  // ---------- The race ----------

  /** A logout of the user that selects before a token of theirs is registered and updates after. */
  function Race(user: string, hash: U64): seq<Event> {
    var c := Choice(hash, {}, false);
    [Logout(0, user), Run(0, c), Run(0, c),
     Login(user, {}), Run(1, c), Run(1, c), Run(1, c),
     Run(0, c), Run(0, c)]
  }

  function RaceToken(user: string, hash: U64): Jwt {
    Jwt(hash, user, {}, Seconds(JWT_LIFETIME))
  }

  lemma NothingValid(t: Tables, user: string)
    requires forall k :: k in t.jwts ==> t.jwts[k].blacklisted
    ensures ValidHashes(t, user) == {}
  {
  }

  lemma RaceUpToSelect(user: string, hash: U64)
    ensures var s := After(INITIAL, Race(user, hash), 3);
            s == INITIAL.(tasks := map[0 := LogoutUpdating(user, {})], nextTask := 1)
  {
    var events, c := Race(user, hash), Choice(hash, {}, false);
    Unroll(INITIAL, events, 0);
    Unroll(INITIAL, events, 1);
    SoloDelete(INITIAL, 0, user, c);
    Unroll(INITIAL, events, 2);
    SoloSelect(INITIAL, DeleteRefresh(INITIAL.db, 0), user, c);
    NothingValid(DeleteRefresh(INITIAL.db, 0), user);
    assert DeleteRefresh(INITIAL.db, 0) == INITIAL.db;
  }

  lemma RaceUpToMinting(user: string, hash: U64)
    ensures var s := After(INITIAL, Race(user, hash), 5);
            && s.tasks == map[0 := LogoutUpdating(user, {}), 1 := Minting(user, {}, ByPassword)] && s.nextTask == 2
            && s.db.jwts == map[] && s.issued == {} && s.now == 0 && s.blacklist == {}
  {
    var events := Race(user, hash);
    RaceUpToSelect(user, hash);
    Unroll(INITIAL, events, 3);
    var s4 := After(INITIAL, events, 4);
    var out := LogoutUpdating(user, {});
    assert s4 == INITIAL.(tasks := map[0 := out, 1 := InsertingRefresh(user, {})], nextTask := 2);
    Unroll(INITIAL, events, 4);
    assert After(INITIAL, events, 5).tasks == map[0 := out, 1 := Minting(user, {}, ByPassword)];
  }

  lemma RaceUpToRegistration(user: string, hash: U64)
    ensures var s, jwt := After(INITIAL, Race(user, hash), 7), RaceToken(user, hash);
            && s.tasks == map[0 := LogoutUpdating(user, {})] && s.nextTask == 2
            && s.db.jwts == map[AsI64(hash) := JwtRow(user, false, JWT_LIFETIME)]
            && s.issued == {jwt} && s.now == 0 && s.blacklist == {}
  {
    var events, jwt := Race(user, hash), RaceToken(user, hash);
    RaceUpToMinting(user, hash);
    var out := LogoutUpdating(user, {});
    Unroll(INITIAL, events, 5);
    var s6 := After(INITIAL, events, 6);
    assert s6.tasks == map[0 := out, 1 := Registering(jwt, JWT_LIFETIME, ByPassword)];
    Unroll(INITIAL, events, 6);
    assert After(INITIAL, events, 7).tasks == map[0 := out];
  }

  lemma RaceToTheEnd(user: string, hash: U64)
    ensures var s, jwt := After(INITIAL, Race(user, hash), 9), RaceToken(user, hash);
            && s.tasks == map[] && s.now == 0 && s.blacklist == {} && s.issued == {jwt}
            && s.db.jwts == map[AsI64(hash) := JwtRow(user, true, JWT_LIFETIME)]
  {
    var events := Race(user, hash);
    RaceUpToRegistration(user, hash);
    var s8 := After(INITIAL, events, 8);
    assert s8.tasks == map[0 := LogoutInserting(user, {})];
    assert s8.db.jwts == map[AsI64(hash) := JwtRow(user, true, JWT_LIFETIME)];
  }

  // ---------- Forgotten tokens ----------

  /** Blacklisted on disk, not in memory, and no logout is about to put it there. */
  ghost predicate Forgotten(s: State, jwt: Jwt) {
    && HasBlacklistedRow(s, jwt) && jwt.hash !in s.blacklist
    && forall id :: id in s.tasks ==> !Selects(s.tasks[id], jwt.hash)
  }

  lemma NotSelected(t: Tables, user: string, h: U64)
    requires AsI64(h) in t.jwts && t.jwts[AsI64(h)].blacklisted
    ensures h !in ValidHashes(t, user)
  {
    forall k | k in t.jwts && AsU64(k) == h
      ensures t.jwts[k].blacklisted
    {
      CastsUndoEachOther(h, k);
    }
  }

  lemma NeverSelected(s: State, e: Event, jwt: Jwt, id: nat)
    requires Forgotten(s, jwt) && id in Next(s, e).tasks
    ensures !Selects(Next(s, e).tasks[id], jwt.hash)
  {
    if id in s.tasks && s.tasks[id].LogoutSelecting? {
      NotSelected(s.db, s.tasks[id].user, jwt.hash);
    }
  }

  lemma ForgottenStep(s: State, e: Event, jwt: Jwt)
    requires Forgotten(s, jwt) && !e.Restart? && !Expired(jwt, Next(s, e).now)
    ensures Forgotten(Next(s, e), jwt)
  {
    RowSurvives(s, e, jwt);
    forall id | id in Next(s, e).tasks
      ensures !Selects(Next(s, e).tasks[id], jwt.hash)
    {
      NeverSelected(s, e, jwt, id);
    }
    MemoryStep(s, e, jwt.hash);
  }

  lemma MemoryStep(s: State, e: Event, h: U64)
    requires !e.Restart?
    ensures h in Next(s, e).blacklist ==> h in s.blacklist || (e.Run? && e.task in s.tasks && Selects(s.tasks[e.task], h))
  {
  }

  ghost predicate NoRestart(events: seq<Event>) {
    forall i :: 0 <= i < |events| ==> !events[i].Restart?
  }

  lemma {:induction false} ForgottenUntil(s: State, events: seq<Event>, n: nat, jwt: Jwt)
    requires n <= |events| && NoRestart(events) && Forgotten(s, jwt) && !Expired(jwt, After(s, events, n).now)
    ensures Forgotten(After(s, events, n), jwt)
  {
    if n > 0 {
      assert After(s, events, n - 1).now <= After(s, events, n).now;
      ForgottenUntil(s, events, n - 1, jwt);
      ForgottenStep(After(s, events, n - 1), events[n - 1], jwt);
    }
  }

  /** Until the next restart a forgotten token is accepted exactly until it expires, whatever else
      happens, logouts of its user included; a restart before that ends it. */
  lemma ForgottenIsAccepted(lower: char -> string, s: State, events: seq<Event>, n: nat, jwt: Jwt)
    requires n <= |events| && NoRestart(events) && Forgotten(s, jwt)
    ensures var t := After(s, events, n);
            && (CheckToken(lower, t, Signed(jwt, true)).Accepted? <==> !Expired(jwt, t.now))
            && CheckToken(lower, Next(t, Restart), Signed(jwt, true)).Rejected?
  {
    var t := After(s, events, n);
    if !Expired(jwt, t.now) {
      ForgottenUntil(s, events, n, jwt);
      CastsUndoEachOther(jwt.hash, AsI64(jwt.hash));
      assert AsU64(AsI64(jwt.hash)) in BlacklistedHashes(t.db);
    }
  }

  /** The race is real: it leaves a token forgotten. */
  lemma RaceForgets(user: string, hash: U64)
    ensures var s, jwt := After(INITIAL, Race(user, hash), 9), RaceToken(user, hash);
            jwt in s.issued && s.tasks == map[] && Forgotten(s, jwt) && !CacheCovers(s)
  {
    RaceToTheEnd(user, hash);
    var s, key := After(INITIAL, Race(user, hash), 9), AsI64(hash);
    CastsUndoEachOther(hash, key);
    assert AsU64(key) in BlacklistedHashes(s.db);
  }

  /** So any run that goes on from there without a restart, with any number of logouts of the user,
      leaves the token accepted until it expires. */
  lemma RaceLeavesTokenAccepted(lower: char -> string, user: string, hash: U64, events: seq<Event>, n: nat)
    requires n <= |events| && NoRestart(events)
    ensures var s, jwt := After(After(INITIAL, Race(user, hash), 9), events, n), RaceToken(user, hash);
            && (CheckToken(lower, s, Signed(jwt, true)).Accepted? <==> !Expired(jwt, s.now))
            && CheckToken(lower, Next(s, Restart), Signed(jwt, true)).Rejected?
  {
    RaceForgets(user, hash);
    ForgottenIsAccepted(lower, After(INITIAL, Race(user, hash), 9), events, n, RaceToken(user, hash));
  }
}
