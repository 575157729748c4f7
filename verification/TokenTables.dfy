/**
 The three token tables and the SQL statements issued against them, as functions
 on table contents, and the backend object whose methods run those statements.
 */
module TokenTables {
  import opened Basics

  // ---------- Hash columns ----------

  type U64 = x: int | 0 <= x < 0x1_0000_0000_0000_0000
  type I64 = x: int | -0x8000_0000_0000_0000 <= x < 0x8000_0000_0000_0000

  // `as i64` and `as u64` keep the 64 bits.
  function AsI64(u: U64): I64 {
    if u < 0x8000_0000_0000_0000 then u else u - 0x1_0000_0000_0000_0000
  }

  function AsU64(i: I64): U64 {
    if i >= 0 then i else i + 0x1_0000_0000_0000_0000
  }

  /** Storing a hash loses nothing: both casts undo each other. */
  lemma CastsUndoEachOther(u: U64, i: I64)
    ensures AsU64(AsI64(u)) == u && AsI64(AsU64(i)) == i
    ensures AsI64(u) == i <==> u == AsU64(i)
  {
  }

  // ---------- Time ----------

  // Instants are in nanoseconds, the resolution of the clock and of the expiry columns.
  const SECOND := 1_000_000_000
  const MINUTE := 60 * SECOND
  const DAY := 24 * 60 * MINUTE

  const JWT_LIFETIME := DAY
  const REFRESH_LIFETIME := 30 * DAY
  const RESET_LIFETIME := 10 * MINUTE

  // ---------- Tables ----------

  datatype JwtRow = JwtRow(user: string, blacklisted: bool, expiry: int)
  datatype RefreshRow = RefreshRow(user: string, expiry: int)
  datatype ResetRow = ResetRow(user: string, expiry: int)

  datatype Tables = Tables(
    jwts: map<I64, JwtRow>,
    refreshes: map<I64, RefreshRow>,
    resets: map<string, ResetRow>)

  // get_jwt_blacklist
  function BlacklistedHashes(t: Tables): set<U64> {
    set k | k in t.jwts && t.jwts[k].blacklisted :: AsU64(k)
  }

  // An insert fails on a primary key that is taken.
  function InsertJwt(t: Tables, hash: U64, user: string, expiry: int): Option<Tables> {
    if AsI64(hash) in t.jwts then None
    else Some(t.(jwts := t.jwts[AsI64(hash) := JwtRow(user, false, expiry)]))
  }

  function InsertRefresh(t: Tables, hash: U64, user: string, expiry: int): Option<Tables> {
    if AsI64(hash) in t.refreshes then None
    else Some(t.(refreshes := t.refreshes[AsI64(hash) := RefreshRow(user, expiry)]))
  }

  function InsertReset(t: Tables, token: string, user: string, expiry: int): Option<Tables> {
    if token in t.resets then None else Some(t.(resets := t.resets[token := ResetRow(user, expiry)]))
  }

  // check_token does not look at the expiry date.
  predicate HasRefresh(t: Tables, hash: U64, user: string) {
    AsI64(hash) in t.refreshes && t.refreshes[AsI64(hash)].user == user
  }

  // The select of blacklist_jwts.
  function ValidHashes(t: Tables, user: string): set<U64> {
    set k | k in t.jwts && t.jwts[k].user == user && !t.jwts[k].blacklisted :: AsU64(k)
  }

  // The update of blacklist_jwts.
  function BlacklistUser(t: Tables, user: string): Tables {
    t.(jwts := map k | k in t.jwts ::
         if t.jwts[k].user == user then t.jwts[k].(blacklisted := true) else t.jwts[k])
  }

  function DeleteRefresh(t: Tables, hash: U64): Tables {
    t.(refreshes := t.refreshes - {AsI64(hash)})
  }

  // get_user_id_for_password_reset_token
  function ResetUser(t: Tables, token: string, now: int): Option<string> {
    if token in t.resets && t.resets[token].expiry > now then Some(t.resets[token].user) else None
  }

  function DeleteReset(t: Tables, token: string): Tables {
    t.(resets := t.resets - {token})
  }

  // The three statements of cleanup_db.
  function CleanRefreshes(t: Tables, now: int): Tables {
    t.(refreshes := map k | k in t.refreshes && !(t.refreshes[k].expiry < now) :: t.refreshes[k])
  }

  function CleanJwts(t: Tables, now: int): Tables {
    t.(jwts := map k | k in t.jwts && !(t.jwts[k].expiry < now) :: t.jwts[k])
  }

  function CleanResets(t: Tables, now: int): Tables {
    t.(resets := map k | k in t.resets && !(t.resets[k].expiry < now) :: t.resets[k])
  }

  // ---------- What the queries see of the statements ----------

  /** The two selects on the JWT table, by hash. */
  lemma HashQueries(t: Tables, hash: U64, user: string)
    ensures hash in ValidHashes(t, user) <==>
              AsI64(hash) in t.jwts && t.jwts[AsI64(hash)].user == user && !t.jwts[AsI64(hash)].blacklisted
    ensures hash in BlacklistedHashes(t) <==> AsI64(hash) in t.jwts && t.jwts[AsI64(hash)].blacklisted
  {
    var key := AsI64(hash);
    CastsUndoEachOther(hash, key);
    forall k: I64 | AsU64(k) == hash
      ensures k == key
    {
      CastsUndoEachOther(hash, k);
    }
    assert key in t.jwts ==> AsU64(key) == hash;
  }

  /** A registered hash becomes valid for its user; no other hash changes. */
  lemma RegistrationSeen(t: Tables, hash: U64, user: string, expiry: int, u: string)
    requires InsertJwt(t, hash, user, expiry).Some?
    ensures var t' := InsertJwt(t, hash, user, expiry).value;
            && ValidHashes(t', u) == (if u == user then ValidHashes(t, u) + {hash} else ValidHashes(t, u))
            && BlacklistedHashes(t') == BlacklistedHashes(t)
  {
    var t' := InsertJwt(t, hash, user, expiry).value;
    forall h
      ensures h in ValidHashes(t', u) <==> h in ValidHashes(t, u) || (u == user && h == hash)
      ensures h in BlacklistedHashes(t') <==> h in BlacklistedHashes(t)
    {
      HashQueries(t, h, u);
      HashQueries(t', h, u);
      CastsUndoEachOther(h, AsI64(hash));
      CastsUndoEachOther(hash, AsI64(hash));
    }
  }

  /** Blacklisting leaves a user no valid hash and moves them all to the blacklist; other users keep
      theirs. */
  lemma BlacklistingSeen(t: Tables, user: string, u: string)
    ensures ValidHashes(BlacklistUser(t, user), u) == if u == user then {} else ValidHashes(t, u)
    ensures BlacklistedHashes(BlacklistUser(t, user)) == BlacklistedHashes(t) + ValidHashes(t, user)
  {
    var t' := BlacklistUser(t, user);
    forall h
      ensures h in ValidHashes(t', u) <==> u != user && h in ValidHashes(t, u)
      ensures h in BlacklistedHashes(t') <==> h in BlacklistedHashes(t) || h in ValidHashes(t, user)
    {
      HashQueries(t, h, u);
      HashQueries(t, h, user);
      HashQueries(t', h, u);
    }
  }

  /** A new refresh token is accepted for its user only, and the others as before. */
  lemma RefreshInsertSeen(t: Tables, hash: U64, user: string, expiry: int, h: U64, u: string)
    requires InsertRefresh(t, hash, user, expiry).Some?
    ensures HasRefresh(InsertRefresh(t, hash, user, expiry).value, h, u) <==>
              if h == hash then u == user else HasRefresh(t, h, u)
  {
    CastsUndoEachOther(h, AsI64(hash));
    CastsUndoEachOther(hash, AsI64(hash));
  }

  lemma RefreshDeleteSeen(t: Tables, hash: U64, h: U64, u: string)
    ensures HasRefresh(DeleteRefresh(t, hash), h, u) <==> h != hash && HasRefresh(t, h, u)
  {
    CastsUndoEachOther(h, AsI64(hash));
    CastsUndoEachOther(hash, AsI64(hash));
  }

  function CleanAll(t: Tables, now: int): Tables {
    CleanResets(CleanJwts(CleanRefreshes(t, now), now), now)
  }

  /** A row stays, unchanged, exactly if its expiry is not past, and no look-up of a reset token from
      that instant on notices. */
  ghost predicate IsCleaned(t: Tables, t': Tables, now: int) {
    && (forall k :: k in t'.jwts <==> k in t.jwts && t.jwts[k].expiry >= now)
    && (forall k :: k in t'.jwts ==> t'.jwts[k] == t.jwts[k])
    && (forall k :: k in t'.refreshes <==> k in t.refreshes && t.refreshes[k].expiry >= now)
    && (forall k :: k in t'.refreshes ==> t'.refreshes[k] == t.refreshes[k])
    && (forall k :: k in t'.resets <==> k in t.resets && t.resets[k].expiry >= now)
    && (forall token, at :: now <= at ==> ResetUser(t', token, at) == ResetUser(t, token, at))
  }

  lemma CleaningSeen(t: Tables, now: int)
    ensures IsCleaned(t, CleanAll(t, now), now)
  {
    var t' := CleanAll(t, now);
    forall token, at | now <= at
      ensures ResetUser(t', token, at) == ResetUser(t, token, at)
    {
      assert token in t'.resets <==> token in t.resets && t.resets[token].expiry >= now;
    }
  }

  // ---------- The backend ----------

  /** SqlBackendHandler's token statements, on tables updated in place. Each method states the new
      tables and what the queries then see. */
  class SqlBackend {
    var jwts: map<I64, JwtRow>
    var refreshes: map<I64, RefreshRow>
    var resets: map<string, ResetRow>

    function View(): Tables
      reads this
    {
      Tables(jwts, refreshes, resets)
    }

    constructor ()
      ensures View() == Tables(map[], map[], map[])
    {
      jwts, refreshes, resets := map[], map[], map[];
    }

    /** register_jwt: the hash is then valid for its user; no other hash changes. */
    method RegisterJwt(user: string, hash: U64, expiry: int) returns (ok: bool)
      modifies this
      ensures ok == InsertJwt(old(View()), hash, user, expiry).Some?
      ensures View() == if ok then InsertJwt(old(View()), hash, user, expiry).value else old(View())
      ensures ok ==>
                && hash in ValidHashes(View(), user)
                && (forall u :: ValidHashes(View(), u)
                                == if u == user then ValidHashes(old(View()), u) + {hash} else ValidHashes(old(View()), u))
                && BlacklistedHashes(View()) == BlacklistedHashes(old(View()))
    {
      ghost var t := View();
      ok := AsI64(hash) !in jwts;
      if ok {
        jwts := jwts[AsI64(hash) := JwtRow(user, false, expiry)];
        forall u {
          RegistrationSeen(t, hash, user, expiry, u);
        }
      }
    }

    /** create_refresh_token: accepted for its user and nobody else, and the others as before. */
    method CreateRefreshToken(user: string, hash: U64, now: int) returns (ok: bool)
      modifies this
      ensures ok == InsertRefresh(old(View()), hash, user, now + REFRESH_LIFETIME).Some?
      ensures View() == if ok then InsertRefresh(old(View()), hash, user, now + REFRESH_LIFETIME).value else old(View())
      ensures ok ==> forall h, u :: HasRefresh(View(), h, u) <==> if h == hash then u == user else HasRefresh(old(View()), h, u)
    {
      ghost var t := View();
      ok := AsI64(hash) !in refreshes;
      if ok {
        refreshes := refreshes[AsI64(hash) := RefreshRow(user, now + REFRESH_LIFETIME)];
        forall h, u {
          RefreshInsertSeen(t, hash, user, now + REFRESH_LIFETIME, h, u);
        }
      }
    }

    /** blacklist_jwts, a select followed by an update: the user is left no valid hash, those there
        were are returned and blacklisted, and no other user notices. */
    method BlacklistJwts(user: string) returns (newlyBlacklisted: set<U64>)
      modifies this
      ensures newlyBlacklisted == ValidHashes(old(View()), user)
      ensures View() == BlacklistUser(old(View()), user)
      ensures forall u :: ValidHashes(View(), u) == if u == user then {} else ValidHashes(old(View()), u)
      ensures BlacklistedHashes(View()) == BlacklistedHashes(old(View())) + newlyBlacklisted
    {
      ghost var t := View();
      newlyBlacklisted := set k | k in jwts && jwts[k].user == user && !jwts[k].blacklisted :: AsU64(k);
      jwts := map k | k in jwts ::
        if jwts[k].user == user then jwts[k].(blacklisted := true) else jwts[k];
      forall u {
        BlacklistingSeen(t, user, u);
      }
    }

    /** delete_refresh_token: this token is accepted no more, the others as before. */
    method DeleteRefreshToken(hash: U64)
      modifies this
      ensures View() == DeleteRefresh(old(View()), hash)
      ensures forall h, u :: HasRefresh(View(), h, u) <==> h != hash && HasRefresh(old(View()), h, u)
    {
      ghost var t := View();
      refreshes := refreshes - {AsI64(hash)};
      forall h, u {
        RefreshDeleteSeen(t, hash, h, u);
      }
    }

    /** start_password_reset: for a known user, the token is then found for ten minutes and names that
        user; the other tokens are found as before. */
    method StartPasswordReset(user: string, isKnown: bool, token: string, now: int) returns (ok: bool)
      modifies this
      ensures ok <==> isKnown && InsertReset(old(View()), token, user, now + RESET_LIFETIME).Some?
      ensures View() == if ok then InsertReset(old(View()), token, user, now + RESET_LIFETIME).value else old(View())
      ensures ok ==> forall t, at :: ResetUser(View(), t, at)
                                     == if t != token then ResetUser(old(View()), t, at)
                                        else if at < now + RESET_LIFETIME then Some(user) else None
    {
      if !isKnown {
        return false;
      }
      ok := token !in resets;
      if ok {
        resets := resets[token := ResetRow(user, now + RESET_LIFETIME)];
      }
    }

    /** delete_password_reset_token: never found again, the others as before; deleting no row is an
        error. */
    method DeletePasswordResetToken(token: string) returns (ok: bool)
      modifies this
      ensures ok <==> token in old(View()).resets
      ensures View() == DeleteReset(old(View()), token)
      ensures forall t, at :: ResetUser(View(), t, at) == if t == token then None else ResetUser(old(View()), t, at)
    {
      ok := token in resets;
      resets := resets - {token};
    }

    /** cleanup_db: a row stays, unchanged, exactly if its expiry is not past, and no look-up of a
        reset token from now on notices. */
    method CleanupDb(now: int)
      modifies this
      ensures View() == CleanAll(old(View()), now)
      ensures IsCleaned(old(View()), View(), now)
    {
      ghost var t := View();
      refreshes := map k | k in refreshes && !(refreshes[k].expiry < now) :: refreshes[k];
      jwts := map k | k in jwts && !(jwts[k].expiry < now) :: jwts[k];
      resets := map k | k in resets && !(resets[k].expiry < now) :: resets[k];
      CleaningSeen(t, now);
    }
  }
}
