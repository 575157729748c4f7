/**
 The request handlers on the shared server state, each run without interruption:
 the same statements as the state machine's tasks, on tables updated in place.
 */
module AuthService {
  import opened Basics
  import opened TokenTables
  import opened AuthRuns
  import opened LogoutSafety
  import opened RefreshTokens

  class AppState {
    const backend: SqlBackend
    var jwtBlacklist: set<U64>

    /** What every handler keeps: a hash blacklisted on disk is blacklisted in memory. */
    ghost predicate Covers()
      reads this, backend
    {
      BlacklistedHashes(backend.View()) <= jwtBlacklist
    }

    /** build_tcp_server: a token is logged out in memory exactly if its row is blacklisted. */
    constructor (backend: SqlBackend)
      ensures this.backend == backend && Covers()
      ensures forall h :: h in jwtBlacklist <==>
                            AsI64(h) in backend.jwts && backend.jwts[AsI64(h)].blacklisted
    {
      this.backend := backend;
      new;
      jwtBlacklist := set k | k in backend.jwts && backend.jwts[k].blacklisted :: AsU64(k);
      forall h {
        HashQueries(backend.View(), h, "");
      }
    }

    /** create_jwt: the row keeps the full expiry, the claim whole seconds only. */
    method CreateJwt(user: string, groups: set<string>, hash: U64, now: int) returns (r: Option<Jwt>)
      modifies backend
      ensures r.Some? <==> AsI64(hash) !in old(backend.View()).jwts
      ensures r.Some? ==> r.value == Jwt(hash, user, groups, Seconds(now + JWT_LIFETIME))
      ensures backend.View() == if r.Some? then InsertJwt(old(backend.View()), hash, user, now + JWT_LIFETIME).value
                                else old(backend.View())
      ensures old(Covers()) ==> Covers()
    {
      var expiry := now + JWT_LIFETIME;
      var jwt := Jwt(hash, user, groups, Seconds(expiry));
      var ok := backend.RegisterJwt(user, hash, expiry);
      return if ok then Some(jwt) else None;
    }

    /** get_refresh: a new token for the presented user, or nothing at all. */
    method GetRefresh(hash: string -> U64, text: string, groups: set<string>, newHash: U64, now: int) returns (r: Option<Jwt>)
      modifies backend
      ensures r.Some? <==>
                && ParseRefreshToken(hash, text).Some?
                && var (h, user) := ParseRefreshToken(hash, text).value;
                   HasRefresh(old(backend.View()), h, user) && AsI64(newHash) !in old(backend.View()).jwts
      ensures r.Some? ==>
                var user := ParseRefreshToken(hash, text).value.1;
                && r.value == Jwt(newHash, user, groups, Seconds(now + JWT_LIFETIME))
                && Some(backend.View()) == InsertJwt(old(backend.View()), newHash, user, now + JWT_LIFETIME)
      ensures r == None ==> backend.View() == old(backend.View())
      ensures old(Covers()) ==> Covers()
    {
      var parsed := ParseRefreshToken(hash, text);
      if parsed == None {
        return None;
      }
      var (h, user) := parsed.value;
      if !(AsI64(h) in backend.refreshes && backend.refreshes[AsI64(h)].user == user) {
        return None;
      }
      r := CreateJwt(user, groups, newHash, now);
    }

    /** get_logout: the loop adds to memory what the database call returned, so the two end up where
        an uninterrupted logout of the state machine does. */
    method GetLogout(hash: string -> U64, text: string) returns (ok: bool)
      modifies this, backend
      ensures ok <==> ParseRefreshToken(hash, text).Some?
      ensures !ok ==> backend.View() == old(backend.View()) && jwtBlacklist == old(jwtBlacklist)
      ensures ok ==>
                var (h, user) := ParseRefreshToken(hash, text).value;
                forall s: State :: s.db == old(backend.View()) && s.blacklist == old(jwtBlacklist) ==>
                  backend.View() == LoggedOutState(s, h, user).db && jwtBlacklist == LoggedOutState(s, h, user).blacklist
      ensures old(Covers()) ==> Covers()
    {
      var parsed := ParseRefreshToken(hash, text);
      if parsed == None {
        return false;
      }
      var (h, user) := parsed.value;
      backend.DeleteRefreshToken(h);
      var newHashes := backend.BlacklistJwts(user);
      assert ValidHashes(DeleteRefresh(old(backend.View()), h), user) == ValidHashes(old(backend.View()), user);
      assert BlacklistedHashes(DeleteRefresh(old(backend.View()), h)) == BlacklistedHashes(old(backend.View()));
      InsertHashes(newHashes);
      return true;
    }

    /** The loop of get_logout over the hashes the database call returned. */
    method InsertHashes(newHashes: set<U64>)
      modifies `jwtBlacklist
      ensures jwtBlacklist == old(jwtBlacklist) + newHashes
    {
      var todo := newHashes;
      while todo != {}
        invariant todo <= newHashes
        invariant jwtBlacklist == old(jwtBlacklist) + (newHashes - todo)
        decreases |todo|
      {
        var jwtHash :| jwtHash in todo;
        jwtBlacklist := jwtBlacklist + {jwtHash};
        todo := todo - {jwtHash};
      }
    }

    /** get_password_reset_step2: a token found is deleted and turned into a JWT without groups. */
    method GetPasswordResetStep2(token: string, newHash: U64, now: int) returns (r: Option<Jwt>)
      modifies backend
      ensures r.Some? ==>
                && ResetUser(old(backend.View()), token, now) == Some(r.value.user)
                && r.value.groups == {} && r.value.exp == Seconds(now + JWT_LIFETIME) && r.value.hash == newHash
      ensures var found, deleted := ResetUser(old(backend.View()), token, now), DeleteReset(old(backend.View()), token);
              if found == None then r == None && backend.View() == old(backend.View())
              else
                var inserted := InsertJwt(deleted, newHash, found.value, now + JWT_LIFETIME);
                r.Some? == inserted.Some? && backend.View() == if inserted.Some? then inserted.value else deleted
      ensures old(Covers()) ==> Covers()
    {
      if !(token in backend.resets && backend.resets[token].expiry > now) {
        return None;
      }
      var user := backend.resets[token].user;
      var _ := backend.DeletePasswordResetToken(token);
      r := CreateJwt(user, {}, newHash, now);
    }
  }
}
