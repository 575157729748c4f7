/**
 Where tokens come from: over every run, each token handed out goes back to a
 login, an accepted refresh token or a reset token, and carries what that gave.
 */
module TokenOrigins {
  import opened Basics
  import opened TokenTables
  import opened Access
  import opened AuthRuns

  // ---------- Credentials ----------

  /** What a request is entitled to: a token for this user with these groups. */
  datatype Grant = Grant(user: string, groups: set<string>, origin: Origin)

  /** The grant a request works on. */
  function GrantOf(task: Task): Option<Grant> {
    match task
    case InsertingRefresh(user, groups) => Some(Grant(user, groups, ByPassword))
    case ResetDeleting(token, user) => Some(Grant(user, {}, ByReset(token)))
    case Minting(user, groups, origin) => Some(Grant(user, groups, origin))
    case Registering(jwt, _, origin) => Some(Grant(jwt.user, jwt.groups, origin))
    case _ => None
  }

  /** The step earns the grant: a login with these groups; a refresh token accepted for the user, with
      the groups looked up then; or a reset token found for the user, with no groups. */
  ghost predicate Earns(s: State, e: Event, g: Grant) {
    match g.origin
    case ByPassword => e == Login(g.user, g.groups)
    case ByRefresh =>
      && e.Run? && e.task in s.tasks && s.tasks[e.task].CheckingRefresh? && s.tasks[e.task].user == g.user
      && HasRefresh(s.db, s.tasks[e.task].hash, g.user) && g.groups == e.choice.groups && !e.choice.fails
    case ByReset(token) =>
      && e.Run? && e.task in s.tasks && s.tasks[e.task] == ResetLooking(token)
      && ResetUser(s.db, token, s.now) == Some(g.user) && g.groups == {} && !e.choice.fails
  }

  lemma GrantStep(s: State, e: Event, id: nat, g: Grant)
    requires id in Next(s, e).tasks && GrantOf(Next(s, e).tasks[id]) == Some(g)
    ensures (id in s.tasks && GrantOf(s.tasks[id]) == Some(g)) || Earns(s, e, g)
  {
  }

  /** Every grant in progress was earned. */
  lemma {:induction false} GrantEarned(events: seq<Event>, n: nat, id: nat, g: Grant) returns (j: nat)
    requires n <= |events| && id in After(INITIAL, events, n).tasks && GrantOf(After(INITIAL, events, n).tasks[id]) == Some(g)
    ensures j < n && Earns(After(INITIAL, events, j), events[j], g)
  {
    var s := After(INITIAL, events, n - 1);
    GrantStep(s, events[n - 1], id, g);
    if id in s.tasks && GrantOf(s.tasks[id]) == Some(g) {
      j := GrantEarned(events, n - 1, id, g);
    } else {
      j := n - 1;
    }
  }

  // ---------- Tokens ----------

  lemma IssuedStep(s: State, e: Event, jwt: Jwt)
    requires jwt in Next(s, e).issued
    ensures || jwt in s.issued
            || (e.Run? && e.task in s.tasks && s.tasks[e.task].Registering? && s.tasks[e.task].jwt == jwt)
  {
  }

  /** Every token handed out was earned before, by its very user and with its very groups. */
  lemma {:induction false} TokenEarned(events: seq<Event>, n: nat, jwt: Jwt) returns (j: nat, origin: Origin)
    requires n <= |events| && jwt in After(INITIAL, events, n).issued
    ensures j < n && Earns(After(INITIAL, events, j), events[j], Grant(jwt.user, jwt.groups, origin))
  {
    var s := After(INITIAL, events, n - 1);
    IssuedStep(s, events[n - 1], jwt);
    if jwt in s.issued {
      j, origin := TokenEarned(events, n - 1, jwt);
    } else {
      var id := events[n - 1].task;
      origin := s.tasks[id].origin;
      j := GrantEarned(events, n - 1, id, Grant(jwt.user, jwt.groups, origin));
    }
  }

  /** A token minted at this instant expires a day later, in whole seconds. */
  ghost predicate MintedAt(events: seq<Event>, m: nat, jwt: Jwt)
    requires m <= |events|
  {
    jwt.exp == Seconds(After(INITIAL, events, m).now + DAY)
  }

  lemma RegisteringStep(s: State, e: Event, id: nat, jwt: Jwt)
    requires id in Next(s, e).tasks && Next(s, e).tasks[id].Registering? && Next(s, e).tasks[id].jwt == jwt
    ensures (id in s.tasks && s.tasks[id] == Next(s, e).tasks[id]) || jwt.exp == Seconds(s.now + DAY)
  {
  }

  lemma {:induction false} RegisteringMinted(events: seq<Event>, n: nat, id: nat, jwt: Jwt) returns (m: nat)
    requires n <= |events| && id in After(INITIAL, events, n).tasks
    requires After(INITIAL, events, n).tasks[id].Registering? && After(INITIAL, events, n).tasks[id].jwt == jwt
    ensures m < n && MintedAt(events, m, jwt)
  {
    var s := After(INITIAL, events, n - 1);
    RegisteringStep(s, events[n - 1], id, jwt);
    if id in s.tasks && s.tasks[id] == After(INITIAL, events, n).tasks[id] {
      m := RegisteringMinted(events, n - 1, id, jwt);
    } else {
      m := n - 1;
    }
  }

  lemma {:induction false} TokenMinted(events: seq<Event>, n: nat, jwt: Jwt) returns (m: nat)
    requires n <= |events| && jwt in After(INITIAL, events, n).issued
    ensures m < n && MintedAt(events, m, jwt)
  {
    var s := After(INITIAL, events, n - 1);
    IssuedStep(s, events[n - 1], jwt);
    if jwt in s.issued {
      m := TokenMinted(events, n - 1, jwt);
    } else {
      m := RegisteringMinted(events, n - 1, events[n - 1].task, jwt);
    }
  }

  /** What an accepted token lets its holder do was earned: if it makes an administrator, then a login
      or a refresh of that user came with a group lldap_admin. */
  lemma AdminWasEarned(lower: char -> string, events: seq<Event>, n: nat, k: nat, jwt: Jwt) returns (j: nat, origin: Origin)
    requires n <= |events| && k <= |events| && jwt in After(INITIAL, events, n).issued
    requires CheckToken(lower, After(INITIAL, events, k), Signed(jwt, true)).Accepted?
    requires CheckToken(lower, After(INITIAL, events, k), Signed(jwt, true)).who.IsAdmin()
    ensures j < n && Earns(After(INITIAL, events, j), events[j], Grant(jwt.user, jwt.groups, origin))
    ensures !origin.ByReset? && InGroup(lower, jwt.groups, "lldap_admin")
  {
    AcceptedWho(lower, After(INITIAL, events, k), Signed(jwt, true), jwt.user, false);
    j, origin := TokenEarned(events, n, jwt);
  }
}
