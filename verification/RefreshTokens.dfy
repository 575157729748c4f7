/**
 Refresh tokens: the cookie text, and which presented tokens are accepted over
 every run.
 */
module RefreshTokens {
  import opened Basics
  import opened Text
  import opened TokenTables
  import opened AuthRuns

  // ---------- The cookie ----------

  // str::split_once
  function SplitOnce(s: string, sep: char): Option<(string, string)> {
    if s == "" then None
    else if s[0] == sep then Some(("", s[1..]))
    else
      match SplitOnce(s[1..], sep)
      case None => None
      case Some((a, b)) => Some(([s[0]] + a, b))
  }

  // get_login_successful_response
  function CookieText(token: string, name: string): string {
    token + "+" + name
  }

  // parse_refresh_token; `hash` is the standard hasher on token text.
  function ParseRefreshToken(hash: string -> U64, text: string): Option<(U64, string)> {
    match SplitOnce(text, '+')
    case None => None
    case Some((token, user)) => Some((hash(token), Lower(user)))
  }

  lemma {:induction false} SplitOnceFirst(a: string, b: string, sep: char)
    ensures SplitOnce(a + [sep] + b, sep) == Some((a, b)) <==> Free(a, sep)
  {
    var text := a + [sep] + b;
    if a == "" {
      assert text[1..] == b;
    } else {
      assert text[1..] == a[1..] + [sep] + b;
      assert a == [a[0]] + a[1..];
      SplitOnceFirst(a[1..], b, sep);
    }
  }

  lemma {:induction false} SplitOnceExact(s: string, sep: char)
    ensures SplitOnce(s, sep) == None <==> Free(s, sep)
    ensures SplitOnce(s, sep).Some? ==>
              var (a, b) := SplitOnce(s, sep).value; s == a + [sep] + b && Free(a, sep)
  {
    if s != "" {
      assert s == [s[0]] + s[1..];
      SplitOnceExact(s[1..], sep);
    }
  }

  predicate IsAlphanumeric(s: string) {
    forall i :: 0 <= i < |s| ==> '0' <= s[i] <= '9' || 'A' <= s[i] <= 'Z' || 'a' <= s[i] <= 'z'
  }

  /** The cookie of a generated token parses back to its hash and its user, in lower case as
      user ids are, even when the name itself contains a plus sign. */
  lemma CookieParsesBack(hash: string -> U64, token: string, name: string)
    requires IsAlphanumeric(token)
    ensures ParseRefreshToken(hash, CookieText(token, name)) == Some((hash(token), Lower(name)))
    ensures IsLower(name) ==> ParseRefreshToken(hash, CookieText(token, name)) == Some((hash(token), name))
  {
    assert Free(token, '+');
    SplitOnceFirst(token, name, '+');
    LowerIsLower(name);
  }

  // ---------- Acceptance over runs ----------

  /** Step i inserts the refresh token with this hash for this user. */
  ghost predicate InsertsAt(events: seq<Event>, i: nat, hash: U64, user: string) {
    i < |events| && Inserts(After(INITIAL, events, i), events[i], hash, user)
  }

  predicate Inserts(s: State, e: Event, hash: U64, user: string) {
    && e.Run? && e.task in s.tasks && s.tasks[e.task].InsertingRefresh?
    && s.tasks[e.task].user == user && e.choice.hash == hash && !e.choice.fails
    && AsI64(hash) !in s.db.refreshes
  }

  /** A logout presenting the token, or a clean-up after its expiry. */
  predicate Ends(s: State, e: Event, hash: U64, expiry: int) {
    || (&& e.Run? && e.task in s.tasks && s.tasks[e.task].LogoutDeleting?
        && s.tasks[e.task].hash == hash && !e.choice.fails)
    || (e.CleanRefreshTable? && expiry < s.now)
  }

  ghost predicate EndedBetween(events: seq<Event>, i: nat, n: nat, hash: U64, expiry: int)
    requires n <= |events|
  {
    exists m :: i < m < n && Ends(After(INITIAL, events, m), events[m], hash, expiry)
  }

  /** No later token has the same hash. */
  ghost predicate NotReinserted(events: seq<Event>, i: nat, n: nat, hash: U64)
    requires n <= |events|
  {
    forall m, user :: i < m < n ==> !Inserts(After(INITIAL, events, m), events[m], hash, user)
  }

  lemma RefreshStep(s: State, e: Event, hash: U64, row: RefreshRow)
    requires forall user :: !Inserts(s, e, hash, user)
    ensures var k, t, t' := AsI64(hash), s.db.refreshes, Next(s, e).db.refreshes;
            && (k !in t ==> k !in t')
            && (k in t && t[k] == row ==>
                  if Ends(s, e, hash, row.expiry) then k !in t' else k in t' && t'[k] == row)
  {
    var k := AsI64(hash);
    if e.Run? && e.task in s.tasks {
      if s.tasks[e.task].InsertingRefresh? {
        assert !Inserts(s, e, hash, s.tasks[e.task].user);
        CastsUndoEachOther(e.choice.hash, k);
        CastsUndoEachOther(hash, k);
      }
      if s.tasks[e.task].LogoutDeleting? {
        CastsUndoEachOther(s.tasks[e.task].hash, k);
        CastsUndoEachOther(hash, k);
      }
    }
  }

  lemma EndedGrows(events: seq<Event>, i: nat, n: nat, hash: U64, expiry: int)
    requires i + 1 < n <= |events|
    ensures EndedBetween(events, i, n, hash, expiry) ==
            (EndedBetween(events, i, n - 1, hash, expiry) || Ends(After(INITIAL, events, n - 1), events[n - 1], hash, expiry))
  {
    if EndedBetween(events, i, n - 1, hash, expiry) {
      var m :| i < m < n - 1 && Ends(After(INITIAL, events, m), events[m], hash, expiry);
      assert EndedBetween(events, i, n, hash, expiry);
    }
  }

  lemma InsertedRow(events: seq<Event>, i: nat, hash: U64, user: string)
    requires i < |events| && InsertsAt(events, i, hash, user)
    ensures var s, t := After(INITIAL, events, i), After(INITIAL, events, i + 1).db.refreshes;
            AsI64(hash) in t && t[AsI64(hash)] == RefreshRow(user, s.now + REFRESH_LIFETIME)
  {
  }

  lemma {:induction false} RefreshRowExact(events: seq<Event>, i: nat, n: nat, hash: U64, user: string)
    requires i < n <= |events| && InsertsAt(events, i, hash, user) && NotReinserted(events, i, n, hash)
    ensures var row := RefreshRow(user, After(INITIAL, events, i).now + REFRESH_LIFETIME);
            var t := After(INITIAL, events, n).db.refreshes;
            if EndedBetween(events, i, n, hash, row.expiry) then AsI64(hash) !in t
            else AsI64(hash) in t && t[AsI64(hash)] == row
    decreases n
  {
    var row := RefreshRow(user, After(INITIAL, events, i).now + REFRESH_LIFETIME);
    if n == i + 1 {
      InsertedRow(events, i, hash, user);
    } else {
      RefreshRowExact(events, i, n - 1, hash, user);
      RefreshStep(After(INITIAL, events, n - 1), events[n - 1], hash, row);
      EndedGrows(events, i, n, hash, row.expiry);
    }
  }

  /** A refresh token is accepted for its user, and for nobody else, in exactly the states before a
      logout presents it or a clean-up finds it expired, restarts notwithstanding. */
  lemma RefreshAcceptedIff(events: seq<Event>, i: nat, n: nat, hash: U64, user: string, who: string)
    requires i < n <= |events| && InsertsAt(events, i, hash, user) && NotReinserted(events, i, n, hash)
    ensures HasRefresh(After(INITIAL, events, n).db, hash, who) <==>
              && who == user
              && !EndedBetween(events, i, n, hash, After(INITIAL, events, i).now + REFRESH_LIFETIME)
  {
    RefreshRowExact(events, i, n, hash, user);
  }

  /** A refresh token that is accepted a day after its expiry. */
  lemma ExpiredTokenAccepted(user: string, c: Choice)
    requires !c.fails
    ensures var s := After(INITIAL, [Login(user, {}), Run(0, c), Tick(REFRESH_LIFETIME + DAY)], 3);
            && HasRefresh(s.db, c.hash, user)
            && s.db.refreshes[AsI64(c.hash)].expiry < s.now
  {
    var events := [Login(user, {}), Run(0, c), Tick(REFRESH_LIFETIME + DAY)];
    Unroll(INITIAL, events, 0);
    assert After(INITIAL, events, 1).tasks == map[0 := InsertingRefresh(user, {})];
    Unroll(INITIAL, events, 1);
    Unroll(INITIAL, events, 2);
  }
}
