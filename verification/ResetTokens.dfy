/**
 Password-reset tokens: who can redeem them, when, how often, and what the
 resulting session may do.
 */
module ResetTokens {
  import opened Basics
  import opened TokenTables
  import opened Access
  import opened AuthRuns

  // ---------- Where redemptions come from ----------

  /** The user a request acts for after its reset token was looked up. */
  function ClaimOf(task: Task): Option<(string, string)> {
    match task
    case ResetDeleting(token, user) => Some((token, user))
    case Minting(user, _, ByReset(token)) => Some((token, user))
    case Registering(jwt, _, ByReset(token)) => Some((token, jwt.user))
    case _ => None
  }

  /** Some request has looked the token up successfully, or has even redeemed it. */
  ghost predicate Claimed(s: State, token: string, user: string) {
    || (exists id :: id in s.tasks && ClaimOf(s.tasks[id]) == Some((token, user)))
    || (exists r :: r in s.redeemed && r.token == token && r.jwt.user == user)
  }

  /** At step i the token was sent to the user; at step j, less than ten minutes later, it was
      looked up. */
  ghost predicate IssuedThenFound(events: seq<Event>, i: nat, j: nat, n: nat, token: string, user: string)
    requires n <= |events|
  {
    && i < j < n
    && events[i] == RequestReset(user, token)
    && events[j].Run? && events[j].task in After(INITIAL, events, j).tasks
    && After(INITIAL, events, j).tasks[events[j].task] == ResetLooking(token)
    && After(INITIAL, events, i).now <= After(INITIAL, events, j).now
    && After(INITIAL, events, j).now < After(INITIAL, events, i).now + RESET_LIFETIME
  }

  lemma ResetRowStep(s: State, e: Event, token: string)
    requires token in Next(s, e).db.resets
    ensures var row := Next(s, e).db.resets[token];
            || (token in s.db.resets && s.db.resets[token] == row)
            || (e == RequestReset(row.user, token) && row.expiry == s.now + RESET_LIFETIME)
  {
  }

  lemma {:induction false} ClockNeverGoesBack(events: seq<Event>, m: nat, n: nat)
    requires m <= n <= |events|
    ensures After(INITIAL, events, m).now <= After(INITIAL, events, n).now
    decreases n
  {
    if m < n {
      ClockNeverGoesBack(events, m, n - 1);
    }
  }

  lemma {:induction false} ResetRowOrigin(events: seq<Event>, n: nat, token: string) returns (i: nat)
    requires n <= |events| && token in After(INITIAL, events, n).db.resets
    ensures i < n
    ensures var row := After(INITIAL, events, n).db.resets[token];
            events[i] == RequestReset(row.user, token) && row.expiry == After(INITIAL, events, i).now + RESET_LIFETIME
  {
    var s := After(INITIAL, events, n - 1);
    ResetRowStep(s, events[n - 1], token);
    var row := After(INITIAL, events, n).db.resets[token];
    if token in s.db.resets && s.db.resets[token] == row {
      i := ResetRowOrigin(events, n - 1, token);
    } else {
      i := n - 1;
    }
  }

  lemma TaskClaimStep(s: State, e: Event, id: nat, token: string, user: string)
    requires id in Next(s, e).tasks && ClaimOf(Next(s, e).tasks[id]) == Some((token, user))
    ensures || (id in s.tasks && ClaimOf(s.tasks[id]) == Some((token, user)))
            || FindsToken(s, e, token, user)
  {
  }

  lemma RedemptionStep(s: State, e: Event, r: Redemption)
    requires r in Next(s, e).redeemed
    ensures || r in s.redeemed
            || (e.Run? && e.task in s.tasks && ClaimOf(s.tasks[e.task]) == Some((r.token, r.jwt.user)))
  {
  }

  /** A claim is carried over from the previous state or made by a successful look-up. */
  lemma ClaimStep(s: State, e: Event, token: string, user: string)
    requires Claimed(Next(s, e), token, user)
    ensures Claimed(s, token, user) || FindsToken(s, e, token, user)
  {
    var s' := Next(s, e);
    if id :| id in s'.tasks && ClaimOf(s'.tasks[id]) == Some((token, user)) {
      TaskClaimStep(s, e, id, token, user);
    } else {
      var r :| r in s'.redeemed && r.token == token && r.jwt.user == user;
      RedemptionStep(s, e, r);
    }
  }

  predicate FindsToken(s: State, e: Event, token: string, user: string) {
    && e.Run? && e.task in s.tasks && s.tasks[e.task] == ResetLooking(token)
    && ResetUser(s.db, token, s.now) == Some(user) && !e.choice.fails
  }

  ghost predicate ClockStands(events: seq<Event>, j: nat, n: nat)
    requires n <= |events|
  {
    forall m :: j <= m < n ==> !events[m].Tick?
  }

  lemma {:induction false} SameInstant(events: seq<Event>, j: nat, n: nat)
    requires j <= n <= |events| && ClockStands(events, j, n)
    ensures After(INITIAL, events, n).now == After(INITIAL, events, j).now
    decreases n
  {
    if j < n {
      SameInstant(events, j, n - 1);
    }
  }

  /** Every redemption goes back to a token sent to that very user, looked up strictly less than ten
      minutes after it was sent; if the clock stands still between look-up and redemption, the
      redemption is in time as well. */
  lemma {:induction false} RedeemedInTime(events: seq<Event>, n: nat, token: string, user: string) returns (i: nat, j: nat)
    requires n <= |events| && Claimed(After(INITIAL, events, n), token, user)
    ensures IssuedThenFound(events, i, j, n, token, user)
    ensures ClockStands(events, j, n) ==> After(INITIAL, events, n).now < After(INITIAL, events, i).now + RESET_LIFETIME
  {
    var s := After(INITIAL, events, n - 1);
    ClaimStep(s, events[n - 1], token, user);
    if Claimed(s, token, user) {
      i, j := RedeemedInTime(events, n - 1, token, user);
    } else {
      j := n - 1;
      i := ResetRowOrigin(events, j, token);
      ClockNeverGoesBack(events, i, j);
    }
    if ClockStands(events, j, n) {
      SameInstant(events, j, n);
    }
  }

  // ---------- What the session may do ----------

  /** The groups a request will put, or has put, into the token it makes from a reset token. */
  predicate HasNoGroups(task: Task) {
    && (task.Minting? && task.origin.ByReset? ==> task.groups == {})
    && (task.Registering? && task.origin.ByReset? ==> task.jwt.groups == {})
  }

  ghost predicate ResetsHaveNoGroups(s: State) {
    && (forall id :: id in s.tasks ==> HasNoGroups(s.tasks[id]))
    && (forall r :: r in s.redeemed ==> r.jwt.groups == {})
  }

  lemma NoGroupsTask(s: State, e: Event, id: nat)
    requires ResetsHaveNoGroups(s) && id in Next(s, e).tasks
    ensures HasNoGroups(Next(s, e).tasks[id])
  {
    if id in s.tasks {
      assert HasNoGroups(s.tasks[id]);
    }
  }

  lemma NoGroupsRedemption(s: State, e: Event, r: Redemption)
    requires ResetsHaveNoGroups(s) && r in Next(s, e).redeemed
    ensures r.jwt.groups == {}
  {
    if r !in s.redeemed {
      assert HasNoGroups(s.tasks[e.task]);
    }
  }

  lemma NoGroupsStep(s: State, e: Event)
    requires ResetsHaveNoGroups(s)
    ensures ResetsHaveNoGroups(Next(s, e))
  {
    forall id | id in Next(s, e).tasks { NoGroupsTask(s, e, id); }
    forall r | r in Next(s, e).redeemed { NoGroupsRedemption(s, e, r); }
  }

  lemma {:induction false} NoGroupsAlways(events: seq<Event>, n: nat)
    requires n <= |events|
    ensures ResetsHaveNoGroups(After(INITIAL, events, n))
  {
    if n > 0 {
      NoGroupsAlways(events, n - 1);
      NoGroupsStep(After(INITIAL, events, n - 1), events[n - 1]);
    }
  }

  /** In every reachable state, whatever groups the user has, a session obtained by a reset token can
      read, write and change the password of that user only. */
  lemma ResetSessionOwnOnly(lower: char -> string, events: seq<Event>, n: nat, k: nat, r: Redemption, other: string, otherIsAdmin: bool)
    requires n <= k <= |events| && r in After(INITIAL, events, n).redeemed
    ensures var v := CheckToken(lower, After(INITIAL, events, k), Signed(r.jwt, true));
            v.Accepted? ==>
              && v.who.user == r.jwt.user && !v.who.IsAdmin() && !v.who.CanReadAll()
              && (v.who.CanRead(other) <==> other == r.jwt.user)
              && (v.who.CanWrite(other) <==> other == r.jwt.user)
              && (v.who.CanChangePassword(other, otherIsAdmin) <==> other == r.jwt.user)
  {
    NoGroupsAlways(events, n);
    NoGroupsOwnOnly(lower, r.jwt.user, other, otherIsAdmin);
  }

  // ---------- At most once ----------

  predicate Holds(task: Task, token: string) {
    ClaimOf(task).Some? && ClaimOf(task).value.0 == token
  }

  predicate Redeemed(s: State, token: string) {
    exists r :: r in s.redeemed && r.token == token
  }

  /** Past the deletion of the token. */
  predicate Spent(s: State, token: string) {
    || Redeemed(s, token)
    || exists id :: id in s.tasks && Holds(s.tasks[id], token) && !s.tasks[id].ResetDeleting?
  }

  ghost predicate OneHolder(s: State) {
    forall id, id', token :: id in s.tasks && id' in s.tasks && id != id' ==>
                               !(Holds(s.tasks[id], token) && Holds(s.tasks[id'], token))
  }

  predicate Redeemable(s: State, token: string) {
    ResetUser(s.db, token, s.now).Some?
  }

  /** A token past its deletion can no longer be looked up: its row is gone or has expired. */
  ghost predicate SpentIsOver(s: State) {
    forall token :: Spent(s, token) ==> !Redeemable(s, token)
  }

  ghost predicate RedeemedIsOver(s: State) {
    forall id, token :: id in s.tasks && Redeemed(s, token) ==> !Holds(s.tasks[id], token)
  }

  ghost predicate KnownTokens(s: State) {
    && (forall token :: token in s.db.resets || Redeemed(s, token) ==> token in s.requested)
    && (forall id, token :: id in s.tasks && Holds(s.tasks[id], token) ==> token in s.requested)
  }

  /** No token has been redeemed twice. */
  ghost predicate NoRepeat(s: State) {
    forall a, b :: 0 <= a < b < |s.redeemed| ==> s.redeemed[a].token != s.redeemed[b].token
  }

  ghost predicate SingleUse(s: State) {
    OneHolder(s) && SpentIsOver(s) && RedeemedIsOver(s) && KnownTokens(s) && NoRepeat(s)
  }

  /** Reset tokens are random. */
  predicate FreshToken(s: State, e: Event) {
    e.RequestReset? ==> e.token !in s.requested
  }

  /** The step looks a token up and finds it. */
  predicate Finds(s: State, e: Event) {
    && e.Run? && e.task in s.tasks && s.tasks[e.task].ResetLooking? && !e.choice.fails
    && Redeemable(s, s.tasks[e.task].token)
  }

  /** A look-up that finds its token meets no other request that has found it, and a delete fails
      only if its token can no longer be looked up. */
  ghost predicate Careful(s: State, e: Event) {
    && (Finds(s, e) ==>
          forall id :: id in s.tasks && id != e.task ==> !Holds(s.tasks[id], s.tasks[e.task].token))
    && (e.Run? && e.task in s.tasks && s.tasks[e.task].ResetDeleting? && e.choice.fails ==>
          !Redeemable(s, s.tasks[e.task].token))
  }

  lemma RedeemedStep(s: State, e: Event, token: string)
    requires Redeemed(Next(s, e), token)
    ensures Redeemed(s, token)
            || (e.Run? && e.task in s.tasks && Holds(s.tasks[e.task], token) && s.tasks[e.task].Registering?
                && e.task !in Next(s, e).tasks)
  {
    var r :| r in Next(s, e).redeemed && r.token == token;
    if r !in s.redeemed {
      assert e.Run? && e.task in s.tasks && s.tasks[e.task].Registering?;
    }
  }

  lemma HolderStep(s: State, e: Event, id: nat, token: string)
    requires id in Next(s, e).tasks && Holds(Next(s, e).tasks[id], token)
    ensures || (id in s.tasks && Holds(s.tasks[id], token))
            || (&& Finds(s, e) && e.task == id && s.tasks[id].token == token && Next(s, e).tasks[id].ResetDeleting?)
  {
  }

  lemma OverStays(s: State, e: Event, token: string)
    requires FreshToken(s, e) && !Redeemable(s, token) && token in s.requested
    ensures !Redeemable(Next(s, e), token)
  {
  }

  lemma DeletionStep(s: State, e: Event, id: nat, token: string)
    requires Careful(s, e) && id in s.tasks && Holds(s.tasks[id], token) && s.tasks[id].ResetDeleting?
    requires id in Next(s, e).tasks && Holds(Next(s, e).tasks[id], token) && !Next(s, e).tasks[id].ResetDeleting?
    ensures !Redeemable(Next(s, e), token)
  {
  }

  lemma SpentStep(s: State, e: Event, token: string)
    requires SingleUse(s) && FreshToken(s, e) && Careful(s, e) && Spent(Next(s, e), token)
    ensures !Redeemable(Next(s, e), token)
  {
    var s' := Next(s, e);
    if Redeemed(s', token) {
      RedeemedStep(s, e, token);
      assert Spent(s, token) && token in s.requested;
      OverStays(s, e, token);
    } else {
      var id :| id in s'.tasks && Holds(s'.tasks[id], token) && !s'.tasks[id].ResetDeleting?;
      HolderStep(s, e, id, token);
      if s.tasks[id].ResetDeleting? {
        DeletionStep(s, e, id, token);
      } else {
        assert Spent(s, token) && token in s.requested;
        OverStays(s, e, token);
      }
    }
  }

  lemma OneHolderStep(s: State, e: Event)
    requires SingleUse(s) && Careful(s, e)
    ensures OneHolder(Next(s, e))
  {
    var s' := Next(s, e);
    forall id, id', token | id in s'.tasks && id' in s'.tasks && id != id'
      ensures !(Holds(s'.tasks[id], token) && Holds(s'.tasks[id'], token))
    {
      if Holds(s'.tasks[id], token) && Holds(s'.tasks[id'], token) {
        HolderStep(s, e, id, token);
        HolderStep(s, e, id', token);
      }
    }
  }

  lemma RedeemedIsOverStep(s: State, e: Event)
    requires SingleUse(s)
    ensures RedeemedIsOver(Next(s, e))
  {
    var s' := Next(s, e);
    forall id, token | id in s'.tasks && Redeemed(s', token)
      ensures !Holds(s'.tasks[id], token)
    {
      RedeemedStep(s, e, token);
      if Holds(s'.tasks[id], token) {
        HolderStep(s, e, id, token);
        if Redeemed(s, token) {
          assert Spent(s, token);
        }
      }
    }
  }

  lemma KnownTokensStep(s: State, e: Event)
    requires KnownTokens(s)
    ensures KnownTokens(Next(s, e))
  {
    var s' := Next(s, e);
    forall token | token in s'.db.resets || Redeemed(s', token)
      ensures token in s'.requested
    {
      if Redeemed(s', token) {
        RedeemedStep(s, e, token);
      }
    }
    forall id, token | id in s'.tasks && Holds(s'.tasks[id], token)
      ensures token in s'.requested
    {
      HolderStep(s, e, id, token);
    }
  }

  lemma NoRepeatStep(s: State, e: Event)
    requires SingleUse(s)
    ensures NoRepeat(Next(s, e))
  {
    var rs := Next(s, e).redeemed;
    if rs != s.redeemed {
      var token := s.tasks[e.task].origin.token;
      assert Holds(s.tasks[e.task], token);
      assert !Redeemed(s, token);
      forall a, b | 0 <= a < b < |rs|
        ensures rs[a].token != rs[b].token
      {
        assert s.redeemed[a] in s.redeemed;
      }
    }
  }

  lemma SingleUseStep(s: State, e: Event)
    requires SingleUse(s) && FreshToken(s, e) && Careful(s, e)
    ensures SingleUse(Next(s, e))
  {
    OneHolderStep(s, e);
    RedeemedIsOverStep(s, e);
    KnownTokensStep(s, e);
    assert SpentIsOver(Next(s, e)) by {
      forall token | Spent(Next(s, e), token) { SpentStep(s, e, token); }
    }
    NoRepeatStep(s, e);
  }

  /** Exactly the careful steps keep it so. */
  lemma SingleUseIff(s: State, e: Event)
    requires SingleUse(s) && FreshToken(s, e)
    ensures SingleUse(Next(s, e)) <==> Careful(s, e)
  {
    if Careful(s, e) {
      SingleUseStep(s, e);
    } else {
      var s', id := Next(s, e), e.task;
      var token := s.tasks[id].token;
      if Finds(s, e) {
        var other :| other in s.tasks && other != id && Holds(s.tasks[other], token);
        assert Holds(s'.tasks[id], token) && Holds(s'.tasks[other], token);
      } else {
        assert Holds(s'.tasks[id], token) && !s'.tasks[id].ResetDeleting?;
        assert Spent(s', token) && Redeemable(s', token);
      }
    }
  }

  // ---------- Over runs ----------

  /** From a state, every step is careful and every reset token fresh. */
  ghost predicate CarefulFrom(s: State, events: seq<Event>) {
    forall i :: 0 <= i < |events| ==> FreshToken(After(s, events, i), events[i]) && Careful(After(s, events, i), events[i])
  }

  lemma {:induction false} SingleUseFrom(s: State, events: seq<Event>, n: nat)
    requires n <= |events| && SingleUse(s) && CarefulFrom(s, events)
    ensures SingleUse(After(s, events, n))
  {
    if n > 0 {
      SingleUseFrom(s, events, n - 1);
      SingleUseStep(After(s, events, n - 1), events[n - 1]);
    }
  }

  /** In careful runs every reset token is redeemed at most once. */
  lemma RedeemedAtMostOnce(events: seq<Event>, n: nat)
    requires n <= |events| && CarefulFrom(INITIAL, events)
    ensures SingleUse(After(INITIAL, events, n))
  {
    SingleUseFrom(INITIAL, events, n);
  }

  ghost predicate FreshTokens(events: seq<Event>) {
    forall i :: 0 <= i < |events| ==> FreshToken(After(INITIAL, events, i), events[i])
  }

  ghost predicate SingleUseThroughout(events: seq<Event>) {
    forall n :: 0 <= n <= |events| ==> SingleUse(After(INITIAL, events, n))
  }

  /** And exactly in those does every state along the run rule a second redemption out. */
  lemma SingleUseRunIff(events: seq<Event>)
    requires FreshTokens(events)
    ensures SingleUseThroughout(events) <==> CarefulFrom(INITIAL, events)
  {
    if CarefulFrom(INITIAL, events) {
      forall n | 0 <= n <= |events|
        ensures SingleUse(After(INITIAL, events, n))
      {
        RedeemedAtMostOnce(events, n);
      }
    } else if SingleUseThroughout(events) {
      forall i | 0 <= i < |events|
        ensures Careful(After(INITIAL, events, i), events[i])
      {
        assert SingleUse(After(INITIAL, events, i)) && SingleUse(After(INITIAL, events, i + 1));
        SingleUseIff(After(INITIAL, events, i), events[i]);
      }
      assert false;
    }
  }

  // ---------- Where deletes never fail ----------

  ghost predicate SpentIsGone(s: State) {
    forall token :: Spent(s, token) ==> token !in s.db.resets
  }

  predicate Deletes(s: State, e: Event) {
    e.Run? && e.task in s.tasks && s.tasks[e.task].ResetDeleting? ==> !e.choice.fails
  }

  lemma GoneStays(s: State, e: Event, token: string)
    requires FreshToken(s, e) && token !in s.db.resets && token in s.requested
    ensures token !in Next(s, e).db.resets
  {
  }

  lemma DeletedStep(s: State, e: Event, id: nat, token: string)
    requires Deletes(s, e) && id in s.tasks && Holds(s.tasks[id], token) && s.tasks[id].ResetDeleting?
    requires id in Next(s, e).tasks && Holds(Next(s, e).tasks[id], token) && !Next(s, e).tasks[id].ResetDeleting?
    ensures token !in Next(s, e).db.resets
  {
  }

  lemma GoneStep(s: State, e: Event, token: string)
    requires SpentIsGone(s) && KnownTokens(s) && FreshToken(s, e) && Deletes(s, e) && Spent(Next(s, e), token)
    ensures token !in Next(s, e).db.resets
  {
    var s' := Next(s, e);
    if Redeemed(s', token) {
      RedeemedStep(s, e, token);
      assert Spent(s, token) && token in s.requested;
      GoneStays(s, e, token);
    } else {
      var id :| id in s'.tasks && Holds(s'.tasks[id], token) && !s'.tasks[id].ResetDeleting?;
      HolderStep(s, e, id, token);
      if s.tasks[id].ResetDeleting? {
        DeletedStep(s, e, id, token);
      } else {
        assert Spent(s, token) && token in s.requested;
        GoneStays(s, e, token);
      }
    }
  }

  ghost predicate DeletesSucceed(events: seq<Event>) {
    forall i :: 0 <= i < |events| ==> Deletes(After(INITIAL, events, i), events[i])
  }

  /** Where deletes succeed, spent tokens are gone from the table, however requests overlap. */
  lemma {:induction false} SpentTokensAreGone(events: seq<Event>, n: nat)
    requires n <= |events| && FreshTokens(events) && DeletesSucceed(events)
    ensures SpentIsGone(After(INITIAL, events, n)) && KnownTokens(After(INITIAL, events, n))
  {
    if n > 0 {
      SpentTokensAreGone(events, n - 1);
      var s, e := After(INITIAL, events, n - 1), events[n - 1];
      KnownTokensStep(s, e);
      assert SpentIsGone(Next(s, e)) by {
        forall token | Spent(Next(s, e), token) { GoneStep(s, e, token); }
      }
    }
  }

  // ---------- Otherwise, possibly twice ----------

  /** The last two statements of a redemption, run without interruption. */
  function MintEvents(id: nat, c: Choice): seq<Event> {
    [Run(id, c), Run(id, c)]
  }

  /** The state once the holder of a token has redeemed it. */
  ghost predicate Redeems(s: State, s': State, id: nat, token: string, user: string, hash: U64) {
    var jwt := Jwt(hash, user, {}, Seconds(s.now + JWT_LIFETIME));
    && s'.redeemed == s.redeemed + [Redemption(token, jwt)]
    && s'.tasks == s.tasks - {id}
    && s'.db.jwts == s.db.jwts[AsI64(hash) := JwtRow(user, false, s.now + JWT_LIFETIME)]
    && s'.now == s.now && s'.nextTask == s.nextTask
  }

  lemma EasyStep(s: State, id: nat, c: Choice)
    requires !c.fails && id in s.tasks && !s.tasks[id].ResetLooking?
    ensures FreshToken(s, Run(id, c)) && Careful(s, Run(id, c))
  {
  }

  lemma MinterRedeems(s: State, id: nat, token: string, user: string, c: Choice)
    requires id in s.tasks && s.tasks[id] == Minting(user, {}, ByReset(token))
    requires !c.fails && AsI64(c.hash) !in s.db.jwts
    ensures var s' := After(s, MintEvents(id, c), 2);
            Redeems(s, s', id, token, user, c.hash) && s'.db.resets == s.db.resets
    ensures CarefulFrom(s, MintEvents(id, c))
  {
    var events, expiry := MintEvents(id, c), s.now + JWT_LIFETIME;
    var jwt := Jwt(c.hash, user, {}, Seconds(expiry));
    Unroll(s, events, 0);
    EasyStep(s, id, c);
    var s1 := After(s, events, 1);
    assert s1.tasks == s.tasks[id := Registering(jwt, expiry, ByReset(token))];
    Unroll(s, events, 1);
    EasyStep(s1, id, c);
  }

  /** The last three statements of a redemption, run without interruption. */
  function RedeemEvents(id: nat, c: Choice): seq<Event> {
    [Run(id, c)] + MintEvents(id, c)
  }

  lemma DeleterMints(s: State, id: nat, c: Choice)
    requires id in s.tasks && s.tasks[id].ResetDeleting? && !c.fails
    ensures var s' := Next(s, Run(id, c));
            && s'.tasks == s.tasks[id := Minting(s.tasks[id].user, {}, ByReset(s.tasks[id].token))]
            && s'.db.jwts == s.db.jwts && s'.redeemed == s.redeemed
            && s'.now == s.now && s'.nextTask == s.nextTask
  {
  }

  lemma {:induction false} CarefulConcat(s: State, a: seq<Event>, b: seq<Event>)
    requires CarefulFrom(s, a) && CarefulFrom(After(s, a, |a|), b)
    ensures CarefulFrom(s, a + b)
  {
    var all := a + b;
    forall i | 0 <= i < |all|
      ensures FreshToken(After(s, all, i), all[i]) && Careful(After(s, all, i), all[i])
    {
      if i < |a| {
        AfterPrefix(s, a, b, i);
      } else {
        AfterConcat(s, a, b, i - |a|);
        assert all[i] == b[i - |a|];
      }
    }
  }

  lemma OneStep(s: State, e: Event)
    requires FreshToken(s, e) && Careful(s, e)
    ensures CarefulFrom(s, [e]) && After(s, [e], 1) == Next(s, e)
  {
    Unroll(s, [e], 0);
  }

  /** A request past its look-up goes on to redeem. */
  lemma HolderRedeems(s: State, id: nat, c: Choice)
    requires id in s.tasks && s.tasks[id].ResetDeleting?
    requires !c.fails && AsI64(c.hash) !in s.db.jwts
    ensures Redeems(s, After(s, RedeemEvents(id, c), 3), id, s.tasks[id].token, s.tasks[id].user, c.hash)
    ensures CarefulFrom(s, RedeemEvents(id, c))
  {
    var s1 := Next(s, Run(id, c));
    EasyStep(s, id, c);
    OneStep(s, Run(id, c));
    DeleterMints(s, id, c);
    MinterRedeems(s1, id, s.tasks[id].token, s.tasks[id].user, c);
    AfterConcat(s, [Run(id, c)], MintEvents(id, c), 2);
    CarefulConcat(s, [Run(id, c)], MintEvents(id, c));
    assert s1.tasks - {id} == s.tasks - {id};
  }

  /** Two usable choices: statements that work, with two different hashes not in the table. */
  predicate Usable(s: State, c: Choice, c': Choice) {
    && !c.fails && !c'.fails && c.hash != c'.hash
    && AsI64(c.hash) !in s.db.jwts && AsI64(c'.hash) !in s.db.jwts
  }

  lemma StillUsable(c: Choice, c': Choice)
    requires c.hash != c'.hash
    ensures AsI64(c.hash) != AsI64(c'.hash)
  {
    CastsUndoEachOther(c.hash, AsI64(c'.hash));
    CastsUndoEachOther(c'.hash, AsI64(c'.hash));
  }

  lemma Twice(s: State, a: nat, b: nat)
    requires a < b < |s.redeemed| && s.redeemed[a].token == s.redeemed[b].token
    ensures !NoRepeat(s)
  {
  }

  /** Once two requests have both looked a token up, both redeem it. */
  lemma OverlapRedeemsTwice(s: State, id: nat, id': nat, c: Choice, c': Choice)
    requires id in s.tasks && id' in s.tasks && id != id'
    requires s.tasks[id].ResetDeleting? && s.tasks[id'].ResetDeleting? && s.tasks[id].token == s.tasks[id'].token
    requires Usable(s, c, c')
    ensures var more := RedeemEvents(id, c) + RedeemEvents(id', c');
            CarefulFrom(s, more) && !NoRepeat(After(s, more, |more|))
  {
    var first, second := RedeemEvents(id, c), RedeemEvents(id', c');
    HolderRedeems(s, id, c);
    var s' := After(s, first, 3);
    StillUsable(c, c');
    HolderRedeems(s', id', c');
    AfterConcat(s, first, second, 3);
    CarefulConcat(s, first, second);
    Twice(After(s, first + second, 6), |s.redeemed|, |s.redeemed| + 1);
  }

  /** A new request for a token that can be looked up and that nobody holds redeems it. */
  function NewRequest(id: nat, token: string, c: Choice): seq<Event> {
    [RedeemReset(token), Run(id, c)] + RedeemEvents(id, c)
  }

  lemma FindStep(s: State, id: nat, token: string, c: Choice)
    requires id in s.tasks && s.tasks[id] == ResetLooking(token) && Redeemable(s, token) && !c.fails
    requires forall other :: other in s.tasks && other != id ==> !Holds(s.tasks[other], token)
    ensures FreshToken(s, Run(id, c)) && Careful(s, Run(id, c))
    ensures Next(s, Run(id, c)) == Become(s, id, ResetDeleting(token, ResetUser(s.db, token, s.now).value))
  {
  }

  lemma LookUpFinds(s: State, token: string, c: Choice)
    requires s.nextTask !in s.tasks && Redeemable(s, token) && !c.fails
    requires forall id :: id in s.tasks ==> !Holds(s.tasks[id], token)
    ensures var events := [RedeemReset(token), Run(s.nextTask, c)];
            var s' := After(s, events, 2);
            && CarefulFrom(s, events)
            && s.nextTask in s'.tasks && s'.tasks[s.nextTask] == ResetDeleting(token, ResetUser(s.db, token, s.now).value)
            && s'.db == s.db && s'.redeemed == s.redeemed
  {
    var id, s1 := s.nextTask, Next(s, RedeemReset(token));
    OneStep(s, RedeemReset(token));
    FindStep(s1, id, token, c);
    OneStep(s1, Run(id, c));
    CarefulConcat(s, [RedeemReset(token)], [Run(id, c)]);
    AfterConcat(s, [RedeemReset(token)], [Run(id, c)], 1);
    assert [RedeemReset(token)] + [Run(id, c)] == [RedeemReset(token), Run(id, c)];
  }

  lemma NewRequestRedeems(s: State, token: string, c: Choice)
    requires s.nextTask !in s.tasks && Redeemable(s, token)
    requires forall id :: id in s.tasks ==> !Holds(s.tasks[id], token)
    requires !c.fails && AsI64(c.hash) !in s.db.jwts
    ensures var more := NewRequest(s.nextTask, token, c);
            var s' := After(s, more, |more|);
            && CarefulFrom(s, more)
            && |s'.redeemed| == |s.redeemed| + 1 && s.redeemed <= s'.redeemed && s'.redeemed[|s.redeemed|].token == token
  {
    var id := s.nextTask;
    var first, second := [RedeemReset(token), Run(id, c)], RedeemEvents(id, c);
    LookUpFinds(s, token, c);
    HolderRedeems(After(s, first, 2), id, c);
    AfterConcat(s, first, second, 3);
    CarefulConcat(s, first, second);
  }

  /** A redemption whose delete failed, then another. */
  function AgainEvents(s: State, id: nat, token: string, c: Choice, c': Choice): seq<Event> {
    MintEvents(id, c) + NewRequest(s.nextTask, token, c')
  }

  lemma FailedDeleteRedeemsTwice(s: State, id: nat, token: string, user: string, c: Choice, c': Choice)
    requires id in s.tasks && s.tasks[id] == Minting(user, {}, ByReset(token)) && Redeemable(s, token)
    requires forall other :: other in s.tasks && other != id ==> !Holds(s.tasks[other], token)
    requires s.nextTask !in s.tasks && Usable(s, c, c')
    ensures var more := AgainEvents(s, id, token, c, c');
            CarefulFrom(s, more) && !NoRepeat(After(s, more, |more|))
  {
    var first, second := MintEvents(id, c), NewRequest(s.nextTask, token, c');
    MinterRedeems(s, id, token, user, c);
    var s' := After(s, first, 2);
    StillUsable(c, c');
    NewRequestRedeems(s', token, c');
    AfterConcat(s, first, second, |second|);
    CarefulConcat(s, first, second);
    Twice(After(s, first + second, |first + second|), |s.redeemed|, |s.redeemed| + 1);
  }

  /** After a step that is not careful, careful steps alone redeem a token twice. */
  lemma CarelessRedeemsTwice(s: State, e: Event, c: Choice, c': Choice) returns (more: seq<Event>)
    requires SingleUse(s) && Inv(s) && !Careful(s, e) && Usable(s, c, c')
    ensures CarefulFrom(Next(s, e), more) && !NoRepeat(After(Next(s, e), more, |more|))
  {
    var s', id := Next(s, e), e.task;
    var token := s.tasks[id].token;
    if Finds(s, e) {
      var other :| other in s.tasks && other != id && Holds(s.tasks[other], token);
      assert !Spent(s, token);
      more := RedeemEvents(id, c) + RedeemEvents(other, c');
      OverlapRedeemsTwice(s', id, other, c, c');
    } else {
      assert Holds(s.tasks[id], token);
      more := AgainEvents(s', id, token, c, c');
      FailedDeleteRedeemsTwice(s', id, token, s.tasks[id].user, c, c');
    }
  }

  /** The exact condition: after a step, every careful continuation redeems each token at most once
      if and only if the step was careful. */
  lemma CarefulStepIff(s: State, e: Event, c: Choice, c': Choice)
    requires SingleUse(s) && Inv(s) && FreshToken(s, e) && Usable(s, c, c')
    ensures Careful(s, e) <==>
              forall more: seq<Event> :: CarefulFrom(Next(s, e), more) ==> NoRepeat(After(Next(s, e), more, |more|))
  {
    if Careful(s, e) {
      SingleUseStep(s, e);
      forall more: seq<Event> | CarefulFrom(Next(s, e), more)
        ensures NoRepeat(After(Next(s, e), more, |more|))
      {
        SingleUseFrom(Next(s, e), more, |more|);
      }
    } else {
      var more := CarelessRedeemsTwice(s, e, c, c');
    }
  }

  // ---------- Both happen ----------

  /** Two look-ups of one token, one after the other. */
  function Overlap(user: string, token: string, c: Choice): seq<Event> {
    [RequestReset(user, token), RedeemReset(token), RedeemReset(token), Run(0, c), Run(1, c)]
  }

  lemma OverlapReached(user: string, token: string, c: Choice)
    requires !c.fails
    ensures var s := After(INITIAL, Overlap(user, token, c), 5);
            && s.tasks == map[0 := ResetDeleting(token, user), 1 := ResetDeleting(token, user)]
            && s.db.jwts == map[]
  {
    var events := Overlap(user, token, c);
    Unroll(INITIAL, events, 0);
    Unroll(INITIAL, events, 1);
    Unroll(INITIAL, events, 2);
    var s3 := After(INITIAL, events, 3);
    assert s3.tasks == map[0 := ResetLooking(token), 1 := ResetLooking(token)];
    assert ResetUser(s3.db, token, s3.now) == Some(user);
    Unroll(INITIAL, events, 3);
    Unroll(INITIAL, events, 4);
  }

  /** From the start: two requests for one token, and it is redeemed twice. */
  lemma OverlapHappens(user: string, token: string, c: Choice, c': Choice)
    requires !c.fails && !c'.fails && c.hash != c'.hash
    ensures var events := Overlap(user, token, c) + (RedeemEvents(0, c) + RedeemEvents(1, c'));
            !NoRepeat(After(INITIAL, events, |events|))
  {
    OverlapReached(user, token, c);
    var first, more := Overlap(user, token, c), RedeemEvents(0, c) + RedeemEvents(1, c');
    OverlapRedeemsTwice(After(INITIAL, first, 5), 0, 1, c, c');
    AfterConcat(INITIAL, first, more, |more|);
  }

  /** One request whose delete fails. */
  function FailedDelete(user: string, token: string, c: Choice): seq<Event> {
    [RequestReset(user, token), RedeemReset(token), Run(0, c), Run(0, c.(fails := true))]
  }

  lemma FailedDeleteReached(user: string, token: string, c: Choice)
    requires !c.fails
    ensures var s := After(INITIAL, FailedDelete(user, token, c), 4);
            && s.tasks == map[0 := Minting(user, {}, ByReset(token))] && s.nextTask == 1
            && s.db.jwts == map[] && Redeemable(s, token)
  {
    var events := FailedDelete(user, token, c);
    Unroll(INITIAL, events, 0);
    Unroll(INITIAL, events, 1);
    var s2 := After(INITIAL, events, 2);
    assert s2.tasks == map[0 := ResetLooking(token)];
    assert ResetUser(s2.db, token, s2.now) == Some(user);
    Unroll(INITIAL, events, 2);
    var s3 := After(INITIAL, events, 3);
    assert s3.tasks == map[0 := ResetDeleting(token, user)];
    Unroll(INITIAL, events, 3);
    assert After(INITIAL, events, 4).tasks == map[0 := Minting(user, {}, ByReset(token))];
  }

  /** From the start: one failed delete and a second request, and the token is redeemed twice. */
  lemma FailedDeleteHappens(user: string, token: string, c: Choice, c': Choice)
    requires !c.fails && !c'.fails && c.hash != c'.hash
    ensures var first := FailedDelete(user, token, c);
            var events := first + AgainEvents(After(INITIAL, first, 4), 0, token, c, c');
            !NoRepeat(After(INITIAL, events, |events|))
  {
    FailedDeleteReached(user, token, c);
    var first := FailedDelete(user, token, c);
    var s := After(INITIAL, first, 4);
    FailedDeleteRedeemsTwice(s, 0, token, user, c, c');
    var more := AgainEvents(s, 0, token, c, c');
    AfterConcat(INITIAL, first, more, |more|);
  }

  /** A token looked up in time. */
  function LookedUp(user: string, token: string, c: Choice): seq<Event> {
    [RequestReset(user, token), RedeemReset(token), Run(0, c), Tick(RESET_LIFETIME)]
  }

  lemma LookedUpReached(user: string, token: string, c: Choice)
    requires !c.fails
    ensures var s := After(INITIAL, LookedUp(user, token, c), 4);
            && s.tasks == map[0 := ResetDeleting(token, user)] && s.now == RESET_LIFETIME
            && s.db.jwts == map[] && s.redeemed == []
  {
    var events := LookedUp(user, token, c);
    Unroll(INITIAL, events, 0);
    Unroll(INITIAL, events, 1);
    var s2 := After(INITIAL, events, 2);
    assert s2.tasks == map[0 := ResetLooking(token)];
    assert ResetUser(s2.db, token, s2.now) == Some(user);
    Unroll(INITIAL, events, 2);
    assert After(INITIAL, events, 3).tasks == map[0 := ResetDeleting(token, user)];
    Unroll(INITIAL, events, 3);
  }

  /** From the start: a token looked up in time is redeemed when its ten minutes are over. */
  lemma LateRedemptionHappens(user: string, token: string, c: Choice)
    requires !c.fails
    ensures var events := LookedUp(user, token, c) + RedeemEvents(0, c);
            var s := After(INITIAL, events, |events|);
            && Redeemed(s, token) && s.now == INITIAL.now + RESET_LIFETIME
  {
    var first, more := LookedUp(user, token, c), RedeemEvents(0, c);
    LookedUpReached(user, token, c);
    HolderRedeems(After(INITIAL, first, 4), 0, c);
    AfterConcat(INITIAL, first, more, 3);
    var s := After(INITIAL, first + more, 7);
    assert s.redeemed[0] in s.redeemed;
  }
}
