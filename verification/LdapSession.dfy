/**
 One LDAP connection: the identity it is bound to across messages, the gates on
 writes, and what holds over every sequence of operations.
 */
module LdapSession {
  import opened Basics
  import opened Text
  import opened Dn
  import opened Ou
  import opened Classify
  import opened Directory
  import opened CaseOrder
  import opened Access

  // ---------- Requests and the world they meet ----------

  datatype Credentials = Simple(password: string) | Sasl

  datatype Op =
    | Bind(dn: string, cred: Credentials)
    | Unbind
    | Add(dn: string, attributesOk: bool)
    | Del(dn: string)
    | OtherOp

  /** The directory at the moment a message is handled; it may change between messages. */
  datatype World = World(
    users: map<string, seq<Attribute>>,
    groupsOf: map<string, set<string>>,      // absent: the lookup fails
    groupNames: set<string>,
    passwords: set<(string, string)>)

  datatype Code =
    | Success
    | InappropriateAuthentication
    | NamingViolation
    | UnwillingToPerform
    | InvalidCredentials
    | InsufficientAccessRights
    | InvalidDnSyntax
    | ConstraintViolation
    | NoSuchObject

  /** A write handed to the backend. */
  datatype Call =
    | CreateUser(id: string, ou: string)
    | CreateGroup(name: string, ou: string)
    | DeleteUser(id: string)
    | DeleteGroup(name: string)

  datatype Config = Config(info: LdapInfo, lower: char -> string)

  // ---------- Bind ----------

  datatype Authenticated = Authentic(id: string) | Refused(code: Code)

  // password::do_bind
  function Authenticate(cfg: Config, passwords: set<(string, string)>, dn: string, cred: Credentials): Authenticated {
    if dn == "" then Refused(InappropriateAuthentication)
    else match ClassifyDn(Lower(dn), cfg.info.base)
      case User(id) =>
        if cred.Sasl? then Refused(UnwillingToPerform)
        else if (id, cred.password) in passwords then Authentic(id)
        else Refused(InvalidCredentials)
      case _ => Refused(NamingViolation)
  }

  /** The answer to a Bind, and the identity when it is Success. A failing group lookup leaves the
      connection unbound although the answer is Success. */
  function BindOutcome(cfg: Config, w: World, dn: string, cred: Credentials): (Code, Option<ValidationResults>) {
    match Authenticate(cfg, w.passwords, dn, cred)
    case Refused(code) => (code, None)
    case Authentic(id) => Admit(cfg, w, dn, id)
  }

  // The part of do_bind that follows the password.
  function Admit(cfg: Config, w: World, dn: string, id: string): (Code, Option<ValidationResults>) {
    if id !in w.users then (InvalidCredentials, None)
    else if !OuVerified(dn, UserOu(w.users[id])) then (InvalidCredentials, None)
    else (Success, if id in w.groupsOf then Some(PermissionsFromGroups(cfg.lower, id, w.groupsOf[id])) else None)
  }

  // ---------- Add and Delete ----------

  // create_user_or_group, once past the gate
  function AddOutcome(cfg: Config, dn: string, attributesOk: bool): (Code, Option<Call>) {
    match ParseDn(dn)
    case Err(_) => (InvalidDnSyntax, None)
    case Ok(parts) =>
      match ClassifyDn(dn, cfg.info.base)
      case User(id) => if attributesOk then (Success, Some(CreateUser(id, InternalOu(parts)))) else (ConstraintViolation, None)
      case Group(name) => (Success, Some(CreateGroup(name, InternalOu(parts))))
      case _ => (InvalidDnSyntax, None)
  }

  // delete_user_or_group, once past the gate
  function DelOutcome(cfg: Config, w: World, dn: string): (Code, Option<Call>) {
    match ClassifyDn(dn, cfg.info.base)
    case User(id) => if id in w.users then (Success, Some(DeleteUser(id))) else (NoSuchObject, None)
    case Group(name) =>
      if InGroup(cfg.lower, w.groupNames, name) then (Success, Some(DeleteGroup(name))) else (NoSuchObject, None)
    case _ => (InvalidDnSyntax, None)
  }

  /** Which entry an Add creates, under which OU, and when it creates none. */
  lemma AddExact(cfg: Config, dn: string, attributesOk: bool)
    ensures var (code, call) := AddOutcome(cfg, dn, attributesOk);
            var entry := ClassifyDn(dn, cfg.info.base);
            && (code == Success <==> call.Some?)
            && (entry.User? ==>
                  && ParseDn(dn).Ok?
                  && (attributesOk ==> call == Some(CreateUser(entry.id, StoredOu(dn))))
                  && (!attributesOk ==> (code, call) == (ConstraintViolation, None)))
            && (entry.Group? ==> ParseDn(dn).Ok? && call == Some(CreateGroup(entry.name, StoredOu(dn))))
            && (!entry.User? && !entry.Group? ==> (code, call) == (InvalidDnSyntax, None))
  {
    ParseDnNormal(dn);
  }

  /** A Delete calls for exactly the entry its DN names, if that exists. */
  lemma DelExact(cfg: Config, w: World, dn: string)
    ensures var (code, call) := DelOutcome(cfg, w, dn);
            var entry := ClassifyDn(dn, cfg.info.base);
            && (code == Success <==> call.Some?)
            && (entry.User? ==>
                  if entry.id in w.users then call == Some(DeleteUser(entry.id)) else (code, call) == (NoSuchObject, None))
            && (entry.Group? ==>
                  if InGroup(cfg.lower, w.groupNames, entry.name) then call == Some(DeleteGroup(entry.name))
                  else (code, call) == (NoSuchObject, None))
            && (!entry.User? && !entry.Group? ==> (code, call) == (InvalidDnSyntax, None))
  {
  }

  lemma AuthenticateExact(cfg: Config, passwords: set<(string, string)>, dn: string, cred: Credentials)
    ensures var auth, entry := Authenticate(cfg, passwords, dn, cred), ClassifyDn(Lower(dn), cfg.info.base);
            && (auth == Refused(InappropriateAuthentication) <==> dn == "")
            && (auth == Refused(NamingViolation) <==> dn != "" && !entry.User?)
            && (auth == Refused(UnwillingToPerform) <==> dn != "" && entry.User? && cred.Sasl?)
            && (auth.Authentic? <==> dn != "" && entry.User? && cred.Simple? && (entry.id, cred.password) in passwords)
            && (auth.Authentic? ==> auth.id == entry.id)
            && (auth.Refused? ==> auth.code in {InappropriateAuthentication, NamingViolation, UnwillingToPerform, InvalidCredentials})
  {
  }

  /** A Bind is answered Success exactly if its DN names a user, the password is theirs, they exist and
      the DN carries their OU. */
  lemma BindSucceedsIff(cfg: Config, w: World, dn: string, cred: Credentials)
    ensures var entry := ClassifyDn(Lower(dn), cfg.info.base);
            BindOutcome(cfg, w, dn, cred).0 == Success <==>
              && dn != "" && entry.User? && cred.Simple? && (entry.id, cred.password) in w.passwords
              && entry.id in w.users && OuVerified(dn, UserOu(w.users[entry.id]))
  {
    AuthenticateExact(cfg, w.passwords, dn, cred);
  }

  // ---------- The session ----------

  /** What a message comes to, whoever is bound. */
  datatype Effect =
    | BindEffect(code: Code, who: Option<ValidationResults>)
    | UnbindEffect
    | WriteEffect(code: Code, call: Option<Call>)
    | NoEffect

  function EffectOf(cfg: Config, op: Op, w: World): Effect {
    match op
    case Bind(dn, cred) => var (code, who) := BindOutcome(cfg, w, dn, cred); BindEffect(code, who)
    case Unbind => UnbindEffect
    case Add(dn, attributesOk) => var (code, call) := AddOutcome(cfg, dn, attributesOk); WriteEffect(code, call)
    case Del(dn) => var (code, call) := DelOutcome(cfg, w, dn); WriteEffect(code, call)
    case OtherOp => NoEffect
  }

  datatype Session = Session(userInfo: Option<ValidationResults>, open: bool)

  datatype Outcome = Outcome(session: Session, reply: Option<Code>, call: Option<Call>)

  predicate HasAdminHandler(userInfo: Option<ValidationResults>) {
    userInfo.Some? && userInfo.value.IsAdmin()
  }

  /** One message on an open connection; a closed one handles nothing. */
  function Apply(s: Session, e: Effect): Outcome {
    if !s.open then Outcome(s, None, None)
    else match e
      case BindEffect(code, who) =>
        Outcome(if code == Success then s.(userInfo := who) else s, Some(code), None)
      case UnbindEffect => Outcome(Session(None, false), None, None)
      case WriteEffect(code, call) =>
        if HasAdminHandler(s.userInfo) then Outcome(s, Some(code), call)
        else Outcome(s, Some(InsufficientAccessRights), None)
      case NoEffect => Outcome(s, Some(UnwillingToPerform), None)
  }

  const NEW_SESSION := Session(None, true)

  /** The session after the first n messages. */
  function SessionAfter(effects: seq<Effect>, n: nat): Session
    requires n <= |effects|
  {
    if n == 0 then NEW_SESSION else Apply(SessionAfter(effects, n - 1), effects[n - 1]).session
  }

  function OutcomeAt(effects: seq<Effect>, i: nat): Outcome
    requires i < |effects|
  {
    Apply(SessionAfter(effects, i), effects[i])
  }

  /** The writes that reach the backend. */
  function Calls(effects: seq<Effect>, n: nat): seq<Call>
    requires n <= |effects|
  {
    if n == 0 then []
    else
      var o := OutcomeAt(effects, n - 1);
      if o.call.Some? then Calls(effects, n - 1) + [o.call.value] else Calls(effects, n - 1)
  }

  datatype Message = Message(op: Op, world: World)

  function Effects(cfg: Config, messages: seq<Message>): (r: seq<Effect>)
    ensures |r| == |messages|
    ensures forall i {:trigger r[i]} :: 0 <= i < |messages| ==> r[i] == EffectOf(cfg, messages[i].op, messages[i].world)
  {
    seq(|messages|, i requires 0 <= i < |messages| => EffectOf(cfg, messages[i].op, messages[i].world))
  }

  // ---------- The handler and its loop ----------

  class LdapHandler {
    const cfg: Config
    var userInfo: Option<ValidationResults>

    constructor (cfg: Config)
      ensures this.cfg == cfg && userInfo == None
    {
      this.cfg := cfg;
      userInfo := None;
    }

    /** do_bind: only a Success touches the bound identity. */
    method DoBind(dn: string, cred: Credentials, w: World) returns (code: Code)
      modifies this
      ensures code == BindOutcome(cfg, w, dn, cred).0
      ensures userInfo == if code == Success then BindOutcome(cfg, w, dn, cred).1 else old(userInfo)
      ensures code == Success ==>
                var user := BindUser(cfg, Message(Bind(dn, cred), w));
                user.Some? && (userInfo.Some? <==> user.value in w.groupsOf)
    {
      match Authenticate(cfg, w.passwords, dn, cred) {
        case Refused(c) =>
          return c;
        case Authentic(id) =>
          if id !in w.users {
            return InvalidCredentials;
          }
          var storedOu := UserOu(w.users[id]);
          if !EqFold(ProvidedOu(dn), storedOu) {
            return InvalidCredentials;
          }
          userInfo := if id in w.groupsOf then Some(PermissionsFromGroups(cfg.lower, id, w.groupsOf[id])) else None;
          SuccessNamesUser(cfg, Message(Bind(dn, cred), w));
          return Success;
      }
    }

    /** handle_ldap_message: no reply means the connection is to be closed. */
    method HandleLdapMessage(op: Op, w: World) returns (reply: Option<Code>, call: Option<Call>)
      modifies this
      ensures var outcome := Apply(Session(old(userInfo), true), EffectOf(cfg, op, w));
              && reply == outcome.reply && call == outcome.call
              && userInfo == outcome.session.userInfo
              && (reply == None <==> !outcome.session.open)
      ensures reply == None <==> op.Unbind?
    {
      match op {
        case Bind(dn, cred) =>
          var code := DoBind(dn, cred, w);
          return Some(code), None;
        case Unbind =>
          userInfo := None;
          return None, None;
        case Add(dn, attributesOk) =>
          if !(userInfo.Some? && userInfo.value.IsAdmin()) {
            return Some(InsufficientAccessRights), None;
          }
          var (code, c) := AddOutcome(cfg, dn, attributesOk);
          return Some(code), c;
        case Del(dn) =>
          if !(userInfo.Some? && userInfo.value.IsAdmin()) {
            return Some(InsufficientAccessRights), None;
          }
          var (code, c) := DelOutcome(cfg, w, dn);
          return Some(code), c;
        case OtherOp =>
          return Some(UnwillingToPerform), None;
      }
    }
  }

  lemma Turn(effects: seq<Effect>, i: nat, bound: Option<ValidationResults>)
    requires i < |effects| && SessionAfter(effects, i) == Session(bound, true)
    ensures var o := Apply(Session(bound, true), effects[i]);
            && SessionAfter(effects, i + 1) == o.session
            && Calls(effects, i + 1) == Calls(effects, i) + if o.call.Some? then [o.call.value] else []
  {
  }

  ghost predicate NoUnbind(messages: seq<Message>, n: nat)
    requires n <= |messages|
  {
    forall i :: 0 <= i < n ==> !messages[i].op.Unbind?
  }

  /** The loop after n messages: the specified session and calls so far, and an Unbind exactly when
      the connection is closed. */
  ghost predicate Reached(effects: seq<Effect>, messages: seq<Message>, n: nat, s: Session, calls: seq<Call>)
    requires n <= |effects| == |messages|
  {
    && SessionAfter(effects, n) == s
    && Calls(effects, n) == calls
    && (if s.open then NoUnbind(messages, n) else n > 0 && NoUnbind(messages, n - 1) && messages[n - 1].op.Unbind?)
  }

  /** One round of the loop. */
  method TakeTurn(session: LdapHandler, messages: seq<Message>, calls: seq<Call>, ghost effects: seq<Effect>, i: nat)
    returns (open: bool, more: seq<Call>)
    requires i < |messages| && effects == Effects(session.cfg, messages)
    requires Reached(effects, messages, i, Session(session.userInfo, true), calls)
    modifies session
    ensures Reached(effects, messages, i + 1, Session(session.userInfo, open), more)
  {
    var msg := messages[i];
    assert effects[i] == EffectOf(session.cfg, msg.op, msg.world);
    Turn(effects, i, session.userInfo);
    var reply, call := session.HandleLdapMessage(msg.op, msg.world);
    open := reply != None;
    more := calls + if call.Some? then [call.value] else [];
  }

  /** Stopping at the first message without a reply loses nothing. */
  lemma StoppingLosesNothing(effects: seq<Effect>, messages: seq<Message>, n: nat, s: Session, calls: seq<Call>)
    requires n <= |effects| == |messages| && Reached(effects, messages, n, s, calls)
    ensures !s.open || n == |messages| ==> calls == Calls(effects, |messages|)
    ensures NoUnbind(messages, if n > 0 then n - 1 else 0)
    ensures s.open || (n > 0 && messages[n - 1].op.Unbind?)
  {
    if !s.open {
      ClosedForGood(effects, n, |messages|);
    }
  }

  /** handle_ldap_stream: the loop stops at the first message without a reply, which loses nothing. */
  method HandleStream(cfg: Config, messages: seq<Message>) returns (calls: seq<Call>, handled: nat)
    ensures handled <= |messages|
    ensures calls == Calls(Effects(cfg, messages), |messages|)
    ensures NoUnbind(messages, if handled > 0 then handled - 1 else 0)
    ensures handled == |messages| || (handled > 0 && messages[handled - 1].op.Unbind?)
  {
    ghost var effects := Effects(cfg, messages);
    var session := new LdapHandler(cfg);
    var open := true;
    calls, handled := [], 0;
    while open && handled < |messages|
      invariant handled <= |messages|
      invariant session.cfg == cfg && fresh(session)
      invariant Reached(effects, messages, handled, Session(session.userInfo, open), calls)
      decreases |messages| - handled
    {
      open, calls := TakeTurn(session, messages, calls, effects, handled);
      handled := handled + 1;
    }
    StoppingLosesNothing(effects, messages, handled, Session(session.userInfo, open), calls);
  }

  // ---------- Over every sequence of messages ----------

  /** A connection that is closed stays closed, answers nothing and hands the backend nothing. */
  lemma {:induction false} ClosedForGood(effects: seq<Effect>, m: nat, n: nat)
    requires m <= n <= |effects| && !SessionAfter(effects, m).open
    ensures SessionAfter(effects, n) == SessionAfter(effects, m)
    ensures Calls(effects, n) == Calls(effects, m)
    ensures forall i :: m <= i < n ==> OutcomeAt(effects, i).reply == None && OutcomeAt(effects, i).call == None
    decreases n
  {
    if m < n {
      ClosedForGood(effects, m, n - 1);
    }
  }

  /** Nothing is handled after an Unbind. */
  lemma UnbindEndsIt(cfg: Config, messages: seq<Message>, m: nat, n: nat)
    requires m < n < |messages| && messages[m].op.Unbind?
    ensures OutcomeAt(Effects(cfg, messages), n).reply == None && OutcomeAt(Effects(cfg, messages), n).call == None
    ensures Calls(Effects(cfg, messages), n + 1) == Calls(Effects(cfg, messages), m)
  {
    UnbindCloses(Effects(cfg, messages), m, n);
  }

  lemma UnbindCloses(effects: seq<Effect>, m: nat, n: nat)
    requires m < n < |effects| && effects[m] == UnbindEffect
    ensures OutcomeAt(effects, n).reply == None && OutcomeAt(effects, n).call == None
    ensures Calls(effects, n + 1) == Calls(effects, m)
  {
    assert !SessionAfter(effects, m + 1).open;
    ClosedForGood(effects, m + 1, n + 1);
  }

  /** A Bind answered Success. */
  predicate BindsAt(effects: seq<Effect>, i: nat)
    requires i < |effects|
  {
    effects[i].BindEffect? && OutcomeAt(effects, i).reply == Some(Success)
  }

  /** Nothing after message j and before message n rebinds or unbinds. */
  ghost predicate Undisturbed(effects: seq<Effect>, j: nat, n: nat)
    requires n <= |effects|
  {
    forall m :: j < m < n ==> !BindsAt(effects, m) && !effects[m].UnbindEffect?
  }

  lemma {:induction false} BoundMeansOpen(effects: seq<Effect>, n: nat)
    requires n <= |effects|
    ensures SessionAfter(effects, n).userInfo.Some? ==> SessionAfter(effects, n).open
  {
    if n > 0 {
      BoundMeansOpen(effects, n - 1);
    }
  }

  /** The bound identity is the one the latest Bind answered Success came with. */
  lemma {:induction false} IdentityFromLatestBind(effects: seq<Effect>, n: nat) returns (j: nat)
    requires n <= |effects| && SessionAfter(effects, n).userInfo.Some?
    ensures j < n && BindsAt(effects, j) && Undisturbed(effects, j, n)
    ensures effects[j].who == SessionAfter(effects, n).userInfo
  {
    BoundMeansOpen(effects, n - 1);
    if BindsAt(effects, n - 1) {
      j := n - 1;
    } else {
      j := IdentityFromLatestBind(effects, n - 1);
    }
  }

  /** What a Bind answered Success with an identity established at that moment: the DN names the
      user, the password was theirs, the DN carried their stored OU, the permissions are those of
      their groups. */
  ghost predicate Establishes(cfg: Config, msg: Message, v: ValidationResults) {
    && msg.op.Bind? && msg.op.cred.Simple?
    && ClassifyDn(Lower(msg.op.dn), cfg.info.base) == User(v.user)
    && (v.user, msg.op.cred.password) in msg.world.passwords
    && v.user in msg.world.users && OuVerified(msg.op.dn, UserOu(msg.world.users[v.user]))
    && v.user in msg.world.groupsOf
    && v == PermissionsFromGroups(cfg.lower, v.user, msg.world.groupsOf[v.user])
  }

  lemma BindEstablishes(cfg: Config, msg: Message, v: ValidationResults)
    requires EffectOf(cfg, msg.op, msg.world) == BindEffect(Success, Some(v))
    ensures Establishes(cfg, msg, v)
  {
    var id := Authenticate(cfg, msg.world.passwords, msg.op.dn, msg.op.cred).id;
  }

  lemma BindEffectIsSuccess(effects: seq<Effect>, j: nat)
    requires j < |effects| && BindsAt(effects, j)
    ensures effects[j] == BindEffect(Success, effects[j].who)
  {
  }

  /** A bound connection names the user of the latest Bind answered Success, and carries the
      permissions that user had then. */
  lemma BoundByLatestBind(cfg: Config, messages: seq<Message>, n: nat) returns (j: nat)
    requires n <= |messages| && SessionAfter(Effects(cfg, messages), n).userInfo.Some?
    ensures j < n && BindsAt(Effects(cfg, messages), j) && Undisturbed(Effects(cfg, messages), j, n)
    ensures Establishes(cfg, messages[j], SessionAfter(Effects(cfg, messages), n).userInfo.value)
  {
    var effects := Effects(cfg, messages);
    j := IdentityFromLatestBind(effects, n);
    BindEffectIsSuccess(effects, j);
    BindEstablishes(cfg, messages[j], SessionAfter(effects, n).userInfo.value);
  }

  lemma OnlyAdminsCall(effects: seq<Effect>, n: nat)
    requires n < |effects| && OutcomeAt(effects, n).call.Some?
    ensures HasAdminHandler(SessionAfter(effects, n).userInfo)
  {
  }

  lemma AdminsAreInTheGroup(cfg: Config, msg: Message, v: ValidationResults)
    requires Establishes(cfg, msg, v) && v.IsAdmin()
    ensures InGroup(cfg.lower, msg.world.groupsOf[v.user], "lldap_admin")
  {
  }

  /** Every Add or Delete that reaches the backend follows a successful Bind of a user who was in
      lldap_admin at that moment, with no Unbind and no other successful Bind in between. */
  lemma WritesFollowAdminBind(cfg: Config, messages: seq<Message>, n: nat) returns (j: nat, v: ValidationResults)
    requires n < |messages| && OutcomeAt(Effects(cfg, messages), n).call.Some?
    ensures j < n && BindsAt(Effects(cfg, messages), j) && Undisturbed(Effects(cfg, messages), j, n)
    ensures Establishes(cfg, messages[j], v)
    ensures InGroup(cfg.lower, messages[j].world.groupsOf[v.user], "lldap_admin")
  {
    OnlyAdminsCall(Effects(cfg, messages), n);
    j := BoundByLatestBind(cfg, messages, n);
    v := SessionAfter(Effects(cfg, messages), n).userInfo.value;
    AdminsAreInTheGroup(cfg, messages[j], v);
  }

  /** A Bind that is not answered Success changes nothing. */
  lemma RejectedBindKeepsIdentity(effects: seq<Effect>, i: nat)
    requires i < |effects| && effects[i].BindEffect? && !BindsAt(effects, i)
    ensures SessionAfter(effects, i + 1) == SessionAfter(effects, i)
  {
  }

  /** The user a Bind names. */
  function BindUser(cfg: Config, msg: Message): Option<string> {
    if !msg.op.Bind? then None
    else match ClassifyDn(Lower(msg.op.dn), cfg.info.base)
      case User(id) => Some(id)
      case _ => None
  }

  lemma AdmitWho(cfg: Config, w: World, dn: string, id: string)
    requires Admit(cfg, w, dn, id).0 == Success
    ensures Admit(cfg, w, dn, id).1.Some? <==> id in w.groupsOf
  {
  }

  lemma SuccessNamesUser(cfg: Config, msg: Message)
    requires EffectOf(cfg, msg.op, msg.world).BindEffect? && EffectOf(cfg, msg.op, msg.world).code == Success
    ensures BindUser(cfg, msg).Some?
    ensures EffectOf(cfg, msg.op, msg.world).who.Some? <==> BindUser(cfg, msg).value in msg.world.groupsOf
  {
    var auth := Authenticate(cfg, msg.world.passwords, msg.op.dn, msg.op.cred);
    AuthenticateExact(cfg, msg.world.passwords, msg.op.dn, msg.op.cred);
    assert auth.Authentic?;
    AdmitWho(cfg, msg.world, msg.op.dn, auth.id);
  }

  lemma BindSetsIdentity(effects: seq<Effect>, i: nat)
    requires i < |effects| && BindsAt(effects, i)
    ensures effects[i].code == Success && SessionAfter(effects, i + 1) == Session(effects[i].who, true)
  {
  }

  /** After a Bind answered Success the connection is bound exactly when the groups of the user the
      DN names could be looked up at that moment; otherwise it is left unbound. */
  lemma BoundAfterBindIff(cfg: Config, messages: seq<Message>, i: nat)
    requires i < |messages| && BindsAt(Effects(cfg, messages), i)
    ensures BindUser(cfg, messages[i]).Some?
    ensures SessionAfter(Effects(cfg, messages), i + 1).userInfo.Some?
            <==> BindUser(cfg, messages[i]).value in messages[i].world.groupsOf
  {
    var effects := Effects(cfg, messages);
    BindSetsIdentity(effects, i);
    SuccessNamesUser(cfg, messages[i]);
  }

  /** Binding twice with the same DN and password, the second time with a failing group look-up. */
  function BindTwice(dn: string, password: string, w: World, id: string): seq<Message> {
    var bind := Bind(dn, Simple(password));
    [Message(bind, w), Message(bind, w.(groupsOf := w.groupsOf - {id}))]
  }

  /** Whoever can bind at all can lose their identity to a second Bind that is answered Success. */
  lemma SuccessLosesIdentity(cfg: Config, dn: string, password: string, w: World, v: ValidationResults)
    requires BindOutcome(cfg, w, dn, Simple(password)) == (Success, Some(v))
    ensures var effects := Effects(cfg, BindTwice(dn, password, w, v.user));
            && SessionAfter(effects, 1).userInfo == Some(v)
            && BindsAt(effects, 1) && SessionAfter(effects, 2) == Session(None, true)
  {
    var messages := BindTwice(dn, password, w, v.user);
    var effects := Effects(cfg, messages);
    SecondBind(cfg, dn, password, w, v);
    assert effects[0] == BindEffect(Success, Some(v)) && effects[1] == BindEffect(Success, None);
    assert SessionAfter(effects, 1) == Apply(SessionAfter(effects, 0), effects[0]).session;
    assert SessionAfter(effects, 2) == Apply(SessionAfter(effects, 1), effects[1]).session;
  }

  lemma SecondBind(cfg: Config, dn: string, password: string, w: World, v: ValidationResults)
    requires BindOutcome(cfg, w, dn, Simple(password)) == (Success, Some(v))
    ensures BindOutcome(cfg, w.(groupsOf := w.groupsOf - {v.user}), dn, Simple(password)) == (Success, None)
  {
    var auth := Authenticate(cfg, w.passwords, dn, Simple(password));
    assert auth.Authentic?;
    AdmitWithoutGroups(cfg, w, dn, auth.id, v);
  }

  lemma AdmitWithoutGroups(cfg: Config, w: World, dn: string, id: string, v: ValidationResults)
    requires Admit(cfg, w, dn, id) == (Success, Some(v))
    ensures v.user == id && Admit(cfg, w.(groupsOf := w.groupsOf - {v.user}), dn, id) == (Success, None)
  {
  }

  // ---------- From Add to Bind ----------

  /** A user created over LDAP can bind with the DN that searches show for them, given the right
      password, exactly when the base has no `ou` RDN and the OU that the Add stored is in normal
      form. */
  lemma AddedUserBinds(cfg: Config, dn: string, w: World, password: string)
    requires IsBase(cfg.info)
    requires AddOutcome(cfg, dn, true).1.Some? && AddOutcome(cfg, dn, true).1.value.CreateUser?
    requires var call := AddOutcome(cfg, dn, true).1.value;
             && call.id in w.users && UserOu(w.users[call.id]) == call.ou
             && (call.id, password) in w.passwords
    ensures var call := AddOutcome(cfg, dn, true).1.value;
            var shown := BuildUserDn(call.id, UserOu(w.users[call.id]), cfg.info.baseStr);
            BindOutcome(cfg, w, shown, Simple(password)).0 == Success <==> HasNoOu(cfg.info.base) && IsNormalOu(call.ou)
  {
    var call := AddOutcome(cfg, dn, true).1.value;
    assert ClassifyDn(dn, cfg.info.base) == User(call.id) && call.ou == StoredOu(dn);
    SearchAndBindAgree(dn, cfg.info, call.id);
    var shown := BuildUserDn(call.id, call.ou, cfg.info.baseStr);
    assert shown[0] == 'u';
    BindWithDn(cfg, w, shown, password, call.id);
  }

  /** The answer to a Bind with a DN that names the user, or nobody. */
  lemma BindWithDn(cfg: Config, w: World, dn: string, password: string, id: string)
    requires dn != "" && id in w.users && (id, password) in w.passwords
    requires ClassifyDn(Lower(dn), cfg.info.base) in {User(id), UnexpectedFormat}
    ensures BindOutcome(cfg, w, dn, Simple(password)).0 == Success <==>
              ClassifyDn(Lower(dn), cfg.info.base) == User(id) && OuVerified(dn, UserOu(w.users[id]))
  {
  }

  /** The world in which one user, with these attributes and this password, exists. */
  function OneUser(id: string, attributes: seq<Attribute>, password: string): World {
    World(map[id := attributes], map[id := {}], {}, {(id, password)})
  }

  lemma OuOfOneUser(id: string, ou: string, password: string)
    ensures UserOu(OneUser(id, [Attribute("ou", SingleText(ou))], password).users[id]) == ou
  {
    LowerIsLower("ou");
  }

  /** The same for a user who is alone in the world after the Add. */
  lemma AddedAloneBinds(cfg: Config, dn: string, id: string, ou: string, password: string)
    requires IsBase(cfg.info) && ClassifyDn(dn, cfg.info.base) == User(id) && ParseDn(dn).Ok? && StoredOu(dn) == ou
    ensures AddOutcome(cfg, dn, true) == (Success, Some(CreateUser(id, ou)))
    ensures var w := OneUser(id, [Attribute("ou", SingleText(ou))], password);
            BindOutcome(cfg, w, BuildUserDn(id, ou, cfg.info.baseStr), Simple(password)).0 == Success
            <==> HasNoOu(cfg.info.base) && IsNormalOu(ou)
  {
    OuOfOneUser(id, ou, password);
    AddedUserBinds(cfg, dn, OneUser(id, [Attribute("ou", SingleText(ou))], password), password);
  }

  /** A user added with a blank component cannot bind with the DN shown for them. */
  lemma BlankComponentCannotBind(lower: char -> string)
    ensures var cfg := Config(EXAMPLE, lower);
            var dn := AddDn("bob", [Rdn("ou", ""), Rdn("ou", "a")], EXAMPLE.base);
            var w := OneUser("bob", [Attribute("ou", SingleText("a\\"))], "pw");
            && AddOutcome(cfg, dn, true) == (Success, Some(CreateUser("bob", "a\\")))
            && BindOutcome(cfg, w, BuildUserDn("bob", "a\\", EXAMPLE.baseStr), Simple("pw")).0 != Success
  {
    ExampleIsPlain();
    BlankComponentStored();
    AddedAloneBinds(Config(EXAMPLE, lower), AddDn("bob", [Rdn("ou", ""), Rdn("ou", "a")], EXAMPLE.base), "bob", "a\\", "pw");
  }

  /** Nor can the user added past the junk, whose stored OU is normal. */
  lemma JunkUserCannotBind(lower: char -> string)
    ensures var cfg := Config(OU_EXAMPLE, lower);
            var w := OneUser("a", [Attribute("ou", SingleText("x"))], "pw");
            && AddOutcome(cfg, JUNK_DN, true) == (Success, Some(CreateUser("a", "x"))) && IsNormalOu("x")
            && BindOutcome(cfg, w, BuildUserDn("a", "x", OU_EXAMPLE.baseStr), Simple("pw")).0 != Success
  {
    OuExampleShape();
    JunkWithCleanOus();
    AddedAloneBinds(Config(OU_EXAMPLE, lower), JUNK_DN, "a", "x", "pw");
  }

  /** Somebody can bind: a user under `ou=people`. */
  lemma SomebodyBinds(lower: char -> string)
    ensures var dn := AddDn("bob", [Rdn("ou", "people")], EXAMPLE.base);
            BindOutcome(Config(EXAMPLE, lower), OneUser("bob", [], "pw"), dn, Simple("pw"))
            == (Success, Some(PermissionsFromGroups(lower, "bob", {})))
  {
    var ous := [Rdn("ou", "people")];
    var dn := AddDn("bob", ous, EXAMPLE.base);
    ExampleIsPlain();
    AddDnAdds("bob", ous, EXAMPLE);
    ParseReachesNormalForm(dn);
    OwnDnVerifies(dn);
    assert Reverse(Values(ous)) == ["people"];
    assert StoredOu(dn) == "people";
    assert dn != "" by {
      assert ParseDn("").Err?;
    }
  }

  /** The whole story: bob binds, binds again, is answered Success and is nobody. */
  lemma BobIsNobody(lower: char -> string)
    ensures var cfg, w := Config(EXAMPLE, lower), OneUser("bob", [], "pw");
            var effects := Effects(cfg, BindTwice(AddDn("bob", [Rdn("ou", "people")], EXAMPLE.base), "pw", w, "bob"));
            && SessionAfter(effects, 1).userInfo == Some(PermissionsFromGroups(lower, "bob", {}))
            && BindsAt(effects, 1) && SessionAfter(effects, 2) == Session(None, true)
  {
    SomebodyBinds(lower);
    SuccessLosesIdentity(Config(EXAMPLE, lower), AddDn("bob", [Rdn("ou", "people")], EXAMPLE.base), "pw",
                         OneUser("bob", [], "pw"), PermissionsFromGroups(lower, "bob", {}));
  }
}
