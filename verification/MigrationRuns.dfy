/**
 Whole runs of the migration tool: what a run without failures leaves on the server,
 and when a second run finds nothing left to do.
 */
module MigrationRuns {
  import opened Basics
  import opened Text
  import opened Migration

  // ---------- Look-ups by position ----------

  /** The last LDAP user with this DN. */
  ghost predicate IsLastWith(users: seq<LdapUser>, i: int, dn: string) {
    && 0 <= i < |users| && users[i].dn == dn
    && forall j :: i < j < |users| ==> users[j].dn != dn
  }

  lemma {:induction false} ResolveAt(users: seq<LdapUser>, i: int, dn: string)
    requires IsLastWith(users, i, dn)
    ensures Resolve(users, dn) == Some(users[i].id)
  {
    if i < |users| - 1 {
      ResolveAt(users[..|users| - 1], i, dn);
    }
  }

  lemma {:induction false} ResolveNone(users: seq<LdapUser>, dn: string)
    requires forall j :: 0 <= j < |users| ==> users[j].dn != dn
    ensures Resolve(users, dn) == None
  {
    if users != [] {
      ResolveNone(users[..|users| - 1], dn);
    }
  }

  lemma {:induction false} LastWith(users: seq<LdapUser>, dn: string, k: nat) returns (i: int)
    requires k < |users| && users[k].dn == dn
    ensures IsLastWith(users, i, dn)
    decreases |users| - k
  {
    if j :| k < j < |users| && users[j].dn == dn {
      i := LastWith(users, dn, j);
    } else {
      i := k;
    }
  }

  /** A DN resolves to the id of the last LDAP user that has it, and to nobody if none has. */
  lemma ResolveExact(users: seq<LdapUser>, dn: string)
    ensures Resolve(users, dn) == None <==> forall j :: 0 <= j < |users| ==> users[j].dn != dn
    ensures forall id :: Resolve(users, dn) == Some(id) <==> exists i :: IsLastWith(users, i, dn) && users[i].id == id
  {
    if k :| 0 <= k < |users| && users[k].dn == dn {
      var i := LastWith(users, dn, k);
      ResolveAt(users, i, dn);
      forall i' | IsLastWith(users, i', dn)
        ensures Resolve(users, dn) == Some(users[i'].id)
      {
        ResolveAt(users, i', dn);
      }
    } else {
      ResolveNone(users, dn);
    }
  }

  /** The last group on the server with this name. */
  ghost predicate IsLastNamed(groups: seq<LldapGroup>, k: int, name: string) {
    && 0 <= k < |groups| && groups[k].name == name
    && forall j :: k < j < |groups| ==> groups[j].name != name
  }

  lemma {:induction false} FindGroupAt(groups: seq<LldapGroup>, k: int, name: string)
    requires IsLastNamed(groups, k, name)
    ensures FindGroup(groups, name) == Some(groups[k])
  {
    if k < |groups| - 1 {
      FindGroupAt(groups[..|groups| - 1], k, name);
    }
  }

  lemma {:induction false} FindGroupNone(groups: seq<LldapGroup>, name: string)
    requires forall j :: 0 <= j < |groups| ==> groups[j].name != name
    ensures FindGroup(groups, name) == None
  {
    if groups != [] {
      FindGroupNone(groups[..|groups| - 1], name);
    }
  }

  lemma {:induction false} LastNamed(groups: seq<LldapGroup>, name: string, j: nat) returns (k: int)
    requires j < |groups| && groups[j].name == name
    ensures IsLastNamed(groups, k, name)
    decreases |groups| - j
  {
    if j' :| j < j' < |groups| && groups[j'].name == name {
      k := LastNamed(groups, name, j');
    } else {
      k := j;
    }
  }

  /** A name finds the last group on the server that has it. */
  lemma FindGroupExact(groups: seq<LldapGroup>, name: string)
    ensures FindGroup(groups, name) == None <==> forall j :: 0 <= j < |groups| ==> groups[j].name != name
    ensures forall g :: FindGroup(groups, name) == Some(g) <==> exists k :: IsLastNamed(groups, k, name) && groups[k] == g
  {
    if j :| 0 <= j < |groups| && groups[j].name == name {
      var k := LastNamed(groups, name, j);
      FindGroupAt(groups, k, name);
      forall k' | IsLastNamed(groups, k', name)
        ensures FindGroup(groups, name) == Some(groups[k'])
      {
        FindGroupAt(groups, k', name);
      }
    } else {
      FindGroupNone(groups, name);
    }
  }

  ghost predicate DistinctDns(users: seq<LdapUser>) {
    forall i, j :: 0 <= i < j < |users| ==> users[i].dn != users[j].dn
  }

  lemma ResolveOwn(users: seq<LdapUser>, u: LdapUser)
    requires u in users && DistinctDns(users)
    ensures Resolve(users, u.dn) == Some(u.id)
  {
    var i :| 0 <= i < |users| && users[i] == u;
    ResolveAt(users, i, u.dn);
  }

  // ---------- A run without failures ----------

  function AfterUsers(s: Server, users: seq<LdapUser>): Server {
    ApplyAll(s, UserPosts(NewUsers(users, s.users)))
  }

  function AfterGroups(s: Server, groups: seq<LdapGroup>): Server {
    ApplyAll(s, GroupPosts(groups, s.groups))
  }

  function AfterMembers(s: Server, users: seq<LdapUser>, groups: seq<LdapGroup>): Server {
    ApplyAll(s, MembershipPosts(users, groups, s.users, s.groups))
  }

  function AfterRun(s: Server, users: seq<LdapUser>, groups: seq<LdapGroup>): Server {
    AfterMembers(AfterGroups(AfterUsers(s, users), groups), users, groups)
  }

  /** Everything a run posts. */
  function Todo(s: Server, users: seq<LdapUser>, groups: seq<LdapGroup>): seq<Post> {
    var t := AfterGroups(AfterUsers(s, users), groups);
    UserPosts(NewUsers(users, s.users)) + GroupPosts(groups, AfterUsers(s, users).groups)
    + MembershipPosts(users, groups, t.users, t.groups)
  }

  /** What the GraphQL API keeps: it stores user ids in lower case. */
  ghost predicate LowerIds(users: seq<string>) {
    forall u :: u in users ==> IsLower(u)
  }

  ghost predicate AllIdsLower(users: seq<LdapUser>) {
    forall u :: u in users ==> IsLower(u.id)
  }

  // ---------- Users ----------

  lemma {:induction false} UsersAfter(s: Server, posts: seq<Post>)
    ensures var t := ApplyAll(s, posts);
            && t.users == KnownAfter(s.users, posts)
            && (forall u :: u in s.users ==> u in t.users)
            && (forall u :: CreateUser(u) in posts ==> Lower(u) in t.users)
            && (LowerIds(s.users) ==> LowerIds(t.users))
  {
    if posts != [] {
      var front, last := posts[..|posts| - 1], posts[|posts| - 1];
      UsersAfter(s, front);
      assert posts == front + [last];
      if last.CreateUser? {
        LowerIsLower(last.user);
      }
    }
  }

  lemma {:induction false} NewUsersExact(users: seq<LdapUser>, existing: seq<string>)
    ensures forall u :: u in users && u.id !in existing <==> u in NewUsers(users, existing)
    ensures NewUsers(users, existing) == [] <==> forall u :: u in users ==> u.id in existing
  {
    if users != [] {
      var front, last := users[..|users| - 1], users[|users| - 1];
      NewUsersExact(front, existing);
      assert users == front + [last];
    }
  }

  lemma UsersPresent(s: Server, users: seq<LdapUser>, u: LdapUser)
    requires u in users && IsLower(u.id)
    ensures u.id in AfterUsers(s, users).users
  {
    var todo := NewUsers(users, s.users);
    UsersAfter(s, UserPosts(todo));
    NewUsersExact(users, s.users);
    LowerIsLower(u.id);
    if u.id !in s.users {
      var i :| 0 <= i < |todo| && todo[i] == u;
      assert UserPosts(todo)[i] == CreateUser(u.id);
    }
  }

  // ---------- Groups ----------

  lemma {:induction false} FoundIffNamed(groups: seq<LldapGroup>, name: string)
    ensures FindGroup(groups, name).Some? <==> HasName(groups, name)
    ensures FindGroup(groups, name).Some? ==> FindGroup(groups, name).value.name == name
  {
    if groups != [] {
      FoundIffNamed(groups[..|groups| - 1], name);
      assert forall i :: 0 <= i < |groups| - 1 ==> groups[..|groups| - 1][i] == groups[i];
    }
  }

  lemma NamesKept(s: Server, p: Post, name: string)
    ensures HasName(s.groups, name) ==> HasName(Apply(s, p).groups, name)
    ensures p == CreateGroup(name) ==> HasName(Apply(s, p).groups, name)
  {
    var t := Apply(s, p);
    assert forall i :: 0 <= i < |s.groups| ==> t.groups[i].name == s.groups[i].name;
    if p == CreateGroup(name) {
      assert t.groups[|s.groups|].name == name;
    }
  }

  lemma {:induction false} NamesAfter(s: Server, posts: seq<Post>, name: string)
    ensures HasName(s.groups, name) || CreateGroup(name) in posts ==> HasName(ApplyAll(s, posts).groups, name)
  {
    if posts != [] {
      var front, last := posts[..|posts| - 1], posts[|posts| - 1];
      NamesAfter(s, front, name);
      NamesKept(ApplyAll(s, front), last, name);
      assert posts == front + [last];
    }
  }

  predicate Listed(groups: seq<LdapGroup>, name: string) {
    exists i :: 0 <= i < |groups| && groups[i].name == name
  }

  lemma {:induction false} GroupPostsExact(groups: seq<LdapGroup>, existing: seq<LldapGroup>)
    ensures forall g :: g in groups && !HasName(existing, g.name) ==> CreateGroup(g.name) in GroupPosts(groups, existing)
    ensures forall p :: p in GroupPosts(groups, existing) ==> !HasName(existing, p.name) && Listed(groups, p.name)
    ensures (forall g :: g in groups ==> HasName(existing, g.name)) ==> GroupPosts(groups, existing) == []
  {
    if groups != [] {
      var front, last := groups[..|groups| - 1], groups[|groups| - 1];
      GroupPostsExact(front, existing);
      assert groups == front + [last];
      assert forall i :: 0 <= i < |front| ==> groups[i] == front[i];
      assert Listed(groups, last.name) && forall name :: Listed(front, name) ==> Listed(groups, name);
    }
  }

  lemma GroupsPresent(s: Server, groups: seq<LdapGroup>, g: LdapGroup)
    requires g in groups
    ensures HasName(AfterGroups(s, groups).groups, g.name)
  {
    GroupPostsExact(groups, s.groups);
    NamesAfter(s, GroupPosts(groups, s.groups), g.name);
  }

  // ---------- Memberships ----------

  lemma {:induction false} MemberPostsExact(users: seq<LdapUser>, existing: seq<string>, group: LldapGroup, members: seq<string>)
    ensures forall p :: p in MemberPosts(users, existing, group, members) ==> p.AddMember?
    ensures forall dn :: dn in members && IsMissing(users, existing, group, dn) ==>
                           AddMember(Resolve(users, dn).value, group.id) in MemberPosts(users, existing, group, members)
    ensures (forall dn :: dn in members ==> !IsMissing(users, existing, group, dn)) ==>
              MemberPosts(users, existing, group, members) == []
  {
    if members != [] {
      var front, last := members[..|members| - 1], members[|members| - 1];
      MemberPostsExact(users, existing, group, front);
      assert members == front + [last];
    }
  }

  ghost predicate NoneMissing(users: seq<LdapUser>, existing: seq<string>, known: seq<LldapGroup>, g: LdapGroup) {
    var found := FindGroup(known, g.name);
    found.Some? ==> forall dn :: dn in g.members ==> !IsMissing(users, existing, found.value, dn)
  }

  ghost predicate Covers(posts: seq<Post>, users: seq<LdapUser>, existing: seq<string>, known: seq<LldapGroup>, g: LdapGroup) {
    var found := FindGroup(known, g.name);
    found.Some? ==> forall dn :: dn in g.members && IsMissing(users, existing, found.value, dn) ==>
                                   AddMember(Resolve(users, dn).value, found.value.id) in posts
  }

  lemma {:induction false} MembershipPostsExact(users: seq<LdapUser>, groups: seq<LdapGroup>, existing: seq<string>, known: seq<LldapGroup>)
    ensures var posts := MembershipPosts(users, groups, existing, known);
            && (forall p :: p in posts ==> p.AddMember?)
            && (forall g :: g in groups ==> Covers(posts, users, existing, known, g))
            && ((forall g :: g in groups ==> NoneMissing(users, existing, known, g)) ==> posts == [])
  {
    if groups != [] {
      var front, last := groups[..|groups| - 1], groups[|groups| - 1];
      MembershipPostsExact(users, front, existing, known);
      assert groups == front + [last];
      var found := FindGroup(known, last.name);
      if found.Some? {
        MemberPostsExact(users, existing, found.value, last.members);
        assert NoneMissing(users, existing, known, last) ==> MemberPosts(users, existing, found.value, last.members) == [];
      }
      assert last in groups && forall g :: g in front ==> g in groups;
    }
  }

  /** A membership that is to be posted: the user with that DN, known and not yet in the known group,
      is a member of the LDAP group of that name. */
  ghost predicate IsMissingMember(users: seq<LdapUser>, existing: seq<string>, known: seq<LldapGroup>, g: LdapGroup, i: int, k: int, p: Post) {
    && 0 <= i < |users| && users[i].dn in g.members && IsLastWith(users, i, users[i].dn)
    && IsLastNamed(known, k, g.name)
    && users[i].id in existing && users[i].id !in known[k].users
    && p == AddMember(users[i].id, known[k].id)
  }

  lemma {:induction false} MemberPostSource(users: seq<LdapUser>, existing: seq<string>, group: LldapGroup, members: seq<string>, p: Post)
    returns (dn: string)
    requires p in MemberPosts(users, existing, group, members)
    ensures dn in members && IsMissing(users, existing, group, dn) && p == AddMember(Resolve(users, dn).value, group.id)
  {
    var front, last := members[..|members| - 1], members[|members| - 1];
    if p in MemberPosts(users, existing, group, front) {
      dn := MemberPostSource(users, existing, group, front, p);
    } else {
      dn := last;
    }
  }

  lemma {:induction false} WantedSource(users: seq<LdapUser>, groups: seq<LdapGroup>, existing: seq<string>, known: seq<LldapGroup>, p: Post)
    returns (g: LdapGroup, dn: string)
    requires p in MembershipPosts(users, groups, existing, known)
    ensures g in groups && dn in g.members && FindGroup(known, g.name).Some?
    ensures var group := FindGroup(known, g.name).value;
            IsMissing(users, existing, group, dn) && p == AddMember(Resolve(users, dn).value, group.id)
  {
    var front, last := groups[..|groups| - 1], groups[|groups| - 1];
    if p in MembershipPosts(users, front, existing, known) {
      g, dn := WantedSource(users, front, existing, known, p);
    } else {
      g := last;
      dn := MemberPostSource(users, existing, FindGroup(known, last.name).value, last.members, p);
    }
  }

  /** No membership is ever wanted that exists already or whose user or group is unknown; with the
      requests being for what is wanted, none is ever posted, whatever fails or is skipped. */
  lemma WantedIsMissing(users: seq<LdapUser>, groups: seq<LdapGroup>, existing: seq<string>, known: seq<LldapGroup>, p: Post)
    returns (g: LdapGroup, i: int, k: int)
    requires p in MembershipPosts(users, groups, existing, known)
    ensures g in groups && IsMissingMember(users, existing, known, g, i, k, p)
  {
    var dn;
    g, dn := WantedSource(users, groups, existing, known, p);
    ResolveExact(users, dn);
    FindGroupExact(known, g.name);
    assert Resolve(users, dn) == Some(Resolve(users, dn).value) && FindGroup(known, g.name) == Some(FindGroup(known, g.name).value);
    i :| IsLastWith(users, i, dn) && users[i].id == Resolve(users, dn).value;
    k :| IsLastNamed(known, k, g.name) && known[k] == FindGroup(known, g.name).value;
  }

  /** What adding members does to the group found under a name: same id, and as members exactly those
      it had and the ones added under its id. */
  ghost predicate Joined(before: Option<LldapGroup>, now: Option<LldapGroup>, posts: seq<Post>) {
    && (before.Some? <==> now.Some?)
    && (before.Some? ==>
          && now.value.id == before.value.id
          && forall u :: u in now.value.users <==> u in before.value.users || AddMember(u, before.value.id) in posts)
  }

  lemma {:induction false} FindWithMember(groups: seq<LldapGroup>, user: string, id: nat, name: string)
    ensures Joined(FindGroup(groups, name), FindGroup(WithMember(groups, user, id), name), [AddMember(user, id)])
  {
    if groups != [] {
      var front := groups[..|groups| - 1];
      FindWithMember(front, user, id, name);
      assert WithMember(groups, user, id)[..|groups| - 1] == WithMember(front, user, id);
    }
  }

  lemma {:induction false} FindAfter(s: Server, posts: seq<Post>, name: string)
    requires forall p :: p in posts ==> p.AddMember?
    ensures Joined(FindGroup(s.groups, name), FindGroup(ApplyAll(s, posts).groups, name), posts)
    ensures ApplyAll(s, posts).users == s.users
  {
    if posts != [] {
      var front, last := posts[..|posts| - 1], posts[|posts| - 1];
      assert posts == front + [last];
      FindAfter(s, front, name);
      FindWithMember(ApplyAll(s, front).groups, last.user, last.group, name);
    }
  }

  /** After the memberships are in, no member of an LDAP group is missing any more. */
  lemma MembersPresent(s: Server, users: seq<LdapUser>, groups: seq<LdapGroup>, g: LdapGroup)
    requires g in groups
    ensures var t := AfterMembers(s, users, groups);
            NoneMissing(users, t.users, t.groups, g)
  {
    MembershipPostsExact(users, groups, s.users, s.groups);
    var posts := MembershipPosts(users, groups, s.users, s.groups);
    assert Covers(posts, users, s.users, s.groups, g);
    FindAfter(s, posts, g.name);
  }

  // ---------- Main results ----------

  /** A run leaves every LDAP group on the server, with every member that resolves to a user whose
      id is in lower case; and, on a server that stores ids in lower case, with no other: mixed-case
      ids are left out. */
  lemma RunBringsEverythingOver(s: Server, users: seq<LdapUser>, groups: seq<LdapGroup>, g: LdapGroup, dn: string)
    requires g in groups
    ensures FindGroup(AfterRun(s, users, groups).groups, g.name).Some?
    ensures var user := Resolve(users, dn);
            dn in g.members && user.Some? && IsLower(user.value) ==>
              && user.value in AfterRun(s, users, groups).users
              && user.value in FindGroup(AfterRun(s, users, groups).groups, g.name).value.users
    ensures var user := Resolve(users, dn);
            LowerIds(s.users) && LowerMembers(s.groups) && user.Some? && !IsLower(user.value) ==>
              && user.value !in AfterRun(s, users, groups).users
              && user.value !in FindGroup(AfterRun(s, users, groups).groups, g.name).value.users
  {
    var s1 := AfterUsers(s, users);
    var s2 := AfterGroups(s1, groups);
    GroupsPresent(s1, groups, g);
    FoundIffNamed(s2.groups, g.name);
    MembershipPostsExact(users, groups, s2.users, s2.groups);
    FindAfter(s2, MembershipPosts(users, groups, s2.users, s2.groups), g.name);
    MembersPresent(s2, users, groups, g);
    var user := Resolve(users, dn);
    if user.Some? && IsLower(user.value) {
      var u := ResolvedUser(users, dn);
      UsersPresent(s, users, u);
      UsersAfter(s1, GroupPosts(groups, s1.groups));
    }
    if LowerIds(s.users) && LowerMembers(s.groups) {
      RunStaysLower(s, users, groups);
      FoundIn(AfterRun(s, users, groups).groups, g.name);
    }
  }

  /** The members by their DN: for LDAP users with distinct DNs and a server that stores ids in lower
      case, the group ends up with a member of its LDAP group exactly if their id is in lower case. */
  lemma MembersBroughtOver(s: Server, users: seq<LdapUser>, groups: seq<LdapGroup>, g: LdapGroup, u: LdapUser)
    requires g in groups && u in users && u.dn in g.members && DistinctDns(users)
    requires LowerIds(s.users) && LowerMembers(s.groups)
    ensures var t := AfterRun(s, users, groups);
            && FindGroup(t.groups, g.name).Some?
            && (u.id in t.users <==> IsLower(u.id))
            && (u.id in FindGroup(t.groups, g.name).value.users <==> IsLower(u.id))
  {
    ResolveOwn(users, u);
    RunBringsEverythingOver(s, users, groups, g, u.dn);
  }

  /** Group ids on the server: used once, and below the next one. */
  ghost predicate DistinctIds(s: Server) {
    && (forall i :: 0 <= i < |s.groups| ==> s.groups[i].id < s.nextId)
    && (forall i, j :: 0 <= i < j < |s.groups| ==> s.groups[i].id != s.groups[j].id)
  }

  lemma {:induction false} IdsStayDistinct(s: Server, posts: seq<Post>)
    requires DistinctIds(s)
    ensures DistinctIds(ApplyAll(s, posts))
  {
    if posts != [] {
      var front, last := posts[..|posts| - 1], posts[|posts| - 1];
      IdsStayDistinct(s, front);
      var t, t' := ApplyAll(s, front), Apply(ApplyAll(s, front), last);
      assert forall i :: 0 <= i < |t.groups| ==> t'.groups[i].id == t.groups[i].id;
    }
  }

  /** And nobody else: whoever is new in a group is a member, by DN, of an LDAP group of that name. */
  lemma OnlyMembersJoin(s: Server, users: seq<LdapUser>, groups: seq<LdapGroup>, name: string, id: string)
    returns (g: LdapGroup, u: LdapUser)
    requires DistinctIds(s)
    requires var before := FindGroup(AfterGroups(AfterUsers(s, users), groups).groups, name);
             var now := FindGroup(AfterRun(s, users, groups).groups, name);
             before.Some? && now.Some? && id in now.value.users && id !in before.value.users
    ensures g in groups && g.name == name && u in users && u.id == id && u.dn in g.members
  {
    var s1 := AfterUsers(s, users);
    var s2 := AfterGroups(s1, groups);
    IdsStayDistinct(s, UserPosts(NewUsers(users, s.users)));
    IdsStayDistinct(s1, GroupPosts(groups, s1.groups));
    var posts := MembershipPosts(users, groups, s2.users, s2.groups);
    MembershipPostsExact(users, groups, s2.users, s2.groups);
    FindAfter(s2, posts, name);
    var before := FindGroup(s2.groups, name).value;
    var i, k;
    g, i, k := WantedIsMissing(users, groups, s2.users, s2.groups, AddMember(id, before.id));
    u := users[i];
    FindGroupExact(s2.groups, name);
    assert FindGroup(s2.groups, name) == Some(before);
    var k' :| IsLastNamed(s2.groups, k', name) && s2.groups[k'] == before;
    SameIdSameGroup(s2, k, k');
  }

  lemma SameIdSameGroup(s: Server, k: int, k': int)
    requires DistinctIds(s) && 0 <= k < |s.groups| && 0 <= k' < |s.groups| && s.groups[k].id == s.groups[k'].id
    ensures k == k'
  {
  }

  // ---------- Order and repetition ----------

  /** What is to be posted is filtered from the lists: order and repetitions stay. */
  lemma {:induction false} NewUsersConcat(a: seq<LdapUser>, b: seq<LdapUser>, existing: seq<string>)
    ensures NewUsers(a + b, existing) == NewUsers(a, existing) + NewUsers(b, existing)
    decreases |b|
  {
    if b == [] {
      assert a + b == a;
    } else {
      var n := |b| - 1;
      NewUsersConcat(a, b[..n], existing);
      assert (a + b)[..|a + b| - 1] == a + b[..n] && (a + b)[|a + b| - 1] == b[n];
      Associative(NewUsers(a, existing), NewUsers(b[..n], existing), [b[n]]);
    }
  }

  lemma {:induction false} GroupPostsConcat(a: seq<LdapGroup>, b: seq<LdapGroup>, existing: seq<LldapGroup>)
    ensures GroupPosts(a + b, existing) == GroupPosts(a, existing) + GroupPosts(b, existing)
    decreases |b|
  {
    if b == [] {
      assert a + b == a;
    } else {
      var n := |b| - 1;
      GroupPostsConcat(a, b[..n], existing);
      assert (a + b)[..|a + b| - 1] == a + b[..n] && (a + b)[|a + b| - 1] == b[n];
      Associative(GroupPosts(a, existing), GroupPosts(b[..n], existing), [CreateGroup(b[n].name)]);
    }
  }

  lemma NewUsersOne(u: LdapUser, existing: seq<string>)
    ensures NewUsers([u], existing) == if u.id in existing then [] else [u]
  {
    assert [u][..0] == [];
  }

  lemma GroupPostsOne(g: LdapGroup, existing: seq<LldapGroup>)
    ensures GroupPosts([g], existing)
            == if exists i :: 0 <= i < |existing| && existing[i].name == g.name then [] else [CreateGroup(g.name)]
  {
    assert [g][..0] == [];
  }

  /** Group members, too, are stored in lower case. */
  ghost predicate LowerMembers(groups: seq<LldapGroup>) {
    forall k, u :: k in groups && u in k.users ==> IsLower(u)
  }

  lemma {:induction false} FoundIn(groups: seq<LldapGroup>, name: string)
    requires FindGroup(groups, name).Some?
    ensures FindGroup(groups, name).value in groups
  {
    if groups[|groups| - 1].name != name {
      FoundIn(groups[..|groups| - 1], name);
    }
  }

  lemma MembersLowerStep(s: Server, p: Post)
    requires LowerMembers(s.groups) && (p.AddMember? ==> IsLower(p.user))
    ensures LowerMembers(Apply(s, p).groups)
  {
    var t := Apply(s, p);
    forall k, u | k in t.groups && u in k.users
      ensures IsLower(u)
    {
      var i :| 0 <= i < |t.groups| && t.groups[i] == k;
      if i < |s.groups| {
        assert s.groups[i] in s.groups;
      }
    }
  }

  lemma {:induction false} MembersLowerAfter(s: Server, posts: seq<Post>)
    requires LowerMembers(s.groups) && forall p :: p in posts && p.AddMember? ==> IsLower(p.user)
    ensures LowerMembers(ApplyAll(s, posts).groups)
  {
    if posts != [] {
      var front, last := posts[..|posts| - 1], posts[|posts| - 1];
      assert posts == front + [last];
      MembersLowerAfter(s, front);
      MembersLowerStep(ApplyAll(s, front), last);
    }
  }

  lemma RunStaysLower(s: Server, users: seq<LdapUser>, groups: seq<LdapGroup>)
    requires LowerIds(s.users) && LowerMembers(s.groups)
    ensures LowerIds(AfterRun(s, users, groups).users) && LowerMembers(AfterRun(s, users, groups).groups)
  {
    var s1 := AfterUsers(s, users);
    var s2 := AfterGroups(s1, groups);
    var a, b := UserPosts(NewUsers(users, s.users)), GroupPosts(groups, s1.groups);
    var c := MembershipPosts(users, groups, s2.users, s2.groups);
    UsersAfter(s, a);
    UsersAfter(s1, b);
    UsersAfter(s2, c);
    MembersLowerAfter(s, a);
    MembersLowerAfter(s1, b);
    forall p | p in c
      ensures p.AddMember? && IsLower(p.user)
    {
      var g, i, k := WantedIsMissing(users, groups, s2.users, s2.groups, p);
    }
    MembersLowerAfter(s2, c);
  }

  lemma {:induction false} ResolvedUser(users: seq<LdapUser>, dn: string) returns (u: LdapUser)
    requires Resolve(users, dn).Some?
    ensures u in users && u.id == Resolve(users, dn).value
  {
    var last := users[|users| - 1];
    if last.dn == dn {
      u := last;
    } else {
      u := ResolvedUser(users[..|users| - 1], dn);
    }
  }

  /** Apart from the users, a second run finds nothing: all groups and members are there. */
  lemma SecondRunPostsOnlyUsers(s: Server, users: seq<LdapUser>, groups: seq<LdapGroup>)
    requires NewUsers(users, AfterRun(s, users, groups).users) == []
    ensures Todo(AfterRun(s, users, groups), users, groups) == []
  {
    var t := AfterRun(s, users, groups);
    assert UserPosts([]) == [];
    assert AfterUsers(t, users) == t;
    forall g | g in groups
      ensures HasName(t.groups, g.name)
    {
      RunBringsEverythingOver(s, users, groups, g, "");
      FoundIffNamed(t.groups, g.name);
    }
    GroupPostsExact(groups, t.groups);
    assert AfterGroups(t, groups) == t;
    forall g | g in groups
      ensures NoneMissing(users, t.users, t.groups, g)
    {
      MembersPresent(AfterGroups(AfterUsers(s, users), groups), users, groups, g);
    }
    MembershipPostsExact(users, groups, t.users, t.groups);
  }

  /** Running the tool again posts nothing exactly when every LDAP user id is in lower case: the
      server hands ids back in lower case and the tool compares them as they are. */
  lemma RerunPostsNothingIff(s: Server, users: seq<LdapUser>, groups: seq<LdapGroup>)
    requires LowerIds(s.users)
    ensures Todo(AfterRun(s, users, groups), users, groups) == [] <==> AllIdsLower(users)
  {
    var s1 := AfterUsers(s, users);
    var s2 := AfterGroups(s1, groups);
    var t := AfterRun(s, users, groups);
    UsersAfter(s, UserPosts(NewUsers(users, s.users)));
    UsersAfter(s1, GroupPosts(groups, s1.groups));
    UsersAfter(s2, MembershipPosts(users, groups, s2.users, s2.groups));
    NewUsersExact(users, t.users);
    forall u | u in users && IsLower(u.id)
      ensures u.id in t.users
    {
      UsersPresent(s, users, u);
    }
    if NewUsers(users, t.users) == [] {
      SecondRunPostsOnlyUsers(s, users, groups);
    } else {
      assert |UserPosts(NewUsers(users, t.users))| > 0;
    }
  }

  /** A mixed-case id: the user is posted again. */
  lemma MixedCaseIsPostedAgain()
    ensures var users := [LdapUser("Bob", "uid=Bob")];
            Todo(AfterRun(Server([], [], 0), users, []), users, []) != []
  {
    var users := [LdapUser("Bob", "uid=Bob")];
    assert users[0].id[0] == 'B' && users[0] in users;
    RerunPostsNothingIff(Server([], [], 0), users, []);
  }

  /** And left out of their group. */
  lemma MixedCaseIsLeftOut()
    ensures var users, groups := [LdapUser("Bob", "uid=Bob")], [LdapGroup("g", ["uid=Bob"])];
            var found := FindGroup(AfterRun(Server([], [], 0), users, groups).groups, "g");
            Resolve(users, "uid=Bob") == Some("Bob") && found.Some? && "Bob" !in found.value.users
  {
    var users, groups := [LdapUser("Bob", "uid=Bob")], [LdapGroup("g", ["uid=Bob"])];
    assert groups[0] in groups;
    assert Resolve(users, "uid=Bob") == Some("Bob");
    assert "Bob"[0] == 'B';
    RunBringsEverythingOver(Server([], [], 0), users, groups, groups[0], "uid=Bob");
  }

  // ---------- The program ----------

  /** The operator's answers to the yes-or-no questions. */
  datatype Consents = Consents(importUsers: bool, addUsers: bool, importGroups: bool, addGroups: bool, importMemberships: bool)
  {
    ghost predicate Allow(p: Post) {
      match p
      case CreateUser(_) => importUsers && addUsers
      case CreateGroup(_) => importGroups && addGroups
      case AddMember(_, _) => importMemberships
    }

    ghost predicate All() {
      importUsers && addUsers && importGroups && addGroups && importMemberships
    }
  }

  /** What each part of the program does: only requests agreed to, and the server is what the
      successful ones make it. */
  ghost predicate Agreed(c: Consents, start: Server, now: Server, made: seq<Attempt>) {
    && now == ApplyAll(start, Successes(made))
    && forall a :: a in made ==> c.Allow(a.post)
  }

  lemma AgreedConcat(c: Consents, start: Server, mid: Server, now: Server, made: seq<Attempt>, more: seq<Attempt>)
    requires Agreed(c, start, mid, made) && Agreed(c, mid, now, more)
    ensures Agreed(c, start, now, made + more)
    ensures Successes(made + more) == Successes(made) + Successes(more)
  {
    SuccessesConcat(made, more);
    ApplyAllConcat(start, Successes(made), Successes(more));
  }

  lemma {:induction false} GroupsKnown(s: Server, posts: seq<Post>)
    requires forall p :: p in posts ==> p.CreateGroup?
    ensures var t := ApplyAll(s, posts);
            && t.groups == KnownGroupsAfter(s.groups, s.nextId, posts)
            && t.nextId == s.nextId + |posts|
            && t.users == s.users
  {
    if posts != [] {
      assert posts[|posts| - 1] in posts;
      GroupsKnown(s, posts[..|posts| - 1]);
    }
  }

  lemma {:induction false} SuccessesIn(made: seq<Attempt>, p: Post)
    requires p in Successes(made)
    ensures exists a :: a in made && a.post == p
  {
    var last := made[|made| - 1];
    if last.worked && last.post == p {
      assert last in made;
    } else {
      SuccessesIn(made[..|made| - 1], p);
    }
  }

  /** The requests of a part of the program: only for things wanted, each successful at most once and
      in order, and the operator's answers obeyed. */
  ghost predicate Proper(made: seq<Attempt>, wanted: seq<Post>) {
    Serves(made, wanted, false) && Obeys(made, false)
  }

  lemma NothingIsProper(wanted: seq<Post>)
    ensures Proper([], wanted)
  {
  }

  /** migrate_users: only users not on the server are posted, and the list handed on is the
      server's. */
  method MigrateUsers(client: GraphQLClient, users: seq<LdapUser>, c: Consents)
    returns (ok: bool, list: Option<seq<string>>, made: seq<Attempt>)
    modifies client
    ensures Agreed(c, old(client.server), client.server, made)
    ensures Proper(made, UserPosts(NewUsers(users, old(client.server.users))))
    ensures ok == !CalledOff(made) && (made != [] ==> c.importUsers && c.addUsers)
    ensures list.Some? ==> list.value == client.server.users
    ensures old(client.replies) == [] ==> client.replies == [] && ok
    ensures old(client.replies) == [] && c.All() ==> Successes(made) == UserPosts(NewUsers(users, old(client.server.users)))
  {
    ok, list, made := true, None, [];
    NothingIsProper(UserPosts(NewUsers(users, client.server.users)));
    if c.importUsers {
      ghost var start := client.server;
      var existing := client.server.users;
      var toAdd := NewUsers(users, existing);
      if toAdd != [] && c.addUsers {
        var added;
        ok, existing, added, made := client.InsertUsers(toAdd, existing);
        UsersAfter(start, Successes(made));
      }
      list := Some(existing);
    }
  }

  /** migrate_groups: only groups not on the server are posted, and the list handed on is the
      server's. */
  method MigrateGroups(client: GraphQLClient, groups: seq<LdapGroup>, c: Consents)
    returns (ok: bool, list: Option<seq<LldapGroup>>, made: seq<Attempt>)
    modifies client
    ensures Agreed(c, old(client.server), client.server, made)
    ensures Proper(made, GroupPosts(groups, old(client.server.groups)))
    ensures ok == !CalledOff(made) && (made != [] ==> c.importGroups && c.addGroups)
    ensures list.Some? ==> list.value == client.server.groups
    ensures client.server.users == old(client.server.users)
    ensures old(client.replies) == [] ==> client.replies == [] && ok
    ensures old(client.replies) == [] && c.All() ==> Successes(made) == GroupPosts(groups, old(client.server.groups))
  {
    ok, list, made := true, None, [];
    NothingIsProper(GroupPosts(groups, client.server.groups));
    if c.importGroups {
      ghost var start := client.server;
      var existing := client.server.groups;
      if GroupPosts(groups, existing) != [] && c.addGroups {
        var added;
        ok, existing, added, made := client.InsertGroups(groups, existing);
        OnlyGroups(made, groups, start.groups);
        GroupsKnown(start, Successes(made));
      }
      list := Some(existing);
    }
  }

  lemma OnlyGroups(made: seq<Attempt>, groups: seq<LdapGroup>, existing: seq<LldapGroup>)
    requires forall a :: a in made ==> a.post in GroupPosts(groups, existing)
    ensures forall p :: p in Successes(made) ==> p.CreateGroup?
  {
    forall p | p in Successes(made)
      ensures p.CreateGroup?
    {
      SuccessesIn(made, p);
    }
  }

  /** migrate_memberships: with the lists of the earlier parts or freshly fetched ones, which are the
      same. */
  method MigrateMemberships(client: GraphQLClient, users: seq<LdapUser>, groups: seq<LdapGroup>, c: Consents,
                            userList: Option<seq<string>>, groupList: Option<seq<LldapGroup>>)
    returns (ok: bool, made: seq<Attempt>)
    requires userList.Some? ==> userList.value == client.server.users
    requires groupList.Some? ==> groupList.value == client.server.groups
    requires c.importMemberships
    modifies client
    ensures Agreed(c, old(client.server), client.server, made)
    ensures Proper(made, MembershipPosts(users, groups, old(client.server.users), old(client.server.groups)))
    ensures ok == !CalledOff(made)
    ensures old(client.replies) == [] ==>
              ok && Successes(made) == MembershipPosts(users, groups, old(client.server.users), old(client.server.groups))
  {
    var existingUsers := if userList.Some? then userList.value else client.server.users;
    var existingGroups := if groupList.Some? then groupList.value else client.server.groups;
    MembershipPostsExact(users, groups, existingUsers, existingGroups);
    var added;
    ok, added, made := client.InsertMemberships(users, groups, existingUsers, existingGroups);
  }

  /** What a run may request of the server it meets: `a` for users, `b` for groups, `c` for
      memberships, each missing from the lists fetched at that point of the run. */
  ghost predicate OnlyMissing(s: Server, users: seq<LdapUser>, groups: seq<LdapGroup>,
                              a: seq<Attempt>, b: seq<Attempt>, c: seq<Attempt>) {
    var s1 := ApplyAll(s, Successes(a));
    var s2 := ApplyAll(s1, Successes(b));
    && (forall x :: x in a ==> IsMissingUser(users, s.users, x.post))
    && (forall x :: x in b ==> x.post.CreateGroup? && Listed(groups, x.post.name) && !HasName(s1.groups, x.post.name))
    && (forall x :: x in c ==> HasMissingMember(users, groups, s2.users, s2.groups, x.post))
  }

  ghost predicate IsMissingUser(users: seq<LdapUser>, existing: seq<string>, p: Post) {
    p.CreateUser? && p.user !in existing && exists i :: 0 <= i < |users| && users[i].id == p.user
  }

  ghost predicate HasMissingMember(users: seq<LdapUser>, groups: seq<LdapGroup>, existing: seq<string>, known: seq<LldapGroup>, p: Post) {
    exists g, i, k :: g in groups && IsMissingMember(users, existing, known, g, i, k, p)
  }

  lemma PostedUsersMissing(users: seq<LdapUser>, existing: seq<string>, made: seq<Attempt>, x: Attempt)
    requires Proper(made, UserPosts(NewUsers(users, existing))) && x in made
    ensures IsMissingUser(users, existing, x.post)
  {
    var todo := NewUsers(users, existing);
    NewUsersExact(users, existing);
    var i :| 0 <= i < |todo| && UserPosts(todo)[i] == x.post;
    assert todo[i] in todo && todo[i] in users;
    var k :| 0 <= k < |users| && users[k] == todo[i];
  }

  lemma PostedGroupsMissing(groups: seq<LdapGroup>, existing: seq<LldapGroup>, made: seq<Attempt>, x: Attempt)
    requires Proper(made, GroupPosts(groups, existing)) && x in made
    ensures x.post.CreateGroup? && Listed(groups, x.post.name) && !HasName(existing, x.post.name)
  {
    GroupPostsExact(groups, existing);
  }

  lemma PostedMembersMissing(users: seq<LdapUser>, groups: seq<LdapGroup>, existing: seq<string>, known: seq<LldapGroup>,
                             made: seq<Attempt>, x: Attempt)
    requires Proper(made, MembershipPosts(users, groups, existing, known)) && x in made
    ensures HasMissingMember(users, groups, existing, known, x.post)
  {
    var g, i, k := WantedIsMissing(users, groups, existing, known, x.post);
  }

  /** Proper parts request what is missing, and nothing else. */
  lemma ProperIsMissing(s: Server, users: seq<LdapUser>, groups: seq<LdapGroup>, a: seq<Attempt>, b: seq<Attempt>, c: seq<Attempt>)
    requires var s1 := ApplyAll(s, Successes(a));
             var s2 := ApplyAll(s1, Successes(b));
             && Proper(a, UserPosts(NewUsers(users, s.users)))
             && Proper(b, GroupPosts(groups, s1.groups))
             && Proper(c, MembershipPosts(users, groups, s2.users, s2.groups))
    ensures OnlyMissing(s, users, groups, a, b, c)
  {
    var s1 := ApplyAll(s, Successes(a));
    var s2 := ApplyAll(s1, Successes(b));
    forall x | x in a { PostedUsersMissing(users, s.users, a, x); }
    forall x | x in b { PostedGroupsMissing(groups, s1.groups, b, x); }
    forall x | x in c { PostedMembersMissing(users, groups, s2.users, s2.groups, c, x); }
  }

  /** The program, part by part: whatever fails and whatever the operator answers, it requests only
      what was agreed to and is missing, obeys the answers, and leaves the server as the successful
      requests make it; with every question answered yes and no failing request it posts exactly what
      is missing. */
  method Migrate(client: GraphQLClient, users: seq<LdapUser>, groups: seq<LdapGroup>, consents: Consents)
    returns (ok: bool, a: seq<Attempt>, b: seq<Attempt>, c: seq<Attempt>)
    modifies client
    ensures Agreed(consents, old(client.server), client.server, a + b + c)
    ensures OnlyMissing(old(client.server), users, groups, a, b, c)
    ensures Obeys(a, false) && Obeys(b, false) && Obeys(c, false)
    ensures a != [] ==> consents.importUsers && consents.addUsers
    ensures b != [] ==> consents.importGroups && consents.addGroups
    ensures c != [] ==> consents.importMemberships
    ensures ok == !(CalledOff(a) || CalledOff(b) || CalledOff(c))
    ensures (CalledOff(a) ==> b == [] && c == []) && (CalledOff(b) ==> c == [])
    ensures old(client.replies) == [] && consents.All() ==>
              && ok
              && Successes(a + b + c) == Todo(old(client.server), users, groups)
              && client.server == AfterRun(old(client.server), users, groups)
  {
    ghost var s := client.server;
    var userList, groupList;
    b, c := [], [];
    ok, userList, a := MigrateUsers(client, users, consents);
    ghost var s1 := client.server;
    NothingIsProper(GroupPosts(groups, s1.groups));
    if ok {
      ok, groupList, b := MigrateGroups(client, groups, consents);
    }
    ghost var s2 := client.server;
    NothingIsProper(MembershipPosts(users, groups, s2.users, s2.groups));
    if ok && consents.importMemberships {
      ok, c := MigrateMemberships(client, users, groups, consents, userList, groupList);
    }
    AgreedConcat(consents, s, s1, s2, a, b);
    AgreedConcat(consents, s, s2, client.server, a + b, c);
    ProperIsMissing(s, users, groups, a, b, c);
  }
}
