/**
 Permissions, and the lister that narrows every search of an unprivileged user.
 */
module Access {
  import opened Basics
  import opened Text
  import opened CaseOrder
  import opened Directory
  import opened Members

  // ---------- Permissions ----------

  datatype Permission = Admin | PasswordManager | Readonly | Regular

  datatype ValidationResults = ValidationResults(user: string, permission: Permission) {
    predicate IsAdmin() {
      permission == Admin
    }

    predicate CanReadAll() {
      permission == Admin || permission == Readonly || permission == PasswordManager
    }

    predicate CanRead(other: string) {
      permission == Admin || permission == PasswordManager || permission == Readonly || user == other
    }

    predicate CanChangePassword(other: string, otherIsAdmin: bool) {
      permission == Admin || (permission == PasswordManager && !otherIsAdmin) || user == other
    }

    predicate CanWrite(other: string) {
      permission == Admin || user == other
    }
  }

  predicate InGroup(lower: char -> string, groups: set<string>, name: string) {
    exists g :: g in groups && SameName(lower, g, name)
  }

  // get_permissions_from_groups
  function PermissionsFromGroups(lower: char -> string, user: string, groups: set<string>): ValidationResults {
    ValidationResults(
      user,
      if InGroup(lower, groups, "lldap_admin") then Admin
      else if InGroup(lower, groups, "lldap_password_manager") then PasswordManager
      else if InGroup(lower, groups, "lldap_strict_readonly") then Readonly
      else Regular)
  }

  /** Which group gives which right: over oneself always, over others by membership alone. */
  lemma PermissionsExact(lower: char -> string, user: string, groups: set<string>, other: string, otherIsAdmin: bool)
    ensures var v := PermissionsFromGroups(lower, user, groups);
            var admin := InGroup(lower, groups, "lldap_admin");
            var manager := InGroup(lower, groups, "lldap_password_manager");
            var readonly := InGroup(lower, groups, "lldap_strict_readonly");
            && v.user == user
            && (v.IsAdmin() <==> admin)
            && (v.CanReadAll() <==> admin || manager || readonly)
            && (v.CanRead(other) <==> other == user || admin || manager || readonly)
            && (v.CanWrite(other) <==> other == user || admin)
            && (v.CanChangePassword(other, otherIsAdmin) <==> other == user || admin || (manager && !otherIsAdmin))
  {
  }

  /** Membership is by name up to case: some group has the same lowered characters. */
  lemma InGroupExact(lower: char -> string, groups: set<string>, name: string)
    ensures InGroup(lower, groups, name) <==> exists g :: g in groups && LowerChars(lower, g) == LowerChars(lower, name)
  {
    forall g | g in groups
      ensures SameName(lower, g, name) <==> LowerChars(lower, g) == LowerChars(lower, name)
    {
      ComparisonIsPreorder(lower, g, name, name);
    }
  }

  /** More groups never take a permission away: what a group set allows, every larger one allows. */
  lemma PermissionsGrow(lower: char -> string, user: string, some: set<string>, more: set<string>, other: string, otherIsAdmin: bool)
    requires some <= more
    ensures var v, w := PermissionsFromGroups(lower, user, some), PermissionsFromGroups(lower, user, more);
            && (v.IsAdmin() ==> w.IsAdmin())
            && (v.CanRead(other) ==> w.CanRead(other))
            && (v.CanWrite(other) ==> w.CanWrite(other))
            && (v.CanReadAll() ==> w.CanReadAll())
            && (v.CanChangePassword(other, otherIsAdmin) ==> w.CanChangePassword(other, otherIsAdmin))
  {
    assert forall name :: InGroup(lower, some, name) ==> InGroup(lower, more, name);
  }

  /** Without groups a user reads, writes and changes the password of nobody else. */
  lemma NoGroupsOwnOnly(lower: char -> string, user: string, other: string, otherIsAdmin: bool)
    ensures var v := PermissionsFromGroups(lower, user, {});
            && !v.IsAdmin() && !v.CanReadAll()
            && (v.CanRead(other) <==> other == user)
            && (v.CanWrite(other) <==> other == user)
            && (v.CanChangePassword(other, otherIsAdmin) <==> other == user)
  {
  }

  // ---------- Filters ----------

  /** SQL truth: a comparison with an absent column is neither true nor false. */
  datatype Truth = Yes | No | Null

  datatype Filter<Atom> =
    | True
    | False
    | And(all: seq<Filter<Atom>>)
    | Or(any: seq<Filter<Atom>>)
    | Not(inner: Filter<Atom>)
    | Is(atom: Atom)

  function Both(a: Truth, b: Truth): Truth {
    if a == No || b == No then No else if a == Null || b == Null then Null else Yes
  }

  function Negate(a: Truth): Truth {
    match a case Yes => No case No => Yes case Null => Null
  }

  function Either(a: Truth, b: Truth): Truth {
    Negate(Both(Negate(a), Negate(b)))
  }

  function Eval<Atom(!new), Row(!new)>(sem: (Atom, Row) -> Truth, f: Filter<Atom>, row: Row): Truth
    decreases f
  {
    match f
    case True => Yes
    case False => No
    case And(all) => EvalAll(sem, all, row)
    case Or(any) => EvalAny(sem, any, row)
    case Not(inner) => Negate(Eval(sem, inner, row))
    case Is(atom) => sem(atom, row)
  }

  function EvalAll<Atom(!new), Row(!new)>(sem: (Atom, Row) -> Truth, fs: seq<Filter<Atom>>, row: Row): Truth
    decreases fs
  {
    if fs == [] then Yes else Both(Eval(sem, fs[0], row), EvalAll(sem, fs[1..], row))
  }

  function EvalAny<Atom(!new), Row(!new)>(sem: (Atom, Row) -> Truth, fs: seq<Filter<Atom>>, row: Row): Truth
    decreases fs
  {
    if fs == [] then No else Either(Eval(sem, fs[0], row), EvalAny(sem, fs[1..], row))
  }

  /** The meaning of the connectives: a conjunction is true if all its parts are and false if one is,
      a disjunction the other way round, and a negation swaps the two; otherwise neither. */
  lemma {:induction false} EvalAllExact<Atom(!new), Row(!new)>(sem: (Atom, Row) -> Truth, fs: seq<Filter<Atom>>, row: Row)
    ensures Eval(sem, And(fs), row) == Yes <==> forall i :: 0 <= i < |fs| ==> Eval(sem, fs[i], row) == Yes
    ensures Eval(sem, And(fs), row) == No <==> exists i :: 0 <= i < |fs| && Eval(sem, fs[i], row) == No
  {
    if fs != [] {
      var rest := fs[1..];
      EvalAllExact(sem, rest, row);
      assert Eval(sem, And(rest), row) == EvalAll(sem, rest, row);
      assert forall i :: 0 <= i < |rest| ==> rest[i] == fs[i + 1];
      assert forall i :: 1 <= i < |fs| ==> fs[i] == rest[i - 1];
      if i :| 0 <= i < |rest| && Eval(sem, rest[i], row) == No {
        assert Eval(sem, fs[i + 1], row) == No;
      }
    }
  }

  lemma {:induction false} EvalAnyExact<Atom(!new), Row(!new)>(sem: (Atom, Row) -> Truth, fs: seq<Filter<Atom>>, row: Row)
    ensures Eval(sem, Or(fs), row) == Yes <==> exists i :: 0 <= i < |fs| && Eval(sem, fs[i], row) == Yes
    ensures Eval(sem, Or(fs), row) == No <==> forall i :: 0 <= i < |fs| ==> Eval(sem, fs[i], row) == No
  {
    if fs != [] {
      var rest := fs[1..];
      EvalAnyExact(sem, rest, row);
      assert Eval(sem, Or(rest), row) == EvalAny(sem, rest, row);
      assert forall i :: 0 <= i < |rest| ==> rest[i] == fs[i + 1];
      assert forall i :: 1 <= i < |fs| ==> fs[i] == rest[i - 1];
      if i :| 0 <= i < |rest| && Eval(sem, rest[i], row) == Yes {
        assert Eval(sem, fs[i + 1], row) == Yes;
      }
    }
  }

  lemma EvalLeaves<Atom(!new), Row(!new)>(sem: (Atom, Row) -> Truth, f: Filter<Atom>, a: Atom, row: Row)
    ensures Eval(sem, True, row) == Yes && Eval(sem, False, row) == No && Eval(sem, Is(a), row) == sem(a, row)
    ensures Eval(sem, Not(f), row) == Yes <==> Eval(sem, f, row) == No
    ensures Eval(sem, Not(f), row) == No <==> Eval(sem, f, row) == Yes
  {
  }

  /** A backend that returns exactly the rows a filter is true of, in table order. */
  function Select<Atom(!new), Row(!new)>(sem: (Atom, Row) -> Truth, rows: seq<Row>, filter: Option<Filter<Atom>>): seq<Row> {
    if rows == [] then []
    else if filter == None || Eval(sem, filter.value, rows[0]) == Yes
    then [rows[0]] + Select(sem, rows[1..], filter)
    else Select(sem, rows[1..], filter)
  }

  // The composition shared by list_users and list_groups of the restricted lister.
  function Restrict<Atom>(filter: Option<Filter<Atom>>, own: Option<Atom>): Option<Filter<Atom>> {
    match (filter, own)
    case (None, None) => None
    case (None, Some(a)) => Some(Is(a))
    case (Some(f), None) => Some(f)
    case (Some(f), Some(a)) => Some(And([f, Is(a)]))
  }

  function Keep<Row(!new)>(rows: seq<Row>, wanted: Row -> bool): seq<Row> {
    if rows == [] then []
    else if wanted(rows[0]) then [rows[0]] + Keep(rows[1..], wanted)
    else Keep(rows[1..], wanted)
  }

  /** Selecting keeps a row exactly if the filter is true of it, row by row and in order. */
  lemma SelectOne<Atom(!new), Row(!new)>(sem: (Atom, Row) -> Truth, row: Row, f: Filter<Atom>)
    ensures Select(sem, [row], None) == [row]
    ensures Select(sem, [row], Some(f)) == if Eval(sem, f, row) == Yes then [row] else []
  {
    assert [row][1..] == [];
  }

  lemma {:induction false} SelectConcat<Atom(!new), Row(!new)>(sem: (Atom, Row) -> Truth, a: seq<Row>, b: seq<Row>, filter: Option<Filter<Atom>>)
    ensures Select(sem, a + b, filter) == Select(sem, a, filter) + Select(sem, b, filter)
  {
    if a == [] {
      assert a + b == b;
    } else {
      SelectConcat(sem, a[1..], b, filter);
      assert (a + b)[1..] == a[1..] + b && (a + b)[0] == a[0];
      Associative([a[0]], Select(sem, a[1..], filter), Select(sem, b, filter));
    }
  }

  function RowsOf<Atom(!new), Row(!new)>(sem: (Atom, Row) -> Truth, a: Atom): Row -> bool {
    row => sem(a, row) == Yes
  }

  lemma EvalPair<Atom(!new), Row(!new)>(sem: (Atom, Row) -> Truth, f: Filter<Atom>, a: Atom, row: Row)
    ensures Eval(sem, And([f, Is(a)]), row) == Both(Eval(sem, f, row), Both(sem(a, row), Yes))
  {
    assert [f, Is(a)][1..] == [Is(a)];
    assert EvalAll(sem, [Is(a)], row) == Both(Eval(sem, Is(a), row), EvalAll(sem, [Is(a)][1..], row));
  }

  /** Conjoining an atom to a filter tree of any shape cuts the answer down to the atom's rows. */
  lemma {:induction false} RestrictCutsDown<Atom(!new), Row(!new)>(
      sem: (Atom, Row) -> Truth, rows: seq<Row>, filter: Option<Filter<Atom>>, a: Atom)
    ensures Select(sem, rows, Restrict(filter, Some(a)))
            == Keep(Select(sem, rows, filter), RowsOf(sem, a))
  {
    if rows != [] {
      RestrictCutsDown(sem, rows[1..], filter, a);
      if filter.Some? {
        EvalPair(sem, filter.value, a, rows[0]);
      }
      var rest := Select(sem, rows[1..], filter);
      assert ([rows[0]] + rest)[1..] == rest;
    }
  }

  // ---------- Users and groups ----------

  /** Conditions whose evaluation is the database's business. */
  datatype ColumnTest = ColumnTest(name: string, argument: string)

  datatype UserAtom = UserId(id: string) | UserOther(test: ColumnTest)

  datatype UserRow = UserRow(id: string, columns: map<string, string>)

  datatype GroupAtom = Member(id: string) | GroupOther(test: ColumnTest)

  datatype GroupRow = GroupRow(name: string, users: seq<GroupMember>, columns: map<string, string>)

  function UserTruth(others: (ColumnTest, UserRow) -> Truth, atom: UserAtom, row: UserRow): Truth {
    match atom
    case UserId(id) => if row.id == id then Yes else No
    case UserOther(test) => others(test, row)
  }

  function UserSem(others: (ColumnTest, UserRow) -> Truth): (UserAtom, UserRow) -> Truth {
    (atom, row) => UserTruth(others, atom, row)
  }

  function OwnRow(id: string): UserRow -> bool {
    (row: UserRow) => row.id == id
  }

  predicate HasMember(row: GroupRow, id: string) {
    exists m :: m in row.users && m.userId == id
  }

  function GroupTruth(others: (ColumnTest, GroupRow) -> Truth, atom: GroupAtom, row: GroupRow): Truth {
    match atom
    case Member(id) => if HasMember(row, id) then Yes else No
    case GroupOther(test) => others(test, row)
  }

  function GroupSem(others: (ColumnTest, GroupRow) -> Truth): (GroupAtom, GroupRow) -> Truth {
    (atom, row) => GroupTruth(others, atom, row)
  }

  function OwnGroups(id: string): GroupRow -> bool {
    row => HasMember(row, id)
  }

  // get_user_restricted_lister_handler
  function UserFilterOf(v: ValidationResults): Option<string> {
    if v.CanReadAll() then None else Some(v.user)
  }

  function ListUsers(others: (ColumnTest, UserRow) -> Truth, rows: seq<UserRow>,
                     filter: Option<Filter<UserAtom>>, v: ValidationResults): seq<UserRow> {
    var own := if UserFilterOf(v).Some? then Some(UserId(UserFilterOf(v).value)) else None;
    Select(UserSem(others), rows, Restrict(filter, own))
  }

  function ListGroups(others: (ColumnTest, GroupRow) -> Truth, rows: seq<GroupRow>,
                      filter: Option<Filter<GroupAtom>>, v: ValidationResults): seq<GroupRow> {
    var own := if UserFilterOf(v).Some? then Some(Member(UserFilterOf(v).value)) else None;
    Select(GroupSem(others), rows, Restrict(filter, own))
  }

  lemma {:induction false} KeepSame<Row(!new)>(rows: seq<Row>, p: Row -> bool, q: Row -> bool)
    requires forall r :: p(r) == q(r)
    ensures Keep(rows, p) == Keep(rows, q)
  {
    if rows != [] {
      KeepSame(rows[1..], p, q);
    }
  }

  /** Every user search by an unprivileged user is the unrestricted one cut down to their own row;
      the others' searches are unrestricted. */
  lemma RestrictedUsersExact(others: (ColumnTest, UserRow) -> Truth, rows: seq<UserRow>,
                             filter: Option<Filter<UserAtom>>, v: ValidationResults)
    ensures var sem := UserSem(others);
            ListUsers(others, rows, filter, v)
            == if v.permission == Regular
               then Keep(Select(sem, rows, filter), OwnRow(v.user))
               else Select(sem, rows, filter)
  {
    var sem := UserSem(others);
    if v.permission == Regular {
      var own := UserId(v.user);
      RestrictCutsDown(sem, rows, filter, own);
      KeepSame(Select(sem, rows, filter), RowsOf(sem, own), OwnRow(v.user));
    } else {
      assert Restrict(filter, None) == filter;
    }
  }

  /** Likewise for groups: cut down to the groups the user belongs to. */
  lemma RestrictedGroupsExact(others: (ColumnTest, GroupRow) -> Truth, rows: seq<GroupRow>,
                              filter: Option<Filter<GroupAtom>>, v: ValidationResults)
    ensures var sem := GroupSem(others);
            ListGroups(others, rows, filter, v)
            == if v.permission == Regular
               then Keep(Select(sem, rows, filter), OwnGroups(v.user))
               else Select(sem, rows, filter)
  {
    var sem := GroupSem(others);
    if v.permission == Regular {
      var own := Member(v.user);
      RestrictCutsDown(sem, rows, filter, own);
      KeepSame(Select(sem, rows, filter), RowsOf(sem, own), OwnGroups(v.user));
    } else {
      assert Restrict(filter, None) == filter;
    }
  }

  lemma {:induction false} KeepExact<Row(!new)>(rows: seq<Row>, wanted: Row -> bool, row: Row)
    ensures row in Keep(rows, wanted) <==> row in rows && wanted(row)
  {
    if rows != [] {
      KeepExact(rows[1..], wanted, row);
      assert rows == [rows[0]] + rows[1..];
    }
  }

  /** Row by row: a regular user finds their own row and the groups with a member of their id, of those
      the search asks for. */
  lemma ListedExact(userTests: (ColumnTest, UserRow) -> Truth, users: seq<UserRow>, userFilter: Option<Filter<UserAtom>>, u: UserRow,
                    groupTests: (ColumnTest, GroupRow) -> Truth, groups: seq<GroupRow>, groupFilter: Option<Filter<GroupAtom>>, g: GroupRow,
                    id: string)
    ensures var v := ValidationResults(id, Regular);
            && (u in ListUsers(userTests, users, userFilter, v) <==>
                  u in Select(UserSem(userTests), users, userFilter) && u.id == id)
            && (g in ListGroups(groupTests, groups, groupFilter, v) <==>
                  && g in Select(GroupSem(groupTests), groups, groupFilter)
                  && exists i :: 0 <= i < |g.users| && g.users[i].userId == id)
  {
    var v := ValidationResults(id, Regular);
    RestrictedUsersExact(userTests, users, userFilter, v);
    RestrictedGroupsExact(groupTests, groups, groupFilter, v);
    KeepExact(Select(UserSem(userTests), users, userFilter), OwnRow(id), u);
    KeepExact(Select(GroupSem(groupTests), groups, groupFilter), OwnGroups(id), g);
    MemberByPosition(g, id);
  }

  lemma MemberByPosition(g: GroupRow, id: string)
    ensures HasMember(g, id) <==> exists i :: 0 <= i < |g.users| && g.users[i].userId == id
  {
    if i :| 0 <= i < |g.users| && g.users[i].userId == id {
      assert g.users[i] in g.users;
    }
  }

  // ---------- What a search shows of a group's members ----------

  // do_search converts groups without a user filter, whoever asks.
  function SearchedMemberValues(row: GroupRow, v: ValidationResults, baseStr: string): seq<string> {
    MemberValues(row.users, None, baseStr)
  }

  /** The values narrowed to one user name that user only. */
  lemma NarrowedMembers(row: GroupRow, id: string, info: LdapInfo, dn: string)
    requires IsBase(info) && CommaFree(row.users)
    requires dn in MemberValues(row.users, Some(id), info.baseStr)
    ensures exists m :: m in row.users && m.userId == id && dn == BuildUserDn(id, m.ou, info.baseStr)
  {
    MemberValuesExact(row.users, Some(id), info);
  }

  /** A search shows a user only their own membership exactly when the group has no other member. */
  lemma SearchNarrowsIff(row: GroupRow, v: ValidationResults, info: LdapInfo)
    requires IsBase(info) && CommaFree(row.users)
    ensures SearchedMemberValues(row, v, info.baseStr) == MemberValues(row.users, Some(v.user), info.baseStr)
            <==> forall m :: m in row.users ==> m.userId == v.user
  {
    var shown, narrowed := SearchedMemberValues(row, v, info.baseStr), MemberValues(row.users, Some(v.user), info.baseStr);
    MemberValuesExact(row.users, None, info);
    MemberValuesExact(row.users, Some(v.user), info);
    if shown == narrowed {
      forall m | m in row.users
        ensures m.userId == v.user
      {
        var dn := BuildUserDn(m.userId, m.ou, info.baseStr);
        assert Shown(m, None) && dn in MemberDnSet(row.users, None, info);
        assert dn in shown && dn in narrowed;
        NarrowedMembers(row, v.user, info, dn);
        var own :| own in row.users && own.userId == v.user && dn == BuildUserDn(v.user, own.ou, info.baseStr);
        EntryDnInjective("uid", m.userId, m.ou, own.userId, own.ou, info);
      }
    } else {
      if forall m :: m in row.users ==> m.userId == v.user {
        assert MemberDnSet(row.users, None, info) == MemberDnSet(row.users, Some(v.user), info);
        AscendingUnique(shown, narrowed);
      }
    }
  }

  /** What a search shows beyond that is every other member. */
  lemma OtherMemberShown(row: GroupRow, v: ValidationResults, info: LdapInfo, m: GroupMember)
    requires IsBase(info) && CommaFree(row.users) && m in row.users && m.userId != v.user
    ensures var dn := BuildUserDn(m.userId, m.ou, info.baseStr);
            && dn in SearchedMemberValues(row, v, info.baseStr)
            && dn !in MemberValues(row.users, Some(v.user), info.baseStr)
  {
    var dn := BuildUserDn(m.userId, m.ou, info.baseStr);
    MemberValuesExact(row.users, None, info);
    assert Shown(m, None) && dn in MemberDnSet(row.users, None, info);
    forall own | own in row.users && own.userId == v.user
      ensures dn != BuildUserDn(v.user, own.ou, info.baseStr)
    {
      EntryDnInjective("uid", m.userId, m.ou, own.userId, own.ou, info);
    }
    if dn in MemberValues(row.users, Some(v.user), info.baseStr) {
      NarrowedMembers(row, v.user, info, dn);
    }
  }

  /** In a group of two, each regular user is shown the other. */
  lemma GroupOfTwo(me: GroupMember, other: GroupMember, info: LdapInfo)
    requires IsBase(info) && CommaFree([me, other]) && me.userId != other.userId
    ensures var row, v := GroupRow("g", [me, other], map[]), ValidationResults(me.userId, Regular);
            && HasMember(row, v.user)
            && BuildUserDn(other.userId, other.ou, info.baseStr) in SearchedMemberValues(row, v, info.baseStr)
  {
    var row, v := GroupRow("g", [me, other], map[]), ValidationResults(me.userId, Regular);
    assert row.users[0] == me && row.users[1] == other;
    OtherMemberShown(row, v, info, other);
  }
}
