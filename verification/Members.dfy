/**
 The `member` and `uniqueMember` values of a group: an ordered set of entry DNs.
 */
module Members {
  import opened Basics
  import opened Text
  import opened Dn
  import opened Ou
  import opened Directory

  // ---------- Ordered sets of strings ----------

  /** Lexicographic order on code points, which is the order of Rust strings. */
  predicate Less(a: string, b: string) {
    if b == "" then false
    else if a == "" then true
    else a[0] < b[0] || (a[0] == b[0] && Less(a[1..], b[1..]))
  }

  lemma {:induction false} LessTotal(a: string, b: string)
    ensures !(Less(a, b) && Less(b, a)) && !Less(a, a)
    ensures a == b || Less(a, b) || Less(b, a)
  {
    if a != "" {
      LessTotal(a[1..], a[1..]);
      if b != "" {
        LessTotal(a[1..], b[1..]);
        assert a == [a[0]] + a[1..] && b == [b[0]] + b[1..];
      }
    }
  }

  lemma {:induction false} LessTransitive(a: string, b: string, c: string)
    requires Less(a, b) && Less(b, c)
    ensures Less(a, c)
  {
    if a != "" && a[0] == b[0] == c[0] {
      LessTransitive(a[1..], b[1..], c[1..]);
    }
  }

  /** They agree up to k, where a ends or has the smaller character. */
  ghost predicate SmallerAt(a: string, b: string, k: nat) {
    k <= |a| && k < |b| && a[..k] == b[..k] && (k == |a| || a[k] < b[k])
  }

  lemma {:induction false} LessExact(a: string, b: string)
    ensures Less(a, b) <==> exists k: nat :: SmallerAt(a, b, k)
  {
    if b != "" {
      if a == "" {
        assert SmallerAt(a, b, 0);
      } else {
        LessExact(a[1..], b[1..]);
        assert a == [a[0]] + a[1..] && b == [b[0]] + b[1..];
        if a[0] < b[0] {
          assert SmallerAt(a, b, 0);
        } else if a[0] == b[0] {
          if k: nat :| SmallerAt(a[1..], b[1..], k) {
            assert a[..k + 1] == [a[0]] + a[1..][..k] && b[..k + 1] == [b[0]] + b[1..][..k];
            assert SmallerAt(a, b, k + 1);
          }
        }
        if k: nat :| SmallerAt(a, b, k) {
          if k > 0 {
            assert a[..k][0] == b[..k][0];
            assert a[..k][1..] == a[1..][..k - 1] && b[..k][1..] == b[1..][..k - 1];
            assert SmallerAt(a[1..], b[1..], k - 1);
          }
        }
      }
    }
  }

  ghost predicate Ascending(s: seq<string>) {
    forall i, j :: 0 <= i < j < |s| ==> Less(s[i], s[j])
  }

  // BTreeSet::insert, as a sequence in iteration order.
  function Insert(x: string, s: seq<string>): seq<string> {
    if s == [] then [x]
    else if x == s[0] then s
    else if Less(x, s[0]) then [x] + s
    else [s[0]] + Insert(x, s[1..])
  }

  function SortedSet(items: seq<string>): seq<string> {
    if items == [] then [] else Insert(items[|items| - 1], SortedSet(items[..|items| - 1]))
  }

  lemma {:induction false} InsertElements(x: string, s: seq<string>, y: string)
    ensures y in Insert(x, s) <==> y == x || y in s
  {
    if s != [] {
      InsertElements(x, s[1..], y);
      assert s == [s[0]] + s[1..];
    }
  }

  lemma AscendingCons(x: string, s: seq<string>)
    requires Ascending(s)
    requires forall y :: y in s ==> Less(x, y)
    ensures Ascending([x] + s)
  {
  }

  lemma {:induction false} InsertAscends(x: string, s: seq<string>)
    requires Ascending(s)
    ensures Ascending(Insert(x, s))
  {
    if s != [] {
      LessTotal(x, s[0]);
      if Less(x, s[0]) {
        forall y | y in s
          ensures Less(x, y)
        {
          var i :| 0 <= i < |s| && s[i] == y;
          if i > 0 { LessTransitive(x, s[0], y); }
        }
        AscendingCons(x, s);
      } else if x != s[0] {
        InsertAscends(x, s[1..]);
        forall y | y in Insert(x, s[1..])
          ensures Less(s[0], y)
        {
          InsertElements(x, s[1..], y);
          if y != x {
            var i :| 0 <= i < |s[1..]| && s[1..][i] == y;
            assert s[i + 1] == y;
          }
        }
        AscendingCons(s[0], Insert(x, s[1..]));
      }
    }
  }

  lemma {:induction false} SortedSetExact(items: seq<string>)
    ensures Ascending(SortedSet(items))
    ensures forall y :: y in SortedSet(items) <==> y in items
  {
    if items != [] {
      var front, x := items[..|items| - 1], items[|items| - 1];
      SortedSetExact(front);
      InsertAscends(x, SortedSet(front));
      assert items == front + [x];
      forall y
        ensures y in SortedSet(items) <==> y in items
      {
        InsertElements(x, SortedSet(front), y);
      }
    }
  }

  /** A strictly ascending sequence is determined by its elements. */
  lemma {:induction false} AscendingUnique(a: seq<string>, b: seq<string>)
    requires Ascending(a) && Ascending(b)
    requires forall y :: y in a <==> y in b
    ensures a == b
  {
    assert b != [] ==> b[0] in b;
    if a != [] {
      assert a[0] in b && b != [];
      assert b[0] in a;
      LeastFirst(a, b[0]);
      LeastFirst(b, a[0]);
      LessTotal(a[0], b[0]);
      forall y
        ensures y in a[1..] <==> y in b[1..]
      {
        TailElements(a, y);
        TailElements(b, y);
      }
      AscendingUnique(a[1..], b[1..]);
      assert a == [a[0]] + a[1..] && b == [b[0]] + b[1..];
    }
  }

  lemma LeastFirst(s: seq<string>, y: string)
    requires Ascending(s) && y in s
    ensures s[0] == y || Less(s[0], y)
  {
    var i :| 0 <= i < |s| && s[i] == y;
  }

  lemma TailElements(s: seq<string>, y: string)
    requires s != [] && Ascending(s)
    ensures y in s[1..] <==> y in s && y != s[0]
  {
    assert s == [s[0]] + s[1..];
    LessTotal(s[0], s[0]);
    assert forall i :: 0 < i < |s| ==> Less(s[0], s[i]);
    assert forall i :: 0 <= i < |s[1..]| ==> s[1..][i] == s[i + 1];
  }

  // ---------- Member values ----------

  datatype GroupMember = GroupMember(userId: string, ou: string)

  predicate Shown(m: GroupMember, userFilter: Option<string>) {
    userFilter == None || m.userId == userFilter.value
  }

  function MemberDns(users: seq<GroupMember>, userFilter: Option<string>, baseStr: string): seq<string> {
    if users == [] then []
    else
      var front, m := users[..|users| - 1], users[|users| - 1];
      if Shown(m, userFilter)
      then MemberDns(front, userFilter, baseStr) + [BuildUserDn(m.userId, m.ou, baseStr)]
      else MemberDns(front, userFilter, baseStr)
  }

  // The Member and UniqueMember branches of get_group_attribute.
  function MemberValues(users: seq<GroupMember>, userFilter: Option<string>, baseStr: string): seq<string> {
    SortedSet(MemberDns(users, userFilter, baseStr))
  }

  lemma {:induction false} MemberDnsExact(users: seq<GroupMember>, userFilter: Option<string>, baseStr: string, dn: string)
    ensures dn in MemberDns(users, userFilter, baseStr) <==>
              exists m :: m in users && Shown(m, userFilter) && dn == BuildUserDn(m.userId, m.ou, baseStr)
  {
    if users != [] {
      var front, last := users[..|users| - 1], users[|users| - 1];
      MemberDnsExact(front, userFilter, baseStr, dn);
      assert users == front + [last];
    }
  }

  /** The distinct members shown: a user under two OUs counts twice, OUs being told apart by their
      components. */
  ghost function MemberKeys(users: seq<GroupMember>, userFilter: Option<string>): set<(string, seq<string>)> {
    set m | m in users && Shown(m, userFilter) :: (m.userId, Components(m.ou))
  }

  ghost predicate CommaFree(users: seq<GroupMember>) {
    forall m :: m in users ==> Free(m.userId, ',') && Free(m.ou, ',')
  }

  /** One value for each distinct (user, OU) pair shown. */
  lemma {:induction false} OneValuePerMember(users: seq<GroupMember>, userFilter: Option<string>, info: LdapInfo)
    requires IsBase(info) && CommaFree(users)
    ensures (set dn | dn in MemberDns(users, userFilter, info.baseStr)) == MemberDnSet(users, userFilter, info)
    ensures |MemberDnSet(users, userFilter, info)| == |MemberKeys(users, userFilter)|
  {
    forall dn
      ensures dn in MemberDns(users, userFilter, info.baseStr) <==> dn in MemberDnSet(users, userFilter, info)
    {
      MemberDnsExact(users, userFilter, info.baseStr, dn);
    }
    if users != [] {
      var front, last := users[..|users| - 1], users[|users| - 1];
      assert users == front + [last];
      OneValuePerMember(front, userFilter, info);
      GrowTogether(front, last, userFilter, info);
    }
  }

  ghost function MemberDnSet(users: seq<GroupMember>, userFilter: Option<string>, info: LdapInfo): set<string> {
    set m | m in users && Shown(m, userFilter) :: BuildUserDn(m.userId, m.ou, info.baseStr)
  }

  /** A member brings a new DN exactly when it brings a new key. */
  lemma NewDnIffNewKey(front: seq<GroupMember>, last: GroupMember, userFilter: Option<string>, info: LdapInfo)
    requires IsBase(info) && CommaFree(front) && Free(last.userId, ',') && Free(last.ou, ',')
    ensures BuildUserDn(last.userId, last.ou, info.baseStr) in MemberDnSet(front, userFilter, info)
            <==> (last.userId, Components(last.ou)) in MemberKeys(front, userFilter)
  {
    var dn, key := BuildUserDn(last.userId, last.ou, info.baseStr), (last.userId, Components(last.ou));
    if dn in MemberDnSet(front, userFilter, info) {
      var m :| m in front && Shown(m, userFilter) && BuildUserDn(m.userId, m.ou, info.baseStr) == dn;
      EntryDnInjective("uid", m.userId, m.ou, last.userId, last.ou, info);
    }
    if key in MemberKeys(front, userFilter) {
      var m :| m in front && Shown(m, userFilter) && (m.userId, Components(m.ou)) == key;
      EntryDnInjective("uid", m.userId, m.ou, last.userId, last.ou, info);
    }
  }

  lemma GrowByOne(front: seq<GroupMember>, last: GroupMember, userFilter: Option<string>, info: LdapInfo)
    ensures MemberDnSet(front + [last], userFilter, info)
            == MemberDnSet(front, userFilter, info)
               + (if Shown(last, userFilter) then {BuildUserDn(last.userId, last.ou, info.baseStr)} else {})
    ensures MemberKeys(front + [last], userFilter)
            == MemberKeys(front, userFilter)
               + (if Shown(last, userFilter) then {(last.userId, Components(last.ou))} else {})
  {
    assert forall m :: m in front + [last] <==> m in front || m == last;
  }

  lemma CommaFreeParts(front: seq<GroupMember>, last: GroupMember)
    requires CommaFree(front + [last])
    ensures CommaFree(front) && Free(last.userId, ',') && Free(last.ou, ',')
  {
    assert last in front + [last];
    assert forall m :: m in front ==> m in front + [last];
  }

  lemma CountAdd<T>(s: set<T>, x: T)
    ensures |s + {x}| == |s| + if x in s then 0 else 1
    ensures s + {} == s
  {
    assert x in s ==> s + {x} == s;
  }

  lemma GrowTogether(front: seq<GroupMember>, last: GroupMember, userFilter: Option<string>, info: LdapInfo)
    requires IsBase(info) && CommaFree(front + [last])
    ensures |MemberDnSet(front + [last], userFilter, info)| - |MemberDnSet(front, userFilter, info)|
            == |MemberKeys(front + [last], userFilter)| - |MemberKeys(front, userFilter)|
  {
    CommaFreeParts(front, last);
    NewDnIffNewKey(front, last, userFilter, info);
    GrowByOne(front, last, userFilter, info);
    var dns, keys := MemberDnSet(front, userFilter, info), MemberKeys(front, userFilter);
    CountAdd(dns, BuildUserDn(last.userId, last.ou, info.baseStr));
    CountAdd(keys, (last.userId, Components(last.ou)));
  }

  lemma {:induction false} AscendingCount(s: seq<string>)
    requires Ascending(s)
    ensures |set y | y in s| == |s|
  {
    if s != [] {
      AscendingCount(s[1..]);
      assert (set y | y in s) == {s[0]} + (set y | y in s[1..]) by {
        assert s == [s[0]] + s[1..];
      }
      TailElements(s, s[0]);
    }
  }

  /** The member values are the DNs of the shown members, strictly ascending, and as many as there
      are distinct (user, OU) pairs. */
  lemma MemberValuesExact(users: seq<GroupMember>, userFilter: Option<string>, info: LdapInfo)
    requires IsBase(info) && CommaFree(users)
    ensures Ascending(MemberValues(users, userFilter, info.baseStr))
    ensures forall dn :: dn in MemberValues(users, userFilter, info.baseStr) <==>
                           dn in MemberDnSet(users, userFilter, info)
    ensures |MemberValues(users, userFilter, info.baseStr)| == |MemberKeys(users, userFilter)|
  {
    var values := MemberValues(users, userFilter, info.baseStr);
    SortedSetExact(MemberDns(users, userFilter, info.baseStr));
    OneValuePerMember(users, userFilter, info);
    AscendingCount(values);
    assert (set y | y in values) == (set dn | dn in MemberDns(users, userFilter, info.baseStr));
  }
}
