/**
 Organisational units: the codec between internal OU strings (`people\home`) and
 LDAP RDN chains (`ou=home,ou=people`), and the OU tree.
 */
module Ou {
  import opened Text
  import opened Dn

  const DEFAULT_USER_OU := "people"
  const DEFAULT_GROUP_OU := "groups"

  predicate IsOu(r: Rdn) {
    EqFold(r.attr, "ou")
  }

  function OuRdns(parts: seq<Rdn>): seq<Rdn> {
    if parts == [] then []
    else if IsOu(parts[0]) then [parts[0]] + OuRdns(parts[1..])
    else OuRdns(parts[1..])
  }

  function Values(parts: seq<Rdn>): (r: seq<string>)
    ensures |r| == |parts|
    ensures forall i :: 0 <= i < |parts| ==> r[i] == parts[i].value
  {
    seq(|parts|, i requires 0 <= i < |parts| => parts[i].value)
  }

  // ldap_rdn_chain_to_internal_ou
  function ChainToOu(chain: seq<Rdn>): string {
    Join(Reverse(Values(OuRdns(chain))), '\\')
  }

  // get_internal_ou_from_dn_parts
  function InternalOu(parts: seq<Rdn>): string {
    ChainToOu(OuRdns(parts))
  }

  function DropEmpty(items: seq<string>): seq<string> {
    if items == [] then []
    else if items[0] == "" then DropEmpty(items[1..])
    else [items[0]] + DropEmpty(items[1..])
  }

  /** The components an OU string denotes, outermost first. */
  function Components(ou: string): seq<string> {
    DropEmpty(TrimAll(Split(ou, '\\')))
  }

  function OuChain(values: seq<string>): (r: seq<Rdn>)
    ensures |r| == |values|
    ensures forall i :: 0 <= i < |values| ==> r[i] == Rdn("ou", values[i])
  {
    seq(|values|, i requires 0 <= i < |values| => Rdn("ou", values[i]))
  }

  /** The RDN chain an OU string denotes, innermost first. */
  function RdnChain(ou: string): seq<Rdn> {
    OuChain(Reverse(Components(ou)))
  }

  /** The normal form of an OU string: components trimmed, empty ones dropped. */
  function NormalOu(ou: string): string {
    Join(Components(ou), '\\')
  }

  predicate IsCleanComponent(s: string) {
    s != "" && IsTrimmed(s) && Free(s, '\\')
  }

  predicate AllClean(values: seq<string>) {
    forall i :: 0 <= i < |values| ==> IsCleanComponent(values[i])
  }

  /** An OU string already in normal form, by inspection of its pieces. */
  predicate IsNormalOu(ou: string) {
    ou == "" || AllClean(Split(ou, '\\'))
  }

  // ---------- The conversion loop ----------

  lemma {:induction false} DropEmptyConcat(a: seq<string>, b: seq<string>)
    ensures DropEmpty(a + b) == DropEmpty(a) + DropEmpty(b)
  {
    if a == [] {
      assert a + b == b;
    } else {
      DropEmptyConcat(a[1..], b);
      assert (a + b)[0] == a[0] && (a + b)[1..] == a[1..] + b;
      Associative([a[0]], DropEmpty(a[1..]), DropEmpty(b));
    }
  }

  lemma {:induction false} TrimStartKeeps(s: string, c: char)
    requires c in s && !IsSpace(c)
    ensures c in TrimStart(s)
  {
    if IsSpace(s[0]) {
      assert s == [s[0]] + s[1..];
      TrimStartKeeps(s[1..], c);
    }
  }

  lemma {:induction false} TrimEndKeeps(s: string, c: char)
    requires c in s && !IsSpace(c)
    ensures c in TrimEnd(s)
  {
    if IsSpace(s[|s| - 1]) {
      assert s == s[..|s| - 1] + [s[|s| - 1]];
      TrimEndKeeps(s[..|s| - 1], c);
    }
  }

  lemma BlankHasNoComponents(ou: string)
    requires Trim(ou) == ""
    ensures Components(ou) == []
  {
    if '\\' in ou {
      TrimStartKeeps(ou, '\\');
      TrimEndKeeps(TrimStart(ou), '\\');
      assert false;
    }
    SplitFree(ou, '\\');
    assert TrimAll([ou]) == [""];
    assert DropEmpty([""]) == DropEmpty([""][1..]);
  }

  lemma PushComponent(parts: seq<string>, i: nat)
    requires i < |parts|
    ensures var rest := OuChain(Reverse(DropEmpty(TrimAll(parts[i + 1..]))));
            OuChain(Reverse(DropEmpty(TrimAll(parts[i..]))))
            == rest + (if Trim(parts[i]) == "" then [] else [Rdn("ou", Trim(parts[i]))])
  {
    assert TrimAll(parts[i..]) == [Trim(parts[i])] + TrimAll(parts[i + 1..]);
    DropEmptyConcat([Trim(parts[i])], TrimAll(parts[i + 1..]));
  }

  /** internal_ou_to_ldap_rdn_chain: the source's reverse loop builds exactly the RDN chain. */
  method InternalOuToRdnChain(ou: string) returns (chain: seq<Rdn>)
    ensures chain == RdnChain(ou)
  {
    if Trim(ou) == "" {
      BlankHasNoComponents(ou);
      return [];
    }
    var parts := Split(ou, '\\');
    chain := [];
    var i := |parts|;
    while i > 0
      invariant 0 <= i <= |parts|
      invariant chain == OuChain(Reverse(DropEmpty(TrimAll(parts[i..]))))
    {
      i := i - 1;
      PushComponent(parts, i);
      var trimmed := Trim(parts[i]);
      if trimmed != "" {
        chain := chain + [Rdn("ou", trimmed)];
      }
    }
    assert parts[0..] == parts;
  }

  // ---------- Codec laws ----------

  lemma {:induction false} OuRdnsAll(chain: seq<Rdn>)
    requires forall i :: 0 <= i < |chain| ==> IsOu(chain[i])
    ensures OuRdns(chain) == chain
  {
    if chain != [] {
      OuRdnsAll(chain[1..]);
    }
  }

  lemma {:induction false} OuRdnsShape(parts: seq<Rdn>)
    ensures forall i :: 0 <= i < |OuRdns(parts)| ==> IsOu(OuRdns(parts)[i]) && OuRdns(parts)[i] in parts
    ensures |OuRdns(parts)| <= |parts|
    ensures |OuRdns(parts)| == |parts| ==> OuRdns(parts) == parts
  {
    if parts != [] {
      OuRdnsShape(parts[1..]);
      assert parts == [parts[0]] + parts[1..];
    }
  }

  lemma OuRdnsTwice(parts: seq<Rdn>)
    ensures OuRdns(OuRdns(parts)) == OuRdns(parts)
  {
    OuRdnsShape(parts);
    OuRdnsAll(OuRdns(parts));
  }

  lemma {:induction false} OuRdnsConcat(a: seq<Rdn>, b: seq<Rdn>)
    ensures OuRdns(a + b) == OuRdns(a) + OuRdns(b)
  {
    if a == [] {
      assert a + b == b;
    } else {
      OuRdnsConcat(a[1..], b);
      assert (a + b)[1..] == a[1..] + b;
    }
  }

  lemma ChainOfOus(values: seq<string>)
    ensures OuRdns(OuChain(values)) == OuChain(values)
    ensures ChainToOu(OuChain(values)) == Join(Reverse(values), '\\')
  {
    OuRdnsAll(OuChain(values));
    assert Values(OuChain(values)) == values;
  }

  lemma {:induction false} DropEmptyShape(items: seq<string>)
    ensures forall i :: 0 <= i < |DropEmpty(items)| ==>
                          DropEmpty(items)[i] != "" && DropEmpty(items)[i] in items
    ensures (forall i :: 0 <= i < |items| ==> items[i] != "") ==> DropEmpty(items) == items
  {
    if items != [] {
      DropEmptyShape(items[1..]);
      assert items == [items[0]] + items[1..];
    }
  }

  lemma ComponentsClean(ou: string)
    ensures AllClean(Components(ou))
  {
    var pieces := Split(ou, '\\');
    SplitPieces(ou, '\\');
    DropEmptyShape(TrimAll(pieces));
    forall i | 0 <= i < |Components(ou)|
      ensures IsCleanComponent(Components(ou)[i])
    {
      var k :| 0 <= k < |pieces| && TrimAll(pieces)[k] == Components(ou)[i];
      TrimTrims(pieces[k]);
      assert Free(pieces[k], '\\');
    }
  }

  lemma TrimAllClean(values: seq<string>)
    requires AllClean(values)
    ensures DropEmpty(TrimAll(values)) == values
  {
    forall i | 0 <= i < |values|
      ensures Trim(values[i]) == values[i] && values[i] != ""
    {
      assert IsCleanComponent(values[i]);
      TrimTrims(values[i]);
    }
    assert TrimAll(values) == values;
    DropEmptyShape(values);
  }

  /** Joining clean components and reading them back is the identity. */
  lemma ComponentsOfJoin(values: seq<string>)
    requires AllClean(values)
    ensures Components(Join(values, '\\')) == values
  {
    if values == [] {
      assert TrimAll([""]) == [""];
      assert DropEmpty([""]) == DropEmpty([""][1..]);
    } else {
      forall i | 0 <= i < |values|
        ensures Free(values[i], '\\')
      {
        assert IsCleanComponent(values[i]);
      }
      SplitJoin(values, '\\');
      TrimAllClean(values);
    }
  }

  function PadEach(before: seq<string>, values: seq<string>, after: seq<string>): (r: seq<string>)
    requires |before| == |values| == |after|
    ensures |r| == |values|
    ensures forall i :: 0 <= i < |values| ==> r[i] == before[i] + values[i] + after[i]
  {
    seq(|values|, i requires 0 <= i < |values| => before[i] + values[i] + after[i])
  }

  /** White space around components is ignored, and blank components are dropped. */
  lemma ComponentsOfPadded(before: seq<string>, values: seq<string>, after: seq<string>)
    requires |before| == |values| == |after| && values != []
    requires forall i :: 0 <= i < |values| ==> IsBlank(before[i]) && IsBlank(after[i])
    requires forall i :: 0 <= i < |values| ==> values[i] == "" || IsCleanComponent(values[i])
    ensures Components(Join(PadEach(before, values, after), '\\')) == DropEmpty(values)
  {
    var pieces := PadEach(before, values, after);
    forall i | 0 <= i < |pieces|
      ensures Free(pieces[i], '\\') && Trim(pieces[i]) == values[i]
    {
      BlankIsPlain(before[i], '\\');
      BlankIsPlain(after[i], '\\');
      TrimPadded(before[i], values[i], after[i]);
    }
    SplitJoin(pieces, '\\');
    assert TrimAll(pieces) == values;
  }

  /** OU string to chain and back is its normal form; the chain itself is not changed by
      normalising first; normal forms are the fixed points. */
  lemma OuRoundTrip(ou: string)
    ensures ChainToOu(RdnChain(ou)) == NormalOu(ou)
    ensures RdnChain(NormalOu(ou)) == RdnChain(ou)
    ensures NormalOu(NormalOu(ou)) == NormalOu(ou)
    ensures IsNormalOu(NormalOu(ou))
    ensures NormalOu(ou) == ou <==> IsNormalOu(ou)
  {
    var cs := Components(ou);
    ComponentsClean(ou);
    ChainOfOus(Reverse(cs));
    assert Reverse(Reverse(cs)) == cs;
    ComponentsOfJoin(cs);
    NormalJoin(cs);
    if IsNormalOu(ou) && ou != "" {
      TrimAllClean(Split(ou, '\\'));
      JoinSplit(ou, '\\');
    } else if ou == "" {
      ComponentsOfJoin([]);
    }
  }

  lemma NormalJoin(values: seq<string>)
    requires AllClean(values)
    ensures IsNormalOu(Join(values, '\\'))
  {
    if values != [] {
      forall i | 0 <= i < |values|
        ensures Free(values[i], '\\')
      {
        assert IsCleanComponent(values[i]);
      }
      SplitJoin(values, '\\');
    }
  }

  /** Chain to OU string and back is the identity exactly on `ou` chains with clean values. */
  lemma ChainRoundTrip(chain: seq<Rdn>)
    requires forall i :: 0 <= i < |chain| ==> chain[i].attr == "ou"
    ensures RdnChain(ChainToOu(chain)) == chain <==> AllClean(Values(chain))
  {
    var values := Values(chain);
    OuRdnsAll(chain);
    var ou := ChainToOu(chain);
    if AllClean(values) {
      assert AllClean(Reverse(values));
      ComponentsOfJoin(Reverse(values));
      assert Reverse(Reverse(values)) == values;
    }
    if RdnChain(ou) == chain {
      ComponentsClean(ou);
      forall i | 0 <= i < |values|
        ensures IsCleanComponent(values[i])
      {
        assert chain[i] == RdnChain(ou)[i];
        assert IsCleanComponent(Components(ou)[|chain| - 1 - i]);
      }
    }
  }

  // ---------- The OU tree ----------

  // get_direct_child_ous, per entry
  predicate IsDirectChild(parent: string, ou: string) {
    var p, o := Lower(parent), Lower(ou);
    if p == "" then Free(o, '\\')
    else p + "\\" <= o && Free(o[|p| + 1..], '\\')
  }

  // get_direct_child_ous
  function DirectChildren(parent: string, allowed: seq<string>): seq<string> {
    if allowed == [] then []
    else if IsDirectChild(parent, allowed[0]) then [allowed[0]] + DirectChildren(parent, allowed[1..])
    else DirectChildren(parent, allowed[1..])
  }

  /** The case-folded path of an OU; the empty string is the root. */
  function Path(ou: string): seq<string> {
    if ou == "" then [] else Split(Lower(ou), '\\')
  }

  lemma DirectChildPath(parent: string, ou: string)
    requires ou != "" && IsDirectChild(parent, ou)
    ensures |Path(ou)| == |Path(parent)| + 1 && Path(ou)[..|Path(parent)|] == Path(parent)
  {
    var p, o := Lower(parent), Lower(ou);
    if p == "" {
      SplitFree(o, '\\');
    } else {
      var tail := o[|p| + 1..];
      assert o == p + "\\" + tail;
      SplitAt(p, tail, '\\');
      SplitFree(tail, '\\');
    }
  }

  lemma PathOfDirectChild(parent: string, ou: string)
    requires ou != "" && |Path(ou)| == |Path(parent)| + 1 && Path(ou)[..|Path(parent)|] == Path(parent)
    ensures IsDirectChild(parent, ou)
  {
    var p, o := Lower(parent), Lower(ou);
    var n := |Path(parent)|;
    var last := Path(ou)[n];
    SplitPieces(o, '\\');
    assert Free(last, '\\');
    assert Path(ou) == Path(parent) + [last];
    JoinSplit(o, '\\');
    if p == "" {
      assert Path(ou) == [last];
    } else {
      JoinSplit(p, '\\');
      JoinConcat(Path(parent), [last], '\\');
      assert o == p + "\\" + last;
      assert o[|p| + 1..] == last;
    }
  }

  /** The string test is the tree relation: a child's path is its parent's plus one component. */
  lemma DirectChildIsOneMore(parent: string, ou: string)
    requires ou != ""
    ensures IsDirectChild(parent, ou) <==>
              |Path(ou)| == |Path(parent)| + 1 && Path(ou)[..|Path(parent)|] == Path(parent)
  {
    if IsDirectChild(parent, ou) {
      DirectChildPath(parent, ou);
    } else if |Path(ou)| == |Path(parent)| + 1 && Path(ou)[..|Path(parent)|] == Path(parent) {
      PathOfDirectChild(parent, ou);
    }
  }

  lemma {:induction false} DirectChildrenExact(parent: string, allowed: seq<string>)
    ensures forall ou :: ou in DirectChildren(parent, allowed) <==> ou in allowed && IsDirectChild(parent, ou)
  {
    if allowed != [] {
      DirectChildrenExact(parent, allowed[1..]);
      assert allowed == [allowed[0]] + allowed[1..];
    }
  }

  /** The entries keep the order of the list. */
  lemma {:induction false} DirectChildrenConcat(parent: string, a: seq<string>, b: seq<string>)
    ensures DirectChildren(parent, a + b) == DirectChildren(parent, a) + DirectChildren(parent, b)
  {
    if a == [] {
      assert a + b == b;
    } else {
      DirectChildrenConcat(parent, a[1..], b);
      assert (a + b)[0] == a[0] && (a + b)[1..] == a[1..] + b;
      Associative([a[0]], DirectChildren(parent, a[1..]), DirectChildren(parent, b));
    }
  }

  /** Entries that differ in more than letter case. */
  ghost predicate HasDistinctPaths(allowed: seq<string>) {
    forall i, j :: 0 <= i < j < |allowed| ==> Path(allowed[i]) != Path(allowed[j])
  }

  lemma PathInjective(a: string, b: string)
    requires a != "" && b != "" && Path(a) == Path(b)
    ensures EqFold(a, b)
  {
    JoinSplit(Lower(a), '\\');
    JoinSplit(Lower(b), '\\');
  }

  /** Each entry has at most one parent, up to case. */
  lemma OneParent(a: string, b: string, ou: string)
    requires ou != "" && IsDirectChild(a, ou) && IsDirectChild(b, ou)
    ensures EqFold(a, b)
  {
    DirectChildIsOneMore(a, ou);
    DirectChildIsOneMore(b, ou);
    if a != "" && b != "" {
      PathInjective(a, b);
    }
  }

  // ---------- Expanding the tree ----------

  /** What a client sees that lists the children of the root, then theirs, and so on, down to the
      given number of levels: the entries of each visited container in visiting order. */
  ghost function Expand(parent: string, allowed: seq<string>, levels: nat): seq<string>
    decreases levels, 1
  {
    if levels == 0 then [] else ExpandAll(DirectChildren(parent, allowed), allowed, levels - 1)
  }

  ghost function ExpandAll(ous: seq<string>, allowed: seq<string>, levels: nat): seq<string>
    decreases levels, 2, |ous|
  {
    if ous == [] then []
    else [ous[0]] + Expand(ous[0], allowed, levels) + ExpandAll(ous[1..], allowed, levels)
  }

  /** An allowed entry with this path. */
  ghost predicate Allowed(path: seq<string>, allowed: seq<string>) {
    exists ou :: ou in allowed && Path(ou) == path
  }

  /** Every step from the root down to the entry is itself allowed. */
  ghost predicate Connected(path: seq<string>, from: nat, allowed: seq<string>) {
    forall n :: from < n <= |path| ==> Allowed(path[..n], allowed)
  }

  /** `path` lies strictly below `top`, at most `levels` down, with every step in between allowed. */
  ghost predicate Below(path: seq<string>, top: seq<string>, levels: nat, allowed: seq<string>) {
    && |top| < |path| <= |top| + levels
    && path[..|top|] == top
    && Connected(path, |top|, allowed)
  }

  lemma {:induction false} ExpandAllMembers(ous: seq<string>, allowed: seq<string>, levels: nat, ou: string)
    ensures ou in ExpandAll(ous, allowed, levels) <==>
              exists i :: 0 <= i < |ous| && (ou == ous[i] || ou in Expand(ous[i], allowed, levels))
  {
    if ous != [] {
      var rest := ous[1..];
      ExpandAllMembers(rest, allowed, levels, ou);
      if ou in ExpandAll(rest, allowed, levels) {
        var i :| 0 <= i < |rest| && (ou == rest[i] || ou in Expand(rest[i], allowed, levels));
        assert rest[i] == ous[i + 1];
      }
      if i :| 0 <= i < |ous| && (ou == ous[i] || ou in Expand(ous[i], allowed, levels)) {
        if i > 0 { assert ous[i] == rest[i - 1]; }
      }
    }
  }

  lemma ChildOfBelow(parent: string, child: string, levels: nat, allowed: seq<string>, path: seq<string>)
    requires child in allowed && child != "" && IsDirectChild(parent, child) && levels > 0
    ensures path == Path(child) ==> Below(path, Path(parent), levels, allowed)
    ensures Below(path, Path(child), levels - 1, allowed) ==> Below(path, Path(parent), levels, allowed)
  {
    DirectChildIsOneMore(parent, child);
    var n := |Path(parent)|;
    if path == Path(child) {
      assert path[..n + 1] == path;
    } else if Below(path, Path(child), levels - 1, allowed) {
      assert path[..n] == path[..n + 1][..n];
      assert Allowed(path[..n + 1], allowed);
    }
  }

  lemma {:induction false} ExpandSound(parent: string, allowed: seq<string>, levels: nat, ou: string)
    requires "" !in allowed && ou in Expand(parent, allowed, levels)
    ensures ou in allowed && Below(Path(ou), Path(parent), levels, allowed)
    decreases levels
  {
    var kids := DirectChildren(parent, allowed);
    ExpandAllMembers(kids, allowed, levels - 1, ou);
    var i :| 0 <= i < |kids| && (ou == kids[i] || ou in Expand(kids[i], allowed, levels - 1));
    DirectChildrenExact(parent, allowed);
    assert kids[i] in kids;
    if ou in Expand(kids[i], allowed, levels - 1) {
      ExpandSound(kids[i], allowed, levels - 1, ou);
    }
    ChildOfBelow(parent, kids[i], levels, allowed, Path(ou));
  }

  lemma {:induction false} ExpandComplete(parent: string, allowed: seq<string>, levels: nat, ou: string)
    requires "" !in allowed && ou in allowed && Below(Path(ou), Path(parent), levels, allowed)
    ensures ou in Expand(parent, allowed, levels)
    decreases levels
  {
    var kid := NextStep(parent, allowed, levels, ou);
    if ou != kid {
      ExpandComplete(kid, allowed, levels - 1, ou);
    }
    ExpandThrough(parent, allowed, levels, kid, ou);
  }

  lemma ExpandThrough(parent: string, allowed: seq<string>, levels: nat, kid: string, ou: string)
    requires levels > 0 && kid in allowed && IsDirectChild(parent, kid)
    requires ou == kid || ou in Expand(kid, allowed, levels - 1)
    ensures ou in Expand(parent, allowed, levels)
  {
    var kids := DirectChildren(parent, allowed);
    DirectChildrenExact(parent, allowed);
    var i :| 0 <= i < |kids| && kids[i] == kid;
    ExpandAllMembers(kids, allowed, levels - 1, ou);
  }

  /** The allowed child of `parent` on the way down to `ou`. */
  lemma NextStep(parent: string, allowed: seq<string>, levels: nat, ou: string) returns (kid: string)
    requires "" !in allowed && ou in allowed && Below(Path(ou), Path(parent), levels, allowed)
    ensures kid in allowed && IsDirectChild(parent, kid)
    ensures kid == ou || Below(Path(ou), Path(kid), levels - 1, allowed)
  {
    var n := |Path(parent)|;
    if |Path(ou)| == n + 1 {
      kid := ou;
    } else {
      assert Allowed(Path(ou)[..n + 1], allowed);
      kid :| kid in allowed && Path(kid) == Path(ou)[..n + 1];
      assert Path(kid)[..n] == Path(ou)[..n];
    }
    DirectChildIsOneMore(parent, kid);
  }

  /** Expanding a container lists exactly the allowed entries below it whose intermediate OUs
      are all allowed. */
  lemma ExpandExact(parent: string, allowed: seq<string>, levels: nat, ou: string)
    requires "" !in allowed
    ensures ou in Expand(parent, allowed, levels) <==>
              ou in allowed && Below(Path(ou), Path(parent), levels, allowed)
  {
    if ou in Expand(parent, allowed, levels) {
      ExpandSound(parent, allowed, levels, ou);
    } else if ou in allowed && Below(Path(ou), Path(parent), levels, allowed) {
      ExpandComplete(parent, allowed, levels, ou);
    }
  }

  lemma SamePathSameEntry(allowed: seq<string>, a: string, b: string)
    requires HasDistinctPaths(allowed) && a in allowed && b in allowed
    ensures Path(a) == Path(b) ==> a == b
  {
    var i :| 0 <= i < |allowed| && allowed[i] == a;
    var j :| 0 <= j < |allowed| && allowed[j] == b;
  }

  ghost predicate Unique(ous: seq<string>) {
    forall i, j :: 0 <= i < j < |ous| ==> ous[i] != ous[j]
  }

  lemma UniqueConcat(a: seq<string>, b: seq<string>)
    requires Unique(a) && Unique(b)
    requires forall x :: x in a ==> x !in b
    ensures Unique(a + b)
  {
    var ab := a + b;
    forall i, j | 0 <= i < j < |ab|
      ensures ab[i] != ab[j]
    {
      if i < |a| <= j {
        assert ab[i] in a && ab[j] in b;
      }
    }
  }

  lemma {:induction false} DirectChildrenUnique(parent: string, allowed: seq<string>)
    requires Unique(allowed)
    ensures Unique(DirectChildren(parent, allowed))
  {
    if allowed != [] {
      DirectChildrenUnique(parent, allowed[1..]);
      DirectChildrenExact(parent, allowed[1..]);
      assert forall j :: 0 <= j < |allowed[1..]| ==> allowed[1..][j] == allowed[j + 1];
      assert allowed[0] !in allowed[1..];
      if IsDirectChild(parent, allowed[0]) {
        UniqueConcat([allowed[0]], DirectChildren(parent, allowed[1..]));
      }
    }
  }

  /** The expansion visits no entry twice. */
  lemma {:induction false} ExpandUnique(parent: string, allowed: seq<string>, levels: nat)
    requires "" !in allowed && HasDistinctPaths(allowed)
    ensures Unique(Expand(parent, allowed, levels))
    decreases levels, 1
  {
    if levels > 0 {
      forall i, j | 0 <= i < j < |allowed|
        ensures allowed[i] != allowed[j]
      {
        assert Path(allowed[i]) != Path(allowed[j]);
      }
      DirectChildrenUnique(parent, allowed);
      DirectChildrenExact(parent, allowed);
      ExpandAllUnique(parent, DirectChildren(parent, allowed), allowed, levels - 1);
    }
  }

  lemma {:induction false} ExpandAllUnique(parent: string, ous: seq<string>, allowed: seq<string>, levels: nat)
    requires "" !in allowed && HasDistinctPaths(allowed) && Unique(ous)
    requires forall i :: 0 <= i < |ous| ==> ous[i] in allowed && IsDirectChild(parent, ous[i])
    ensures Unique(ExpandAll(ous, allowed, levels))
    decreases levels, 2, |ous|
  {
    if ous != [] {
      var first, rest := ous[0], ous[1..];
      ExpandUnique(first, allowed, levels);
      ExpandAllUnique(parent, rest, allowed, levels);
      var below, later := Expand(first, allowed, levels), ExpandAll(rest, allowed, levels);
      ExpandExact(first, allowed, levels, first);
      UniqueConcat([first], below);
      DirectChildIsOneMore(parent, first);
      forall x | x in [first] + below
        ensures x !in later
      {
        ExpandExact(first, allowed, levels, x);
        ExpandAllMembers(rest, allowed, levels, x);
        forall i | 0 <= i < |rest|
          ensures x != rest[i] && x !in Expand(rest[i], allowed, levels)
        {
          assert rest[i] == ous[i + 1];
          DirectChildIsOneMore(parent, rest[i]);
          SamePathSameEntry(allowed, first, rest[i]);
          ExpandExact(rest[i], allowed, levels, x);
          assert Path(x)[..|Path(rest[i])|] == Path(first);
        }
      }
      UniqueConcat([first] + below, later);
    }
  }

  ghost function Deepest(allowed: seq<string>): nat {
    if allowed == [] then 0
    else
      var rest := Deepest(allowed[1..]);
      if |Path(allowed[0])| > rest then |Path(allowed[0])| else rest
  }

  lemma {:induction false} DeepestBounds(allowed: seq<string>)
    ensures forall ou :: ou in allowed ==> |Path(ou)| <= Deepest(allowed)
  {
    if allowed != [] {
      DeepestBounds(allowed[1..]);
      assert allowed == [allowed[0]] + allowed[1..];
    }
  }

  /** Below the deepest entry there is nothing left to list. */
  lemma {:induction false} ExpandSettles(parent: string, allowed: seq<string>, levels: nat, more: nat)
    requires "" !in allowed && |Path(parent)| + levels >= Deepest(allowed)
    ensures Expand(parent, allowed, levels + more) == Expand(parent, allowed, levels)
    decreases levels, 1
  {
    if levels == 0 {
      NoneBelowDeepest(parent, allowed);
    } else {
      var kids := DirectChildren(parent, allowed);
      DirectChildrenExact(parent, allowed);
      forall i | 0 <= i < |kids|
        ensures |Path(kids[i])| == |Path(parent)| + 1
      {
        assert kids[i] in kids;
        DirectChildIsOneMore(parent, kids[i]);
      }
      ExpandAllSettles(kids, allowed, levels - 1, more);
    }
  }

  lemma NoneBelowDeepest(parent: string, allowed: seq<string>)
    requires "" !in allowed && |Path(parent)| >= Deepest(allowed)
    ensures DirectChildren(parent, allowed) == []
  {
    DeepestBounds(allowed);
    forall ou | ou in allowed
      ensures !IsDirectChild(parent, ou)
    {
      DirectChildIsOneMore(parent, ou);
    }
    DirectChildrenExact(parent, allowed);
    var kids := DirectChildren(parent, allowed);
    assert forall i :: 0 <= i < |kids| ==> kids[i] in kids;
  }

  lemma {:induction false} ExpandAllSettles(ous: seq<string>, allowed: seq<string>, levels: nat, more: nat)
    requires "" !in allowed
    requires forall i :: 0 <= i < |ous| ==> |Path(ous[i])| + levels >= Deepest(allowed)
    ensures ExpandAll(ous, allowed, levels + more) == ExpandAll(ous, allowed, levels)
    decreases levels, 2, |ous|
  {
    if ous != [] {
      ExpandSettles(ous[0], allowed, levels, more);
      ExpandAllSettles(ous[1..], allowed, levels, more);
    }
  }

  /** Walking the tree from the root of a list without an empty entry: any number of levels from the
      deepest entry's depth on gives the same, namely every entry all of whose proper prefixes are
      allowed, and only those; each once if the entries differ in more than case. */
  lemma TreeWalk(allowed: seq<string>, levels: nat)
    requires "" !in allowed && levels >= Deepest(allowed)
    ensures Expand("", allowed, levels) == Expand("", allowed, Deepest(allowed))
    ensures forall ou :: ou in Expand("", allowed, levels) <==>
                           ou in allowed
                           && (forall n :: 0 < n < |Path(ou)| ==> Allowed(Path(ou)[..n], allowed))
    ensures HasDistinctPaths(allowed) ==> Unique(Expand("", allowed, levels))
  {
    ExpandSettles("", allowed, Deepest(allowed), levels - Deepest(allowed));
    if HasDistinctPaths(allowed) {
      ExpandUnique("", allowed, levels);
    }
    DeepestBounds(allowed);
    forall ou
      ensures ou in Expand("", allowed, levels) <==>
                ou in allowed
                && (forall n :: 0 < n < |Path(ou)| ==> Allowed(Path(ou)[..n], allowed))
    {
      ExpandExact("", allowed, levels, ou);
      var path := Path(ou);
      if ou in allowed {
        assert path[..|path|] == path;
        assert Allowed(path[..|path|], allowed);
        assert path[..0] == [];
      }
    }
  }

  lemma {:induction false} ExpandAllLength(ous: seq<string>, allowed: seq<string>, levels: nat, ou: string)
    requires ou in ous
    ensures |ExpandAll(ous, allowed, levels)| >= 1 + |Expand(ou, allowed, levels)|
  {
    if ous[0] != ou {
      assert ous == [ous[0]] + ous[1..];
      ExpandAllLength(ous[1..], allowed, levels, ou);
    }
  }

  /** An empty entry is its own child, so in a list that has one every further level lists more. */
  lemma {:induction false} EmptyEntryNeverEnds(allowed: seq<string>, levels: nat)
    requires "" in allowed
    ensures |Expand("", allowed, levels)| >= levels
  {
    if levels > 0 {
      EmptyEntryNeverEnds(allowed, levels - 1);
      DirectChildrenExact("", allowed);
      ExpandAllLength(DirectChildren("", allowed), allowed, levels - 1, "");
    }
  }

  /** From this many levels on the walk lists nothing new. */
  ghost predicate EndsAt(allowed: seq<string>, n: nat) {
    forall levels: nat :: levels >= n ==> Expand("", allowed, levels) == Expand("", allowed, n)
  }

  /** The walk from the root ends exactly for the lists without an empty entry. */
  lemma WalkEndsIff(allowed: seq<string>)
    ensures (exists n: nat :: EndsAt(allowed, n)) <==> "" !in allowed
  {
    if "" !in allowed {
      forall levels: nat | levels >= Deepest(allowed)
        ensures Expand("", allowed, levels) == Expand("", allowed, Deepest(allowed))
      {
        TreeWalk(allowed, levels);
      }
      assert EndsAt(allowed, Deepest(allowed));
    } else {
      forall n: nat
        ensures !EndsAt(allowed, n)
      {
        var more := n + |Expand("", allowed, n)| + 1;
        EmptyEntryNeverEnds(allowed, more);
        assert Expand("", allowed, more) != Expand("", allowed, n);
      }
    }
  }
}
