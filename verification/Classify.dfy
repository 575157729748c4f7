/**
 Which entry a DN names: the subtree test, the container test, and the
 user/group classifier shared by add, search, bind and delete.
 */
module Classify {
  import opened Text
  import opened Dn
  import opened Ou

  predicate EqRdn(a: Rdn, b: Rdn) {
    EqFold(a.attr, b.attr) && EqFold(a.value, b.value)
  }

  /** The last RDNs are those of the base, up to ASCII case. */
  predicate IsSubtree(parts: seq<Rdn>, base: seq<Rdn>) {
    && |parts| >= |base|
    && forall i :: 0 <= i < |base| ==> EqRdn(parts[|parts| - |base| + i], base[i])
  }

  /** is_subtree: the source's indexed loop with its two early exits. */
  method CheckSubtree(parts: seq<Rdn>, base: seq<Rdn>) returns (r: bool)
    ensures r <==> IsSubtree(parts, base)
  {
    if base == [] {
      return true;
    }
    if |parts| < |base| {
      return false;
    }
    var offset := |parts| - |base|;
    for i := 0 to |base|
      invariant forall j :: 0 <= j < i ==> EqRdn(parts[offset + j], base[j])
    {
      if !EqFold(parts[offset + i].attr, base[i].attr) || !EqFold(parts[offset + i].value, base[i].value) {
        return false;
      }
    }
    return true;
  }

  // is_container_dn
  predicate IsContainerDn(parts: seq<Rdn>, base: seq<Rdn>, allowed: seq<string>) {
    var chain := OuRdns(parts);
    && (exists i :: 0 <= i < |allowed| && EqFold(allowed[i], ChainToOu(chain)))
    && |parts| == |base| + |chain|
  }

  datatype Entry =
    | User(id: string)
    | Group(name: string)
    | BadSubtree
    | UnexpectedFormat
    | InvalidSyntax(error: DnError)

  function PrimaryOu(chain: seq<Rdn>): string {
    if chain == [] then "" else Lower(chain[|chain| - 1].value)
  }

  // The part of get_user_or_group_id_from_distinguished_name that follows the parser.
  function ClassifyParts(parts: seq<Rdn>, base: seq<Rdn>): Entry
    requires parts != []
  {
    if !IsSubtree(parts, base) then BadSubtree
    else
      var chain := OuRdns(parts);
      var primary := PrimaryOu(chain);
      if |parts| == |base| + |chain| + 1 then
        var rdnType := Lower(parts[0].attr);
        var isUserOu := primary == DEFAULT_USER_OU || primary == "";
        if rdnType == "uid" || (rdnType == "cn" && isUserOu) then User(Lower(parts[0].value))
        else if rdnType == "cn" && !isUserOu then Group(parts[0].value)
        else UnexpectedFormat
      else UnexpectedFormat
  }

  // get_user_or_group_id_from_distinguished_name
  function ClassifyDn(dn: string, base: seq<Rdn>): Entry {
    match ParseDn(dn)
    case Err(e) => InvalidSyntax(e)
    case Ok(parts) => if parts == [] then UnexpectedFormat else ClassifyParts(parts, base)
  }

  // ---------- Exactness ----------

  predicate HasNoOu(parts: seq<Rdn>) {
    forall i :: 0 <= i < |parts| ==> !IsOu(parts[i])
  }

  lemma {:induction false} NoOuRdns(parts: seq<Rdn>)
    ensures HasNoOu(parts) <==> OuRdns(parts) == []
  {
    if parts != [] {
      NoOuRdns(parts[1..]);
      assert parts == [parts[0]] + parts[1..];
      if HasNoOu(parts[1..]) && !IsOu(parts[0]) {
        forall i | 0 <= i < |parts|
          ensures !IsOu(parts[i])
        {
          if i > 0 { assert parts[i] == parts[1..][i - 1]; }
        }
      }
    }
  }

  /** How many RDNs are not `ou` RDNs. */
  function CountOthers(parts: seq<Rdn>): nat {
    if parts == [] then 0 else (if IsOu(parts[0]) then 0 else 1) + CountOthers(parts[1..])
  }

  lemma {:induction false} OusAndOthers(parts: seq<Rdn>)
    ensures |OuRdns(parts)| + CountOthers(parts) == |parts|
  {
    if parts != [] {
      OusAndOthers(parts[1..]);
    }
  }

  lemma {:induction false} SameOus(a: seq<Rdn>, b: seq<Rdn>)
    requires |a| == |b| && forall i :: 0 <= i < |a| ==> EqRdn(a[i], b[i])
    ensures |OuRdns(a)| == |OuRdns(b)|
  {
    if a != [] {
      assert EqRdn(a[0], b[0]);
      forall i | 0 <= i < |a[1..]|
        ensures EqRdn(a[1..][i], b[1..][i])
      {
        assert EqRdn(a[i + 1], b[i + 1]);
      }
      SameOus(a[1..], b[1..]);
    }
  }

  /** The `ou` RDNs of a DN are those above the base and those of the base. */
  lemma OuRdnsAroundBase(parts: seq<Rdn>, base: seq<Rdn>)
    requires IsSubtree(parts, base)
    ensures OuRdns(parts) == OuRdns(parts[..|parts| - |base|]) + OuRdns(parts[|parts| - |base|..])
    ensures |OuRdns(parts[|parts| - |base|..])| == |OuRdns(base)|
  {
    var k := |parts| - |base|;
    assert parts == parts[..k] + parts[k..];
    OuRdnsConcat(parts[..k], parts[k..]);
    forall i | 0 <= i < |base|
      ensures EqRdn(parts[k..][i], base[i])
    {
      assert parts[k..][i] == parts[|parts| - |base| + i];
    }
    SameOus(parts[k..], base);
  }

  /** Under a base without `ou` RDNs, the `ou` RDNs of a DN are those above the base. */
  lemma OuRdnsAboveBase(parts: seq<Rdn>, base: seq<Rdn>)
    requires IsSubtree(parts, base) && HasNoOu(base)
    ensures OuRdns(parts) == OuRdns(parts[..|parts| - |base|])
  {
    NoOuRdns(base);
    OuRdnsAroundBase(parts, base);
  }

  /** One RDN of the given kind, then only `ou` RDNs, then the base. */
  ghost predicate IsLeaf(parts: seq<Rdn>, base: seq<Rdn>) {
    && IsSubtree(parts, base)
    && |parts| > |base|
    && !IsOu(parts[0])
    && forall i :: 1 <= i < |parts| - |base| ==> IsOu(parts[i])
  }

  /** The test of the source, counting `ou` RDNs, for every base: it asks for one RDN above the base
      that is no `ou` RDN, and for one more for each `ou` RDN of the base. */
  lemma CountTest(parts: seq<Rdn>, base: seq<Rdn>, n: nat)
    requires IsSubtree(parts, base)
    ensures |parts| == |base| + |OuRdns(parts)| + n <==> CountOthers(parts[..|parts| - |base|]) == n + |OuRdns(base)|
  {
    OuRdnsAroundBase(parts, base);
    OusAndOthers(parts[..|parts| - |base|]);
  }

  lemma {:induction false} OnlyOus(parts: seq<Rdn>)
    ensures CountOthers(parts) == 0 <==> forall i :: 0 <= i < |parts| ==> IsOu(parts[i])
    ensures CountOthers(parts) == 0 ==> OuRdns(parts) == parts
  {
    if parts != [] {
      OnlyOus(parts[1..]);
      assert parts == [parts[0]] + parts[1..];
      assert forall i :: 0 <= i < |parts[1..]| ==> parts[1..][i] == parts[i + 1];
      assert forall i :: 1 <= i < |parts| ==> parts[i] == parts[1..][i - 1];
    }
  }

  /** Counting `ou` RDNs, as the source does: what it decides under every base, and that under a base
      without `ou` RDNs it is the shape test. */
  lemma LeafByCounting(parts: seq<Rdn>, base: seq<Rdn>)
    requires parts != [] && IsSubtree(parts, base)
    ensures |parts| == |base| + |OuRdns(parts)| + 1 <==>
              CountOthers(parts[..|parts| - |base|]) == 1 + |OuRdns(base)|
    ensures HasNoOu(base) && !IsOu(parts[0]) ==>
              && (|parts| == |base| + |OuRdns(parts)| + 1 <==> IsLeaf(parts, base))
              && (IsLeaf(parts, base) ==> OuRdns(parts) == parts[1..|parts| - |base|])
  {
    CountTest(parts, base, 1);
    if HasNoOu(base) && !IsOu(parts[0]) {
      NoOuRdns(base);
      PlainLeaf(parts, base);
    }
  }

  lemma PlainLeaf(parts: seq<Rdn>, base: seq<Rdn>)
    requires parts != [] && IsSubtree(parts, base) && HasNoOu(base) && !IsOu(parts[0])
    ensures CountOthers(parts[..|parts| - |base|]) == 1 <==> IsLeaf(parts, base)
    ensures IsLeaf(parts, base) ==> OuRdns(parts) == parts[1..|parts| - |base|]
  {
    var k := |parts| - |base|;
    OuRdnsAboveBase(parts, base);
    if k > 0 {
      var ous := parts[1..k];
      assert parts[..k] == [parts[0]] + ous && parts[..k][1..] == ous;
      OnlyOus(ous);
      assert forall i :: 0 <= i < |ous| ==> ous[i] == parts[i + 1];
      assert forall i :: 1 <= i < k ==> parts[i] == ous[i - 1];
    }
  }

  /** The outermost OU is `people`, blank or absent: what makes a `cn` leaf a user. */
  ghost predicate InUserOu(parts: seq<Rdn>, base: seq<Rdn>)
    requires |parts| > |base|
  {
    || |parts| == |base| + 1
    || Lower(parts[|parts| - |base| - 1].value) in {"people", ""}
  }

  /** The last `ou` RDN of the DN, which is the base's if it has one, is `people` or blank, or there
      is none. */
  ghost predicate EndsInUserOu(parts: seq<Rdn>) {
    forall i :: 0 <= i < |parts| && IsOu(parts[i]) && HasNoOu(parts[i + 1..]) ==> Lower(parts[i].value) in {"people", ""}
  }

  lemma EndsStep(parts: seq<Rdn>)
    requires parts != []
    ensures EndsInUserOu(parts) <==>
              && EndsInUserOu(parts[1..])
              && (IsOu(parts[0]) && HasNoOu(parts[1..]) ==> Lower(parts[0].value) in {"people", ""})
  {
    var rest := parts[1..];
    assert forall i :: 0 <= i < |rest| ==> rest[i] == parts[i + 1] && rest[i + 1..] == parts[i + 2..];
    assert forall i :: 0 < i < |parts| ==> parts[i] == rest[i - 1] && parts[i + 1..] == rest[i..];
    if EndsInUserOu(rest) && (IsOu(parts[0]) && HasNoOu(rest) ==> Lower(parts[0].value) in {"people", ""}) {
      forall i | 0 <= i < |parts| && IsOu(parts[i]) && HasNoOu(parts[i + 1..])
        ensures Lower(parts[i].value) in {"people", ""}
      {
        if i > 0 {
          assert IsOu(rest[i - 1]) && rest[i - 1 + 1..] == parts[i + 1..];
        }
      }
    }
  }

  lemma PrimaryStep(parts: seq<Rdn>)
    requires parts != []
    ensures PrimaryOu(OuRdns(parts))
            == if OuRdns(parts[1..]) != [] then PrimaryOu(OuRdns(parts[1..]))
               else if IsOu(parts[0]) then Lower(parts[0].value) else ""
  {
  }

  lemma {:induction false} LastOu(parts: seq<Rdn>)
    ensures PrimaryOu(OuRdns(parts)) in {"people", ""} <==> EndsInUserOu(parts)
  {
    if parts != [] {
      LastOu(parts[1..]);
      NoOuRdns(parts[1..]);
      EndsStep(parts);
      PrimaryStep(parts);
    }
  }

  lemma ClassifyCases(parts: seq<Rdn>, base: seq<Rdn>, counts: bool, userOu: bool)
    requires parts != [] && Lower(parts[0].attr) == parts[0].attr && Lower(parts[0].value) == parts[0].value
    requires counts <==> |parts| == |base| + |OuRdns(parts)| + 1
    requires userOu <==> PrimaryOu(OuRdns(parts)) in {"people", ""}
    ensures var kind, name := parts[0].attr, parts[0].value;
            ClassifyParts(parts, base)
            == if !IsSubtree(parts, base) then BadSubtree
               else if counts && (kind == "uid" || (kind == "cn" && userOu)) then User(name)
               else if counts && kind == "cn" then Group(name)
               else UnexpectedFormat
  {
  }

  /** The classifier, exactly, under every base. */
  lemma ClassifyExact(dn: string, base: seq<Rdn>, parts: seq<Rdn>)
    requires ParseDn(dn) == Ok(parts)
    ensures ClassifyDn(dn, base) == BadSubtree <==> !IsSubtree(parts, base)
    ensures forall id :: ClassifyDn(dn, base) == User(id) <==>
                           && IsSubtree(parts, base)
                           && CountOthers(parts[..|parts| - |base|]) == 1 + |OuRdns(base)|
                           && (parts[0].attr == "uid" || (parts[0].attr == "cn" && EndsInUserOu(parts)))
                           && id == parts[0].value
    ensures forall name :: ClassifyDn(dn, base) == Group(name) <==>
                             && IsSubtree(parts, base)
                             && CountOthers(parts[..|parts| - |base|]) == 1 + |OuRdns(base)|
                             && parts[0].attr == "cn" && !EndsInUserOu(parts)
                             && name == parts[0].value
  {
    ParseDnNormal(dn);
    NormalRdnIsOu(parts[0]);
    LastOu(parts);
    if IsSubtree(parts, base) {
      CountTest(parts, base, 1);
    }
    ClassifyCases(parts, base, |parts| == |base| + |OuRdns(parts)| + 1, EndsInUserOu(parts));
  }

  lemma PlainUserOu(parts: seq<Rdn>, base: seq<Rdn>)
    requires IsLeaf(parts, base) && HasNoOu(base)
    ensures EndsInUserOu(parts) <==> InUserOu(parts, base)
  {
    var k := |parts| - |base|;
    LastOu(parts);
    NoOuRdns(base);
    PlainLeaf(parts, base);
    var ous := OuRdns(parts);
    if k > 1 {
      assert ous[|ous| - 1] == parts[k - 1];
    }
  }

  /** For a base without `ou` RDNs the classifier tests the shape: users are the `uid` leaves and the
      `cn` leaves of a user OU, groups are the other `cn` leaves, and everything else under the base
      has an unexpected format. */
  lemma ClassifyUnderPlainBase(dn: string, base: seq<Rdn>, parts: seq<Rdn>)
    requires ParseDn(dn) == Ok(parts) && HasNoOu(base)
    ensures forall id :: ClassifyDn(dn, base) == User(id) <==>
                           && IsLeaf(parts, base)
                           && (parts[0].attr == "uid" || (parts[0].attr == "cn" && InUserOu(parts, base)))
                           && id == parts[0].value
    ensures forall name :: ClassifyDn(dn, base) == Group(name) <==>
                             && IsLeaf(parts, base)
                             && parts[0].attr == "cn" && !InUserOu(parts, base)
                             && name == parts[0].value
  {
    ParseDnNormal(dn);
    ClassifyExact(dn, base, parts);
    NoOuRdns(base);
    NormalRdnIsOu(parts[0]);
    assert !("uid" == "ou" || "cn" == "ou");
    if IsSubtree(parts, base) && !IsOu(parts[0]) {
      PlainLeaf(parts, base);
      if IsLeaf(parts, base) {
        PlainUserOu(parts, base);
      }
    }
  }

  lemma OnTopOfBase(above: seq<Rdn>, base: seq<Rdn>)
    ensures IsSubtree(above + base, base)
    ensures (above + base)[..|above + base| - |base|] == above
    ensures IsNormalDn(above) && IsNormalDn(base) ==> IsNormalDn(above + base)
  {
    var parts := above + base;
    assert forall i :: 0 <= i < |base| ==> parts[|parts| - |base| + i] == base[i];
  }

  lemma UidIsNormal(id: string)
    requires IsNormalText(id)
    ensures IsNormalRdn(Rdn("uid", id)) && !IsOu(Rdn("uid", id))
  {
    assert IsNormalText("uid");
    NormalRdnIsOu(Rdn("uid", id));
  }

  ghost predicate TestsShape(parts: seq<Rdn>, base: seq<Rdn>)
    requires parts != []
  {
    ClassifyParts(parts, base).User? <==> IsLeaf(parts, base)
  }

  ghost predicate IsUidUnder(parts: seq<Rdn>, base: seq<Rdn>) {
    parts != [] && IsNormalDn(parts) && parts[0].attr == "uid" && IsSubtree(parts, base)
  }

  lemma UidByCounting(parts: seq<Rdn>, base: seq<Rdn>)
    requires IsUidUnder(parts, base)
    ensures ClassifyParts(parts, base)
            == if CountOthers(parts[..|parts| - |base|]) == 1 + |OuRdns(base)| then User(parts[0].value) else UnexpectedFormat
  {
    NormalRdnIsOu(parts[0]);
    CountTest(parts, base, 1);
    ClassifyCases(parts, base, |parts| == |base| + |OuRdns(parts)| + 1, PrimaryOu(OuRdns(parts)) in {"people", ""});
  }

  /** The classifier tests the shape of all `uid` DNs under a base exactly when the base has no `ou`
      RDN. */
  lemma TestsShapeIff(base: seq<Rdn>)
    requires IsNormalDn(base)
    ensures (forall parts: seq<Rdn> :: IsUidUnder(parts, base) ==> TestsShape(parts, base)) <==> HasNoOu(base)
  {
    NoOuRdns(base);
    if HasNoOu(base) {
      forall parts: seq<Rdn> | IsUidUnder(parts, base)
        ensures TestsShape(parts, base)
      {
        NormalRdnIsOu(parts[0]);
        UidByCounting(parts, base);
        PlainLeaf(parts, base);
      }
    } else {
      ProperLeafRejected("a", base);
    }
  }

  /** Under a base with `ou` RDNs a user right above the base is not recognised. */
  lemma ProperLeafRejected(id: string, base: seq<Rdn>)
    requires IsNormalText(id) && IsNormalDn(base) && OuRdns(base) != []
    ensures var leaf := [Rdn("uid", id)] + base;
            IsUidUnder(leaf, base) && IsLeaf(leaf, base) && !TestsShape(leaf, base)
  {
    var above := [Rdn("uid", id)];
    UidIsNormal(id);
    OnTopOfBase(above, base);
    UidByCounting(above + base, base);
    assert CountOthers(above) == 1 by {
      assert above[1..] == [];
    }
  }

  lemma JunkCounts(id: string, junk: seq<Rdn>)
    requires IsNormalText(id) && HasNoOu(junk)
    ensures CountOthers([Rdn("uid", id)] + junk) == 1 + |junk|
  {
    UidIsNormal(id);
    assert ([Rdn("uid", id)] + junk)[1..] == junk;
    NoOuRdns(junk);
    OusAndOthers(junk);
  }

  /** Under a base with `ou` RDNs, as many RDNs of any other kind pass between a user's name and the
      base. */
  lemma JunkIsAccepted(id: string, junk: seq<Rdn>, base: seq<Rdn>)
    requires IsNormalText(id) && IsNormalDn(junk) && IsNormalDn(base)
    requires HasNoOu(junk) && |junk| == |OuRdns(base)|
    ensures ClassifyDn(PrintDn([Rdn("uid", id)] + junk + base), base) == User(id)
  {
    var above := [Rdn("uid", id)] + junk;
    var parts := above + base;
    UidIsNormal(id);
    OnTopOfBase([Rdn("uid", id)], junk);
    OnTopOfBase(above, base);
    PrintedDnParsesBack(parts);
    JunkCounts(id, junk);
    UidByCounting(parts, base);
  }

  lemma OneOuBase(ou: Rdn, top: Rdn)
    requires IsOu(ou) && !IsOu(top)
    ensures OuRdns([ou, top]) == [ou]
  {
    OuRdnsConcat([ou], [top]);
    NoOuRdns([top]);
    OuRdnsAll([ou]);
    assert [ou, top] == [ou] + [top];
  }

  lemma SomeNormalTexts()
    ensures IsNormalText("a") && IsNormalText("b") && IsNormalText("x") && IsNormalText("y")
    ensures IsNormalText("foo") && IsNormalText("ou") && IsNormalText("dc")
  {
  }

  lemma JunkRdn()
    ensures ClassifyDn(PrintDn([Rdn("uid", "a"), Rdn("foo", "b"), Rdn("ou", "x"), Rdn("dc", "y")]),
                       [Rdn("ou", "x"), Rdn("dc", "y")]) == User("a")
  {
    var foo, ou, dc := Rdn("foo", "b"), Rdn("ou", "x"), Rdn("dc", "y");
    SomeNormalTexts();
    NormalRdnIsOu(foo);
    NormalRdnIsOu(ou);
    NormalRdnIsOu(dc);
    JunkAboveOu("a", foo, ou, dc);
  }

  lemma JunkAboveOu(id: string, junk: Rdn, ou: Rdn, top: Rdn)
    requires IsNormalText(id) && IsNormalRdn(junk) && IsNormalRdn(ou) && IsNormalRdn(top)
    requires !IsOu(junk) && IsOu(ou) && !IsOu(top)
    ensures ClassifyDn(PrintDn([Rdn("uid", id), junk, ou, top]), [ou, top]) == User(id)
  {
    OneOuBase(ou, top);
    JunkIsAccepted(id, [junk], [ou, top]);
    assert [Rdn("uid", id)] + [junk] + [ou, top] == [Rdn("uid", id), junk, ou, top];
  }

  lemma NormalRdnIsOu(r: Rdn)
    requires IsNormalRdn(r)
    ensures Lower(r.attr) == r.attr && Lower(r.value) == r.value
    ensures IsOu(r) <==> r.attr == "ou"
  {
    LowerIsLower(r.attr);
    LowerIsLower(r.value);
    LowerIsLower("ou");
  }

  /** No DN is both an allowed container and a user or group. */
  lemma ContainersAreNotEntries(dn: string, base: seq<Rdn>, allowed: seq<string>)
    requires ParseDn(dn).Ok? && IsContainerDn(ParseDn(dn).value, base, allowed)
    ensures ClassifyDn(dn, base) in {BadSubtree, UnexpectedFormat}
  {
    ParseDnNormal(dn);
  }

  /** The OU values of a DN that the internal OU string can represent faithfully. */
  predicate HasCleanOus(parts: seq<Rdn>) {
    AllClean(Values(OuRdns(parts)))
  }

  /** The `ou` RDNs are an allowed OU's own chain, in lower case, and above the base there are as
      many other RDNs as the base has `ou` RDNs. */
  ghost predicate IsAllowedChain(parts: seq<Rdn>, base: seq<Rdn>, allowed: seq<string>) {
    && IsSubtree(parts, base)
    && CountOthers(parts[..|parts| - |base|]) == |OuRdns(base)|
    && exists i :: 0 <= i < |allowed| && IsNormalOu(Lower(allowed[i]))
                   && OuRdns(parts) == RdnChain(Lower(allowed[i]))
  }

  /** Under a base without `ou` RDNs: the chain of an allowed OU followed by the base. */
  lemma AllowedChainUnderPlainBase(parts: seq<Rdn>, base: seq<Rdn>, allowed: seq<string>)
    requires IsSubtree(parts, base) && HasNoOu(base)
    ensures IsAllowedChain(parts, base, allowed) <==>
              exists i :: 0 <= i < |allowed| && IsNormalOu(Lower(allowed[i]))
                          && parts[..|parts| - |base|] == RdnChain(Lower(allowed[i]))
  {
    var above := parts[..|parts| - |base|];
    NoOuRdns(base);
    OuRdnsAboveBase(parts, base);
    OnlyOus(above);
    forall i | 0 <= i < |allowed| && above == RdnChain(Lower(allowed[i]))
      ensures OuRdns(parts) == above && CountOthers(above) == 0
    {
      ChainOfOus(Reverse(Components(Lower(allowed[i]))));
      OusAndOthers(above);
    }
  }

  lemma NormalOusAreOu(parts: seq<Rdn>)
    requires IsNormalDn(parts)
    ensures forall i :: 0 <= i < |OuRdns(parts)| ==> OuRdns(parts)[i].attr == "ou"
    ensures forall i :: 0 <= i < |OuRdns(parts)| ==> IsLower(OuRdns(parts)[i].value)
  {
    OuRdnsShape(parts);
    var ous := OuRdns(parts);
    forall i | 0 <= i < |ous|
      ensures ous[i].attr == "ou" && IsLower(ous[i].value)
    {
      assert ous[i] in parts;
      NormalRdnIsOu(ous[i]);
    }
  }

  lemma InternalOuIsLower(parts: seq<Rdn>)
    requires IsNormalDn(parts)
    ensures IsLower(InternalOu(parts)) && InternalOu(parts) == ChainToOu(parts)
  {
    NormalOusAreOu(parts);
    OuRdnsTwice(parts);
    JoinedValuesLower(OuRdns(parts));
  }

  lemma JoinedValuesLower(chain: seq<Rdn>)
    requires forall i :: 0 <= i < |chain| ==> IsLower(chain[i].value)
    ensures IsLower(Join(Reverse(Values(chain)), '\\'))
  {
    var values := Reverse(Values(chain));
    forall i | 0 <= i < |values|
      ensures IsLower(values[i])
    {
      assert IsLower(chain[|values| - 1 - i].value);
    }
    JoinLower(values, '\\');
  }

  /** The container test under every base: it holds for the chains of allowed OUs, and of the other
      DNs it accepts, every one has an `ou` value the internal form cannot represent. */
  lemma ContainerExact(parts: seq<Rdn>, base: seq<Rdn>, allowed: seq<string>)
    requires IsNormalDn(parts)
    ensures IsContainerDn(parts, base, allowed) && IsSubtree(parts, base) && HasCleanOus(parts)
            <==> IsAllowedChain(parts, base, allowed)
  {
    if IsSubtree(parts, base) {
      CountTest(parts, base, 0);
      var chain := OuRdns(parts);
      NormalOusAreOu(parts);
      InternalOuIsLower(parts);
      LowerIsLower(InternalOu(parts));
      ChainRoundTrip(chain);
      if IsContainerDn(parts, base, allowed) && HasCleanOus(parts) {
        var i :| 0 <= i < |allowed| && EqFold(allowed[i], ChainToOu(chain));
        OuRoundTrip(Lower(allowed[i]));
        assert Lower(allowed[i]) == ChainToOu(chain);
      }
      if IsAllowedChain(parts, base, allowed) {
        var i :| 0 <= i < |allowed| && IsNormalOu(Lower(allowed[i])) && chain == RdnChain(Lower(allowed[i]));
        OuRoundTrip(Lower(allowed[i]));
        LowerIsLower(allowed[i]);
        assert EqFold(allowed[i], ChainToOu(chain));
      }
    }
  }

  /** A DN the container test accepts although it is not an allowed OU's chain: the backslash in
      its single `ou` value reads as a component separator. */
  lemma ContainerAcceptsSlash()
    ensures var parts := [Rdn("ou", "a\\b"), Rdn("dc", "x")];
            var base := [Rdn("dc", "x")];
            && IsNormalDn(parts)
            && IsContainerDn(parts, base, ["a\\b"]) && IsSubtree(parts, base)
            && !IsAllowedChain(parts, base, ["a\\b"])
  {
    var parts := [Rdn("ou", "a\\b"), Rdn("dc", "x")];
    var base := [Rdn("dc", "x")];
    assert OuRdns(parts) == [parts[0]] + OuRdns(parts[1..]);
    assert OuRdns(parts[1..]) == OuRdns(parts[1..][1..]) by {
      assert Lower("dc")[0] == 'd' && Lower("ou")[0] == 'o';
    }
    assert OuRdns(parts) == [parts[0]];
    assert Reverse(Values(OuRdns(parts))) == ["a\\b"];
    assert ChainToOu(OuRdns(parts)) == "a\\b";
    OuRdnsShape(parts);
    OuRdnsAll([parts[0]]);
    assert EqFold(["a\\b"][0], ChainToOu(OuRdns(parts)));
    NoOuRdns(base);
    ContainerExact(parts, base, ["a\\b"]);
    assert '\\' in "a\\b" by { assert "a\\b"[1] == '\\'; }
    assert !IsCleanComponent(Values(OuRdns(parts))[0]);
  }
}
