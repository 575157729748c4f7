/**
 Entry DNs end to end: how DNs are built from stored OUs, and what add, search
 and bind make of each other's DNs.
 */
module Directory {
  import opened Basics
  import opened Text
  import opened Dn
  import opened Ou
  import opened Classify

  // ---------- Configuration ----------

  datatype LdapInfo = LdapInfo(base: seq<Rdn>, baseStr: string)

  // LdapInfo::new
  function MakeLdapInfo(baseDn: string): Parsed<LdapInfo> {
    match ParseDn(Lower(baseDn))
    case Err(e) => Err(e)
    case Ok(base) => Ok(LdapInfo(base, PrintDn(base)))
  }

  predicate IsBase(info: LdapInfo) {
    info.base != [] && IsNormalDn(info.base) && info.baseStr == PrintDn(info.base)
  }

  /** Every accepted configuration keeps the parsed base and its string form in step. */
  lemma LdapInfoIsBase(baseDn: string)
    requires MakeLdapInfo(baseDn).Ok?
    ensures IsBase(MakeLdapInfo(baseDn).value)
    ensures ParseDn(MakeLdapInfo(baseDn).value.baseStr) == Ok(MakeLdapInfo(baseDn).value.base)
  {
    ParseDnNormal(Lower(baseDn));
    PrintedDnParsesBack(MakeLdapInfo(baseDn).value.base);
  }

  // ---------- Building entry DNs ----------

  // build_user_dn and build_group_dn, which differ in the leading attribute only.
  function BuildDn(kind: string, name: string, ou: string, baseStr: string): string {
    var ouPart := Join(PrintAll(RdnChain(ou)), ',');
    if ouPart == "" then kind + "=" + name + "," + baseStr
    else kind + "=" + name + "," + (ouPart + "," + baseStr)
  }

  function BuildUserDn(id: string, ou: string, baseStr: string): string {
    BuildDn("uid", id, ou, baseStr)
  }

  function BuildGroupDn(name: string, ou: string, baseStr: string): string {
    BuildDn("cn", name, ou, baseStr)
  }

  /** The RDNs an entry DN is made of. */
  function EntryParts(kind: string, name: string, ou: string, base: seq<Rdn>): seq<Rdn> {
    [Rdn(kind, name)] + (RdnChain(ou) + base)
  }

  /** Building a DN is printing its RDNs: no stray comma whatever the OU. */
  lemma BuildDnIsPrint(kind: string, name: string, ou: string, base: seq<Rdn>)
    requires base != []
    ensures BuildDn(kind, name, ou, PrintDn(base)) == PrintDn(EntryParts(kind, name, ou, base))
  {
    var head, chain := [Rdn(kind, name)], RdnChain(ou);
    PrintDnConcat(head, chain + base);
    assert PrintAll(head) == [PrintRdn(head[0])];
    assert PrintDn(head) == kind + "=" + name;
    if chain == [] {
      assert chain + base == base;
      assert PrintAll(chain) == [];
    } else {
      PrintDnConcat(chain, base);
      PrintedChainNotEmpty(chain);
    }
  }

  lemma PrintedChainNotEmpty(chain: seq<Rdn>)
    requires chain != []
    ensures PrintDn(chain) != ""
  {
    assert PrintAll(chain)[0] == chain[0].attr + "=" + chain[0].value;
  }

  // ---------- Case ----------

  lemma {:induction false} TrimStartLower(s: string)
    ensures TrimStart(Lower(s)) == Lower(TrimStart(s))
  {
    if s != "" {
      TrimStartLower(s[1..]);
      assert Lower(s)[1..] == Lower(s[1..]);
    }
  }

  lemma {:induction false} TrimEndLower(s: string)
    ensures TrimEnd(Lower(s)) == Lower(TrimEnd(s))
  {
    if s != "" {
      TrimEndLower(s[..|s| - 1]);
      assert Lower(s)[..|s| - 1] == Lower(s[..|s| - 1]);
    }
  }

  function LowerAll(items: seq<string>): (r: seq<string>)
    ensures |r| == |items|
    ensures forall i :: 0 <= i < |items| ==> r[i] == Lower(items[i])
  {
    seq(|items|, i requires 0 <= i < |items| => Lower(items[i]))
  }

  lemma {:induction false} SplitOfLower(s: string)
    ensures Split(Lower(s), '\\') == LowerAll(Split(s, '\\'))
  {
    if s == "" {
      assert Lower(s) == "";
      assert LowerAll([""]) == [""];
    } else {
      SplitOfLower(s[1..]);
      assert Lower(s)[1..] == Lower(s[1..]);
      var rest := Split(s[1..], '\\');
      if s[0] == '\\' {
        assert LowerAll([""] + rest) == [""] + LowerAll(rest);
      } else {
        assert Lower(s)[0] == LowerChar(s[0]) != '\\';
        assert Lower([s[0]]) == [LowerChar(s[0])];
        LowerConcat([s[0]], rest[0]);
        assert LowerAll([[s[0]] + rest[0]] + rest[1..]) == [Lower([s[0]] + rest[0])] + LowerAll(rest[1..]);
        assert LowerAll(rest)[1..] == LowerAll(rest[1..]);
      }
    }
  }

  lemma {:induction false} DropEmptyLower(items: seq<string>)
    ensures DropEmpty(LowerAll(items)) == LowerAll(DropEmpty(items))
  {
    if items != [] {
      DropEmptyLower(items[1..]);
      assert LowerAll(items)[1..] == LowerAll(items[1..]);
      assert LowerAll(items) == [Lower(items[0])] + LowerAll(items[1..]);
    }
  }

  /** Reading components and lower-casing commute. */
  lemma ComponentsLower(ou: string)
    ensures Components(Lower(ou)) == LowerAll(Components(ou))
  {
    SplitOfLower(ou);
    var pieces := Split(ou, '\\');
    forall i | 0 <= i < |pieces|
      ensures Trim(Lower(pieces[i])) == Lower(Trim(pieces[i]))
    {
      TrimStartLower(pieces[i]);
      TrimEndLower(TrimStart(pieces[i]));
    }
    assert TrimAll(LowerAll(pieces)) == LowerAll(TrimAll(pieces));
    DropEmptyLower(TrimAll(pieces));
  }

  function LowerRdn(r: Rdn): Rdn {
    Rdn(Lower(r.attr), Lower(r.value))
  }

  function LowerDn(parts: seq<Rdn>): (r: seq<Rdn>)
    ensures |r| == |parts|
    ensures forall i :: 0 <= i < |parts| ==> r[i] == LowerRdn(parts[i])
  {
    seq(|parts|, i requires 0 <= i < |parts| => LowerRdn(parts[i]))
  }

  lemma {:induction false} PrintLower(parts: seq<Rdn>)
    ensures Lower(PrintDn(parts)) == PrintDn(LowerDn(parts))
  {
    if parts != [] {
      var r := parts[0];
      LowerConcat(r.attr, "=");
      LowerConcat(r.attr + "=", r.value);
      assert Lower("=") == "=";
      assert Lower(PrintRdn(r)) == PrintRdn(LowerRdn(r));
      if |parts| > 1 {
        PrintLower(parts[1..]);
        assert PrintAll(parts)[1..] == PrintAll(parts[1..]);
        assert PrintAll(LowerDn(parts))[1..] == PrintAll(LowerDn(parts[1..]));
        LowerConcat(PrintRdn(r), ",");
        LowerConcat(PrintRdn(r) + ",", PrintDn(parts[1..]));
        assert Lower(",") == ",";
      }
    }
  }

  /** Text a DN value can hold unescaped. */
  predicate IsPlain(s: string) {
    IsTrimmed(s) && Free(s, ',') && Free(s, '=')
  }

  lemma LowerPlain(s: string)
    requires IsPlain(s)
    ensures IsNormalText(Lower(s))
  {
    LowerIsLower(s);
    var t := Lower(s);
    forall i | 0 <= i < |t|
      ensures t[i] != ',' && t[i] != '='
    {
      assert s[i] in s;
    }
  }

  lemma ComponentsPlain(ou: string, i: nat)
    requires Free(ou, ',') && Free(ou, '=') && i < |Components(ou)|
    ensures IsPlain(Components(ou)[i])
  {
    var pieces := Split(ou, '\\');
    SplitPieces(ou, '\\');
    DropEmptyShape(TrimAll(pieces));
    var c := Components(ou)[i];
    var k :| 0 <= k < |pieces| && TrimAll(pieces)[k] == c;
    TrimTrims(pieces[k]);
  }

  lemma ChainLower(ou: string)
    ensures LowerDn(RdnChain(ou)) == RdnChain(Lower(ou))
  {
    ComponentsLower(ou);
    LowerIsLower("ou");
    var cs := Components(ou);
    forall i | 0 <= i < |cs|
      ensures LowerRdn(RdnChain(ou)[i]) == RdnChain(Lower(ou))[i]
    {
      assert RdnChain(ou)[i] == Rdn("ou", cs[|cs| - 1 - i]);
      assert RdnChain(Lower(ou))[i] == Rdn("ou", Lower(cs[|cs| - 1 - i]));
    }
  }

  lemma ChainNormal(ou: string)
    requires Free(ou, ',') && Free(ou, '=')
    ensures IsNormalDn(RdnChain(Lower(ou)))
  {
    ComponentsLower(ou);
    var cs := Components(ou);
    forall i | 0 <= i < |cs|
      ensures IsNormalRdn(RdnChain(Lower(ou))[i])
    {
      ChainRdn(ou, i);
      ComponentsPlain(ou, |cs| - 1 - i);
      OuRdnNormal(cs[|cs| - 1 - i]);
    }
  }

  lemma ChainRdn(ou: string, i: nat)
    requires i < |Components(ou)|
    ensures |RdnChain(Lower(ou))| == |Components(ou)|
    ensures RdnChain(Lower(ou))[i] == Rdn("ou", Lower(Components(ou)[|Components(ou)| - 1 - i]))
  {
    ComponentsLower(ou);
  }

  lemma OuRdnNormal(value: string)
    requires IsPlain(value)
    ensures IsNormalRdn(Rdn("ou", Lower(value)))
  {
    LowerPlain(value);
  }

  lemma LowerNormalDn(parts: seq<Rdn>)
    requires IsNormalDn(parts)
    ensures LowerDn(parts) == parts
  {
    forall i | 0 <= i < |parts|
      ensures LowerRdn(parts[i]) == parts[i]
    {
      assert IsNormalRdn(parts[i]);
      LowerIsLower(parts[i].attr);
      LowerIsLower(parts[i].value);
    }
  }

  lemma LowerDnConcat(head: Rdn, chain: seq<Rdn>, base: seq<Rdn>)
    ensures LowerDn([head] + (chain + base)) == [LowerRdn(head)] + (LowerDn(chain) + LowerDn(base))
  {
  }

  lemma EntryPartsLower(kind: string, name: string, ou: string, base: seq<Rdn>)
    requires IsNormalText(kind) && IsPlain(name) && Free(ou, ',') && Free(ou, '=') && IsNormalDn(base)
    ensures LowerDn(EntryParts(kind, name, ou, base)) == EntryParts(kind, Lower(name), Lower(ou), base)
    ensures IsNormalDn(EntryParts(kind, Lower(name), Lower(ou), base))
  {
    LowerDnConcat(Rdn(kind, name), RdnChain(ou), base);
    ChainLower(ou);
    ChainNormal(ou);
    LowerNormalDn(base);
    LowerPlain(name);
    LowerIsLower(kind);
  }

  /** What a built entry DN parses to. */
  lemma EntryDnParses(kind: string, name: string, ou: string, info: LdapInfo)
    requires IsBase(info) && kind in {"uid", "cn"}
    requires IsPlain(name) && Free(ou, ',') && Free(ou, '=')
    ensures ParseDn(BuildDn(kind, name, ou, info.baseStr))
            == Ok(EntryParts(kind, Lower(name), Lower(ou), info.base))
  {
    var parts := EntryParts(kind, name, ou, info.base);
    BuildDnIsPrint(kind, name, ou, info.base);
    EntryPartsLower(kind, name, ou, info.base);
    PrintLower(parts);
    PrintedDnParsesBack(LowerDn(parts));
    LowerIsLower(PrintDn(parts));
    LowerIsLower(Lower(PrintDn(parts)));
  }

  // ---------- Classifying built DNs ----------

  lemma KindIsNotOu(kind: string, name: string)
    requires kind in {"uid", "cn"}
    ensures !IsOu(Rdn(kind, name)) && Lower(kind) == kind
  {
    if kind == "uid" {
      assert Lower("uid") == "uid" && |Lower("ou")| == 2;
    } else {
      assert Lower("cn")[0] == 'c' && Lower("ou")[0] == 'o';
      assert Lower("cn") == "cn";
    }
  }

  lemma HeadedOus(head: Rdn, chain: seq<Rdn>, base: seq<Rdn>)
    requires !IsOu(head) && OuRdns(chain) == chain
    ensures OuRdns([head] + (chain + base)) == chain + OuRdns(base)
    ensures IsSubtree([head] + (chain + base), base)
  {
    assert ([head] + (chain + base))[1..] == chain + base;
    OuRdnsConcat(chain, base);
  }

  lemma EntryPartsOus(kind: string, name: string, ou: string, base: seq<Rdn>)
    requires kind in {"uid", "cn"}
    ensures OuRdns(EntryParts(kind, name, ou, base)) == RdnChain(ou) + OuRdns(base)
    ensures IsSubtree(EntryParts(kind, name, ou, base), base)
  {
    KindIsNotOu(kind, name);
    ChainOfOus(Reverse(Components(ou)));
    HeadedOus(Rdn(kind, name), RdnChain(ou), base);
  }

  lemma PrimaryOuOf(ou: string)
    requires IsLower(ou)
    ensures PrimaryOu(RdnChain(ou)) == if Components(ou) == [] then "" else Components(ou)[0]
    ensures Components(ou) != [] ==> Components(ou)[0] != ""
  {
    ComponentsLower(ou);
    LowerIsLower(ou);
    ComponentsClean(ou);
    var cs := Components(ou);
    if cs != [] {
      assert IsCleanComponent(cs[0]);
      assert cs[0] == LowerAll(cs)[0] == Lower(cs[0]);
      assert RdnChain(ou)[|cs| - 1] == Rdn("ou", cs[0]);
    }
  }

  /** The classifier on the RDNs of an entry DN. */
  lemma ClassifyEntryParts(kind: string, name: string, ou: string, base: seq<Rdn>)
    requires kind in {"uid", "cn"} && IsLower(name) && IsLower(ou)
    ensures var entry := ClassifyParts(EntryParts(kind, name, ou, base), base);
            if !HasNoOu(base) then entry == UnexpectedFormat
            else if kind == "uid" || Components(ou) == [] || Components(ou)[0] == "people"
            then entry == User(name)
            else entry == Group(name)
  {
    var parts := EntryParts(kind, name, ou, base);
    EntryPartsOus(kind, name, ou, base);
    KindIsNotOu(kind, name);
    NoOuRdns(base);
    LowerIsLower(name);
    assert parts[0] == Rdn(kind, name);
    assert |parts| == 1 + |RdnChain(ou)| + |base|;
    if HasNoOu(base) {
      assert OuRdns(parts) == RdnChain(ou);
      PrimaryOuOf(ou);
    }
  }

  /** A user's entry DN names that user exactly when the base has no `ou` RDN. */
  lemma UserDnClassifies(id: string, ou: string, info: LdapInfo)
    requires IsBase(info) && IsPlain(id) && Free(ou, ',') && Free(ou, '=')
    ensures ClassifyDn(BuildUserDn(id, ou, info.baseStr), info.base) == User(Lower(id)) <==> HasNoOu(info.base)
  {
    EntryDnParses("uid", id, ou, info);
    LowerIsLower(id);
    LowerIsLower(ou);
    ClassifyEntryParts("uid", Lower(id), Lower(ou), info.base);
  }

  /** A group's entry DN names nothing under a base with an `ou` RDN; under any other it names that
      group exactly when its OU has a first component other than `people`, and else a user. */
  lemma GroupDnClassifies(name: string, ou: string, info: LdapInfo)
    requires IsBase(info) && IsPlain(name) && Free(ou, ',') && Free(ou, '=')
    ensures var entry := ClassifyDn(BuildGroupDn(name, ou, info.baseStr), info.base);
            if !HasNoOu(info.base) then entry == UnexpectedFormat
            else if Components(ou) != [] && !EqFold(Components(ou)[0], "people")
            then entry == Group(Lower(name)) else entry == User(Lower(name))
  {
    EntryDnParses("cn", name, ou, info);
    LowerIsLower(name);
    LowerIsLower(ou);
    ClassifyEntryParts("cn", Lower(name), Lower(ou), info.base);
    FirstComponentLower(ou);
  }

  lemma FirstComponentLower(ou: string)
    ensures Components(Lower(ou)) == [] <==> Components(ou) == []
    ensures Components(ou) != [] ==>
              (Components(Lower(ou))[0] == "people" <==> EqFold(Components(ou)[0], "people"))
  {
    ComponentsLower(ou);
    LowerIsLower("people");
  }

  // ---------- Injectivity ----------

  lemma CommaFreeComponent(ou: string, c: string)
    requires Free(ou, ',') && c in Components(ou)
    ensures Free(c, ',')
  {
    var pieces := Split(ou, '\\');
    SplitPieces(ou, '\\');
    DropEmptyShape(TrimAll(pieces));
    var k :| 0 <= k < |pieces| && TrimAll(pieces)[k] == c;
    TrimTrims(pieces[k]);
  }

  lemma CommaFreePieces(kind: string, name: string, ou: string, i: nat)
    requires kind in {"uid", "cn"} && Free(name, ',') && Free(ou, ',')
    requires i <= |RdnChain(ou)|
    ensures Free(PrintRdn(([Rdn(kind, name)] + RdnChain(ou))[i]), ',')
  {
    if i > 0 {
      var c := Components(ou)[|Components(ou)| - i];
      CommaFreeComponent(ou, c);
      assert ([Rdn(kind, name)] + RdnChain(ou))[i] == Rdn("ou", c);
    }
  }

  lemma EntryDnPieces(kind: string, name: string, ou: string, info: LdapInfo)
    requires IsBase(info) && kind in {"uid", "cn"} && Free(name, ',') && Free(ou, ',')
    ensures Split(BuildDn(kind, name, ou, info.baseStr), ',') == PrintAll(EntryParts(kind, name, ou, info.base))
  {
    var parts := EntryParts(kind, name, ou, info.base);
    BuildDnIsPrint(kind, name, ou, info.base);
    var m := 1 + |RdnChain(ou)|;
    forall i | 0 <= i < |parts|
      ensures Free(PrintAll(parts)[i], ',')
    {
      if i < m {
        CommaFreePieces(kind, name, ou, i);
        assert parts[i] == ([Rdn(kind, name)] + RdnChain(ou))[i];
      } else {
        assert parts[i] == info.base[i - m];
        ParsePrintedRdn(info.base[i - m]);
      }
    }
    SplitJoin(PrintAll(parts), ',');
  }

  lemma PrefixStripped(p: string, a: string, b: string)
    requires p + a == p + b
    ensures a == b
  {
    assert (p + a)[|p|..] == a;
    assert (p + b)[|p|..] == b;
  }

  /** Two entries of a kind share their DN exactly when they share name and OU components. */
  lemma EntryDnInjective(kind: string, n1: string, ou1: string, n2: string, ou2: string, info: LdapInfo)
    requires IsBase(info) && kind in {"uid", "cn"}
    requires Free(n1, ',') && Free(n2, ',') && Free(ou1, ',') && Free(ou2, ',')
    ensures BuildDn(kind, n1, ou1, info.baseStr) == BuildDn(kind, n2, ou2, info.baseStr)
            <==> n1 == n2 && Components(ou1) == Components(ou2)
  {
    if BuildDn(kind, n1, ou1, info.baseStr) == BuildDn(kind, n2, ou2, info.baseStr) {
      EntryDnPieces(kind, n1, ou1, info);
      EntryDnPieces(kind, n2, ou2, info);
      SamePieces(Rdn(kind, n1), RdnChain(ou1), Rdn(kind, n2), RdnChain(ou2), info.base);
      SameChains(ou1, ou2);
    }
  }

  lemma SamePieces(h1: Rdn, c1: seq<Rdn>, h2: Rdn, c2: seq<Rdn>, base: seq<Rdn>)
    requires PrintAll([h1] + (c1 + base)) == PrintAll([h2] + (c2 + base))
    requires h1.attr == h2.attr
    ensures h1 == h2 && PrintAll(c1) == PrintAll(c2)
  {
    var p1, p2 := [h1] + (c1 + base), [h2] + (c2 + base);
    assert PrintRdn(p1[0]) == PrintAll(p1)[0] == PrintAll(p2)[0] == PrintRdn(p2[0]);
    PrefixStripped(h1.attr + "=", h1.value, h2.value);
    assert |p1| == |p2|;
    forall i | 0 <= i < |c1|
      ensures PrintRdn(c1[i]) == PrintRdn(c2[i])
    {
      assert p1[i + 1] == c1[i] && p2[i + 1] == c2[i];
      assert PrintAll(p1)[i + 1] == PrintAll(p2)[i + 1];
    }
  }

  lemma SameChains(ou1: string, ou2: string)
    requires PrintAll(RdnChain(ou1)) == PrintAll(RdnChain(ou2))
    ensures Components(ou1) == Components(ou2)
  {
    var c1, c2 := Components(ou1), Components(ou2);
    assert |RdnChain(ou1)| == |c1| && |RdnChain(ou2)| == |c2|;
    forall i | 0 <= i < |c1|
      ensures c1[i] == c2[i]
    {
      var k := |c1| - 1 - i;
      assert RdnChain(ou1)[k] == Rdn("ou", c1[i]) && RdnChain(ou2)[k] == Rdn("ou", c2[i]);
      assert PrintAll(RdnChain(ou1))[k] == PrintAll(RdnChain(ou2))[k];
      PrefixStripped("ou" + "=", c1[i], c2[i]);
    }
  }

  // ---------- Stored attributes ----------

  datatype AttributeValue =
    | SingleText(text: string)
    | TextList(texts: seq<string>)
    | NotText

  datatype Attribute = Attribute(name: string, value: AttributeValue)

  function FindOu(attributes: seq<Attribute>): Option<AttributeValue> {
    if attributes == [] then None
    else if EqFold(attributes[0].name, "ou") then Some(attributes[0].value)
    else FindOu(attributes[1..])
  }

  // get_ou_from_attributes
  function OuFromAttributes(attributes: seq<Attribute>, fallback: string): string {
    match FindOu(attributes)
    case Some(SingleText(s)) => s
    case Some(TextList(list)) => if list != [] then list[0] else fallback
    case _ => fallback
  }

  function UserOu(attributes: seq<Attribute>): string {
    OuFromAttributes(attributes, DEFAULT_USER_OU)
  }

  function GroupOu(attributes: seq<Attribute>): string {
    OuFromAttributes(attributes, DEFAULT_GROUP_OU)
  }

  // The OU the memberOf branch of get_user_attribute reads.
  function MemberOfOu(attributes: seq<Attribute>): string {
    match FindOu(attributes)
    case Some(SingleText(s)) => s
    case _ => DEFAULT_GROUP_OU
  }

  /** The first `ou` attribute of the list, its name in any case. */
  ghost predicate IsFirstOu(attributes: seq<Attribute>, i: int) {
    && 0 <= i < |attributes| && Lower(attributes[i].name) == "ou"
    && forall j :: 0 <= j < i ==> Lower(attributes[j].name) != "ou"
  }

  lemma {:induction false} FindOuExact(attributes: seq<Attribute>)
    ensures FindOu(attributes) == None <==> forall j :: 0 <= j < |attributes| ==> Lower(attributes[j].name) != "ou"
    ensures forall i :: IsFirstOu(attributes, i) ==> FindOu(attributes) == Some(attributes[i].value)
    ensures FindOu(attributes).Some? ==>
              exists i :: IsFirstOu(attributes, i) && attributes[i].value == FindOu(attributes).value
  {
    LowerIsLower("ou");
    if attributes != [] {
      var rest := attributes[1..];
      FindOuExact(rest);
      assert forall j :: 0 <= j < |rest| ==> rest[j] == attributes[j + 1];
      assert forall j :: 1 <= j < |attributes| ==> attributes[j] == rest[j - 1];
      if Lower(attributes[0].name) == "ou" {
        assert IsFirstOu(attributes, 0);
      } else {
        forall i | IsFirstOu(attributes, i)
          ensures FindOu(attributes) == Some(attributes[i].value)
        {
          assert IsFirstOu(rest, i - 1);
        }
        if FindOu(rest).Some? {
          var i :| IsFirstOu(rest, i) && rest[i].value == FindOu(rest).value;
          assert IsFirstOu(attributes, i + 1);
        }
      }
    }
  }

  /** The OUs of an entry whose first `ou` attribute is at position i. */
  lemma OuAt(attributes: seq<Attribute>, i: int)
    requires IsFirstOu(attributes, i)
    ensures var value := attributes[i].value;
            && (value.SingleText? ==>
                  UserOu(attributes) == value.text && GroupOu(attributes) == value.text && MemberOfOu(attributes) == value.text)
            && (value.TextList? && value.texts != [] ==>
                  && UserOu(attributes) == value.texts[0] && GroupOu(attributes) == value.texts[0]
                  && MemberOfOu(attributes) == "groups")
            && ((value.TextList? && value.texts == []) || value.NotText? ==>
                  UserOu(attributes) == "people" && GroupOu(attributes) == "groups" && MemberOfOu(attributes) == "groups")
  {
    FindOuExact(attributes);
  }

  /** And of one without. */
  lemma OuDefaults(attributes: seq<Attribute>)
    requires forall j :: 0 <= j < |attributes| ==> Lower(attributes[j].name) != "ou"
    ensures UserOu(attributes) == "people" && GroupOu(attributes) == "groups" && MemberOfOu(attributes) == "groups"
  {
    FindOuExact(attributes);
  }

  /** The memberOf value for a group is that group's own entry DN exactly when its first `ou` is not a
      list headed by some OU other than `groups`. */
  lemma MemberOfAgrees(name: string, attributes: seq<Attribute>, info: LdapInfo)
    requires IsBase(info) && Free(name, ',')
    requires Free(GroupOu(attributes), ',')
    ensures BuildGroupDn(name, MemberOfOu(attributes), info.baseStr)
            == BuildGroupDn(name, GroupOu(attributes), info.baseStr)
            <==>
            forall i :: IsFirstOu(attributes, i) && attributes[i].value.TextList? && attributes[i].value.texts != [] ==>
                          Components(attributes[i].value.texts[0]) == ["groups"]
  {
    FindOuExact(attributes);
    MemberOfAgreesByFind(name, attributes, info);
  }

  lemma MemberOfAgreesByFind(name: string, attributes: seq<Attribute>, info: LdapInfo)
    requires IsBase(info) && Free(name, ',')
    requires Free(GroupOu(attributes), ',')
    ensures BuildGroupDn(name, MemberOfOu(attributes), info.baseStr)
            == BuildGroupDn(name, GroupOu(attributes), info.baseStr)
            <==>
            !(var ou := FindOu(attributes);
              ou.Some? && ou.value.TextList? && ou.value.texts != []
              && Components(ou.value.texts[0]) != ["groups"])
  {
    var own, shown := GroupOu(attributes), MemberOfOu(attributes);
    assert Components("groups") == ["groups"] by {
      assert IsTrimmed("groups");
      assert AllClean(["groups"]);
      ComponentsOfJoin(["groups"]);
    }
    if own != shown {
      assert Free("groups", ',');
      EntryDnInjective("cn", name, shown, name, own, info);
    }
  }

  // ---------- Add, search, bind ----------

  /** What an Add stores for a user or group: the OU its DN spells out. */
  function StoredOu(dn: string): string
    requires ParseDn(dn).Ok?
  {
    InternalOu(ParseDn(dn).value)
  }

  // The OU a Bind presents (handler.rs lower-cases before parsing).
  function ProvidedOu(dn: string): string {
    match ParseDn(Lower(dn))
    case Ok(parts) => InternalOu(parts)
    case Err(_) => ""
  }

  // The strict OU check of do_bind.
  predicate OuVerified(dn: string, stored: string) {
    EqFold(ProvidedOu(dn), stored)
  }

  lemma StoredOuPlain(parts: seq<Rdn>)
    requires IsNormalDn(parts)
    ensures Free(InternalOu(parts), ',') && Free(InternalOu(parts), '=')
  {
    InternalOuIsLower(parts);
    OuRdnsShape(parts);
    var values := Reverse(Values(OuRdns(parts)));
    forall c | c in InternalOu(parts)
      ensures c != ',' && c != '='
    {
      JoinChars(values, '\\', c);
      if c != '\\' {
        var i :| 0 <= i < |values| && c in values[i];
        var r := OuRdns(parts)[|values| - 1 - i];
        assert r in parts;
        var k :| 0 <= k < |parts| && parts[k] == r;
        assert IsNormalRdn(parts[k]);
      }
    }
  }

  lemma BaseIsSuffix(parts: seq<Rdn>, base: seq<Rdn>)
    requires IsNormalDn(parts) && IsNormalDn(base) && IsSubtree(parts, base)
    ensures parts[|parts| - |base|..] == base
  {
    var k := |parts| - |base|;
    forall i | 0 <= i < |base|
      ensures parts[k..][i] == base[i]
    {
      assert EqRdn(parts[k + i], base[i]);
      NormalRdnIsOu(parts[k + i]);
      NormalRdnIsOu(base[i]);
    }
  }

  /** The RDNs the classifier accepts as a user or a group. */
  ghost predicate IsEntry(parts: seq<Rdn>, base: seq<Rdn>) {
    && parts != [] && IsNormalDn(parts) && parts[0].attr in {"uid", "cn"} && IsSubtree(parts, base)
    && |parts| == |base| + |OuRdns(parts)| + 1
  }

  lemma ClassifiedIsEntry(dn: string, base: seq<Rdn>)
    requires ClassifyDn(dn, base).User? || ClassifyDn(dn, base).Group?
    ensures ParseDn(dn).Ok? && IsEntry(ParseDn(dn).value, base)
    ensures ClassifyDn(dn, base).User? ==> ClassifyDn(dn, base).id == ParseDn(dn).value[0].value
    ensures ClassifyDn(dn, base).Group? ==> ParseDn(dn).value[0] == Rdn("cn", ClassifyDn(dn, base).name)
  {
    var parts := ParseDn(dn).value;
    ParseDnNormal(dn);
    ClassifyExact(dn, base, parts);
    assert IsSubtree(parts, base);
    CountTest(parts, base, 1);
  }

  lemma EntryHeadIsNoOu(parts: seq<Rdn>, base: seq<Rdn>)
    requires IsEntry(parts, base)
    ensures IsNormalText(parts[0].value) && !IsOu(parts[0]) && OuRdns(parts[1..]) == OuRdns(parts)
  {
    assert IsNormalRdn(parts[0]);
    KindIsNotOu(parts[0].attr, parts[0].value);
  }

  /** What an Add stores is in lower case and can be put into a DN. */
  lemma StoredOuShape(parts: seq<Rdn>)
    requires IsNormalDn(parts)
    ensures var stored := InternalOu(parts);
            && IsLower(stored) && Free(stored, ',') && Free(stored, '=') && stored == ChainToOu(OuRdns(parts))
            && forall i :: 0 <= i < |OuRdns(parts)| ==> OuRdns(parts)[i].attr == "ou"
  {
    NormalOusAreOu(parts);
    InternalOuIsLower(parts);
    StoredOuPlain(parts);
  }

  lemma PlainEntry(parts: seq<Rdn>, base: seq<Rdn>)
    requires IsEntry(parts, base) && IsNormalDn(base) && HasNoOu(base)
    ensures parts[1..] == OuRdns(parts) + base
  {
    var k := |parts| - |base|;
    EntryHeadIsNoOu(parts, base);
    LeafByCounting(parts, base);
    BaseIsSuffix(parts, base);
    TailAroundBase(parts, k, base);
  }

  lemma ShownDnParses(kind: string, name: string, stored: string, info: LdapInfo)
    requires IsBase(info) && IsNormalText(name) && kind in {"uid", "cn"}
    requires IsLower(stored) && Free(stored, ',') && Free(stored, '=')
    ensures ParseDn(BuildDn(kind, name, stored, info.baseStr)) == Ok([Rdn(kind, name)] + (RdnChain(stored) + info.base))
  {
    EntryDnParses(kind, name, stored, info);
    LowerIsLower(name);
    LowerIsLower(stored);
  }

  lemma SameTailSameOus(head: Rdn, parts: seq<Rdn>)
    requires parts != [] && !IsOu(head) && !IsOu(parts[0])
    ensures |[head] + parts[1..]| == |parts| && OuRdns([head] + parts[1..]) == OuRdns(parts)
  {
    assert ([head] + parts[1..])[1..] == parts[1..];
  }

  /** Under a base with an `ou` RDN the shown DN has too few RDNs, whatever was added. */
  lemma ShownDiffers(parts: seq<Rdn>, kind: string, name: string, stored: string, base: seq<Rdn>)
    requires IsEntry(parts, base) && !HasNoOu(base) && kind in {"uid", "cn"}
    ensures EntryParts(kind, name, stored, base) != [Rdn(kind, name)] + parts[1..]
  {
    EntryCounts(kind, name, stored, base);
    EntryHeadIsNoOu(parts, base);
    KindIsNotOu(kind, name);
    NoOuRdns(base);
    SameTailSameOus(Rdn(kind, name), parts);
    CountsDiffer(EntryParts(kind, name, stored, base), [Rdn(kind, name)] + parts[1..]);
  }

  lemma EntryCounts(kind: string, name: string, ou: string, base: seq<Rdn>)
    requires kind in {"uid", "cn"}
    ensures |EntryParts(kind, name, ou, base)| == 1 + |RdnChain(ou)| + |base|
    ensures |OuRdns(EntryParts(kind, name, ou, base))| == |RdnChain(ou)| + |OuRdns(base)|
  {
    EntryPartsOus(kind, name, ou, base);
  }

  lemma CountsDiffer(a: seq<Rdn>, b: seq<Rdn>)
    requires |a| - |OuRdns(a)| != |b| - |OuRdns(b)|
    ensures a != b
  {
  }

  /** The DN shown for an entry is the one it was added with, the leading attribute made `kind`,
      exactly when the base has no `ou` RDN and the DN's `ou` values are clean. */
  lemma EntryShownIff(parts: seq<Rdn>, kind: string, info: LdapInfo)
    requires IsBase(info) && IsEntry(parts, info.base) && kind in {"uid", "cn"}
    ensures ParseDn(BuildDn(kind, parts[0].value, InternalOu(parts), info.baseStr))
            == Ok([Rdn(kind, parts[0].value)] + parts[1..])
            <==> HasNoOu(info.base) && HasCleanOus(parts)
  {
    var name, stored := parts[0].value, InternalOu(parts);
    EntryHeadIsNoOu(parts, info.base);
    StoredOuShape(parts);
    ShownDnParses(kind, name, stored, info);
    if HasNoOu(info.base) {
      PlainEntry(parts, info.base);
      CancelAround(Rdn(kind, name), RdnChain(stored), OuRdns(parts), info.base);
      ChainRoundTrip(OuRdns(parts));
    } else {
      ShownDiffers(parts, kind, name, stored, info.base);
    }
  }

  /** Search shows a user under the DN it was added with (the leading attribute made `uid`) exactly
      when the base has no `ou` RDN and the DN's `ou` values are non-empty and free of backslashes. */
  lemma AddAndSearchAgree(dn: string, info: LdapInfo, id: string)
    requires IsBase(info) && ClassifyDn(dn, info.base) == User(id)
    requires ParseDn(dn).Ok?
    ensures ParseDn(BuildUserDn(id, StoredOu(dn), info.baseStr))
            == Ok([Rdn("uid", id)] + ParseDn(dn).value[1..])
            <==> HasNoOu(info.base) && HasCleanOus(ParseDn(dn).value)
  {
    ClassifiedIsEntry(dn, info.base);
    EntryShownIff(ParseDn(dn).value, "uid", info);
  }

  /** And a group under exactly the DN it was added with, by the same condition. */
  lemma GroupAddAndSearchAgree(dn: string, info: LdapInfo, name: string)
    requires IsBase(info) && ClassifyDn(dn, info.base) == Group(name)
    requires ParseDn(dn).Ok?
    ensures ParseDn(BuildGroupDn(name, StoredOu(dn), info.baseStr)) == ParseDn(dn)
            <==> HasNoOu(info.base) && HasCleanOus(ParseDn(dn).value)
  {
    ClassifiedIsEntry(dn, info.base);
    var parts := ParseDn(dn).value;
    EntryShownIff(parts, "cn", info);
    assert [Rdn("cn", name)] + parts[1..] == parts;
  }

  lemma TailAroundBase(parts: seq<Rdn>, k: nat, base: seq<Rdn>)
    requires 1 <= k <= |parts| && parts[k..] == base
    ensures parts[1..] == parts[1..k] + base
  {
  }

  lemma CancelAround(head: Rdn, a: seq<Rdn>, b: seq<Rdn>, tail: seq<Rdn>)
    ensures [head] + (a + tail) == [head] + (b + tail) <==> a == b
  {
    if [head] + (a + tail) == [head] + (b + tail) {
      assert ([head] + (a + tail))[1..] == a + tail;
      assert ([head] + (b + tail))[1..] == b + tail;
      assert |a| == |b|;
      assert (a + tail)[..|a|] == a;
      assert (b + tail)[..|b|] == b;
    }
  }

  /** The OU check of a DN that search shows, under a base without `ou` RDNs. */
  lemma ShownOuVerifies(id: string, stored: string, info: LdapInfo)
    requires IsBase(info) && HasNoOu(info.base) && IsNormalText(id)
    requires IsLower(stored) && Free(stored, ',') && Free(stored, '=')
    ensures OuVerified(BuildUserDn(id, stored, info.baseStr), stored) <==> IsNormalOu(stored)
  {
    var shown := BuildUserDn(id, stored, info.baseStr);
    ShownDnParses("uid", id, stored, info);
    ParseReachesNormalForm(shown);
    EntryPartsOus("uid", id, stored, info.base);
    NoOuRdns(info.base);
    ChainOfOus(Reverse(Components(stored)));
    assert ProvidedOu(shown) == ChainToOu(RdnChain(stored)) by {
      assert RdnChain(stored) + [] == RdnChain(stored);
    }
    OuRoundTrip(stored);
    InternalOuIsLower(ParseDn(shown).value);
    LowerIsLower(NormalOu(stored));
    LowerIsLower(stored);
  }

  lemma ShownDnNames(id: string, stored: string, info: LdapInfo)
    requires IsBase(info) && IsNormalText(id)
    requires IsLower(stored) && Free(stored, ',') && Free(stored, '=')
    ensures ClassifyDn(Lower(BuildUserDn(id, stored, info.baseStr)), info.base)
            == if HasNoOu(info.base) then User(id) else UnexpectedFormat
  {
    var shown := BuildUserDn(id, stored, info.baseStr);
    ShownDnParses("uid", id, stored, info);
    ParseReachesNormalForm(shown);
    ClassifyEntryParts("uid", id, stored, info.base);
  }

  /** The DN that search shows names the same user exactly when the base has no `ou` RDN, and else
      nobody; it then passes the OU check exactly when the stored OU is in normal form. */
  lemma SearchAndBindAgree(dn: string, info: LdapInfo, id: string)
    requires IsBase(info) && ClassifyDn(dn, info.base) == User(id)
    requires ParseDn(dn).Ok?
    ensures var shown := BuildUserDn(id, StoredOu(dn), info.baseStr);
            && ClassifyDn(Lower(shown), info.base) == (if HasNoOu(info.base) then User(id) else UnexpectedFormat)
            && (HasNoOu(info.base) ==> (OuVerified(shown, StoredOu(dn)) <==> IsNormalOu(StoredOu(dn))))
  {
    ClassifiedIsEntry(dn, info.base);
    EntryHeadIsNoOu(ParseDn(dn).value, info.base);
    StoredOuShape(ParseDn(dn).value);
    ShownDnNames(id, StoredOu(dn), info);
    if HasNoOu(info.base) {
      ShownOuVerifies(id, StoredOu(dn), info);
    }
  }

  lemma OwnDnVerifies(dn: string)
    requires ParseDn(dn).Ok?
    ensures OuVerified(dn, StoredOu(dn))
  {
    ParseReachesNormalForm(dn);
  }

  lemma CleanIsNormal(parts: seq<Rdn>)
    requires HasCleanOus(parts)
    ensures IsNormalOu(InternalOu(parts))
  {
    OuRdnsTwice(parts);
    var values := Values(OuRdns(parts));
    assert AllClean(Reverse(values));
    NormalJoin(Reverse(values));
  }

  /** A user is added, shown and bound under one name exactly when the base has no `ou` RDN and the
      DN's `ou` values are clean; the Add DN itself always passes the OU check. */
  lemma CleanAddsBind(dn: string, info: LdapInfo, id: string)
    requires IsBase(info) && ClassifyDn(dn, info.base) == User(id)
    requires ParseDn(dn).Ok?
    ensures var shown := BuildUserDn(id, StoredOu(dn), info.baseStr);
            && ParseDn(shown) == Ok([Rdn("uid", id)] + ParseDn(dn).value[1..])
            && ClassifyDn(Lower(shown), info.base) == User(id)
            && OuVerified(shown, StoredOu(dn))
            <==> HasNoOu(info.base) && HasCleanOus(ParseDn(dn).value)
    ensures OuVerified(dn, StoredOu(dn))
  {
    AddAndSearchAgree(dn, info, id);
    SearchAndBindAgree(dn, info, id);
    OwnDnVerifies(dn);
    if HasCleanOus(ParseDn(dn).value) {
      CleanIsNormal(ParseDn(dn).value);
    }
  }

  // ---------- Inputs on which they disagree ----------

  /** The Add DN of a user under any chain of `ou` RDNs. */
  function AddDn(id: string, ous: seq<Rdn>, base: seq<Rdn>): string {
    PrintDn([Rdn("uid", id)] + ous + base)
  }

  lemma AddDnAdds(id: string, ous: seq<Rdn>, info: LdapInfo)
    requires IsBase(info) && HasNoOu(info.base) && IsNormalText(id) && IsNormalDn(ous)
    requires forall i :: 0 <= i < |ous| ==> ous[i].attr == "ou"
    ensures var dn := AddDn(id, ous, info.base);
            && ParseDn(dn) == Ok([Rdn("uid", id)] + ous + info.base)
            && ClassifyDn(dn, info.base) == User(id)
            && OuRdns(ParseDn(dn).value) == ous
            && StoredOu(dn) == Join(Reverse(Values(ous)), '\\')
  {
    var above := [Rdn("uid", id)] + ous;
    var parts := above + info.base;
    UidIsNormal(id);
    OnTopOfBase([Rdn("uid", id)], ous);
    OnTopOfBase(above, info.base);
    PrintedDnParsesBack(parts);
    forall i | 0 <= i < |ous|
      ensures IsOu(ous[i])
    {
      LowerIsLower("ou");
    }
    OnlyOus(ous);
    OusAndOthers(ous);
    assert above[1..] == ous;
    OuRdnsAboveBase(parts, info.base);
    NoOuRdns(info.base);
    UidByCounting(parts, info.base);
    OuRdnsTwice(parts);
  }

  const EXAMPLE := LdapInfo([Rdn("dc", "x")], PrintDn([Rdn("dc", "x")]))

  lemma ExampleIsPlain()
    ensures IsBase(EXAMPLE) && HasNoOu(EXAMPLE.base)
  {
    NormalRdnIsOu(Rdn("dc", "x"));
  }

  /** A user added under `ou=a\b` is shown under another DN. */
  lemma SlashIsShownElsewhere()
    ensures var dn := AddDn("bob", [Rdn("ou", "a\\b")], EXAMPLE.base);
            && ClassifyDn(dn, EXAMPLE.base) == User("bob") && ParseDn(dn).Ok?
            && ParseDn(BuildUserDn("bob", StoredOu(dn), EXAMPLE.baseStr)) != Ok([Rdn("uid", "bob")] + ParseDn(dn).value[1..])
  {
    ExampleIsPlain();
    var ous := [Rdn("ou", "a\\b")];
    AddDnAdds("bob", ous, EXAMPLE);
    assert "a\\b"[1] == '\\' && !Free("a\\b", '\\');
    assert !IsCleanComponent(Values(ous)[0]);
    AddAndSearchAgree(AddDn("bob", ous, EXAMPLE.base), EXAMPLE, "bob");
  }

  lemma TrailingSlash()
    ensures Join(["a", ""], '\\') == "a\\" && !IsNormalOu("a\\")
  {
    assert ["a", ""][1..] == [""];
    assert "a" + "\\" + "" == "a\\";
    SplitAt("a", "", '\\');
    SplitFree("a", '\\');
    assert Split("a\\", '\\') == ["a", ""];
    assert !IsCleanComponent(["a", ""][1]);
  }

  /** The stored OU of a user added with a blank component is not normal. */
  lemma BlankComponentStored()
    ensures var dn := AddDn("bob", [Rdn("ou", ""), Rdn("ou", "a")], EXAMPLE.base);
            && ClassifyDn(dn, EXAMPLE.base) == User("bob") && ParseDn(dn).Ok?
            && StoredOu(dn) == "a\\" && !IsNormalOu(StoredOu(dn))
  {
    ExampleIsPlain();
    var ous := [Rdn("ou", ""), Rdn("ou", "a")];
    AddDnAdds("bob", ous, EXAMPLE);
    assert Reverse(Values(ous)) == ["a", ""];
    TrailingSlash();
  }

  /** So the DN it is shown under fails the OU check. */
  lemma BlankComponentFailsCheck()
    ensures var dn := AddDn("bob", [Rdn("ou", ""), Rdn("ou", "a")], EXAMPLE.base);
            && ClassifyDn(dn, EXAMPLE.base) == User("bob") && ParseDn(dn).Ok?
            && !OuVerified(BuildUserDn("bob", StoredOu(dn), EXAMPLE.baseStr), StoredOu(dn))
  {
    ExampleIsPlain();
    BlankComponentStored();
    SearchAndBindAgree(AddDn("bob", [Rdn("ou", ""), Rdn("ou", "a")], EXAMPLE.base), EXAMPLE, "bob");
  }

  /** A group whose `ou` is a list: its members' memberOf names no such entry. */
  lemma ListValuedOuDiffers()
    ensures var attributes := [Attribute("ou", TextList(["staff"]))];
            BuildGroupDn("g", MemberOfOu(attributes), EXAMPLE.baseStr)
            != BuildGroupDn("g", GroupOu(attributes), EXAMPLE.baseStr)
  {
    ExampleIsPlain();
    var attributes := [Attribute("ou", TextList(["staff"]))];
    LowerIsLower("ou");
    assert IsFirstOu(attributes, 0);
    assert IsTrimmed("staff") && AllClean(["staff"]);
    ComponentsOfJoin(["staff"]);
    assert "staff"[0] != "groups"[0];
    MemberOfAgrees("g", attributes, EXAMPLE);
  }

  /** Under a base with `ou` RDNs, a user added past the junk that the classifier accepts there is
      shown under a DN that names nobody. */
  lemma JunkIsShownElsewhere(id: string, junk: seq<Rdn>, info: LdapInfo)
    requires IsBase(info) && !HasNoOu(info.base) && IsNormalText(id)
    requires IsNormalDn(junk) && HasNoOu(junk) && |junk| == |OuRdns(info.base)|
    ensures var dn := PrintDn([Rdn("uid", id)] + junk + info.base);
            && ClassifyDn(dn, info.base) == User(id) && ParseDn(dn).Ok?
            && var shown := BuildUserDn(id, StoredOu(dn), info.baseStr);
               && ParseDn(shown) != Ok([Rdn("uid", id)] + ParseDn(dn).value[1..])
               && ClassifyDn(Lower(shown), info.base) == UnexpectedFormat
  {
    var dn := PrintDn([Rdn("uid", id)] + junk + info.base);
    JunkIsAccepted(id, junk, info.base);
    ClassifiedIsEntry(dn, info.base);
    AddAndSearchAgree(dn, info, id);
    SearchAndBindAgree(dn, info, id);
  }

  lemma JunkOus(id: string, junk: seq<Rdn>, base: seq<Rdn>)
    requires IsNormalText(id) && HasNoOu(junk)
    ensures OuRdns([Rdn("uid", id)] + junk + base) == OuRdns(base)
  {
    UidIsNormal(id);
    var above := [Rdn("uid", id)] + junk;
    NoOuRdns(above);
    OuRdnsConcat(above, base);
  }

  /** What is stored for such a user under a base with a single `ou` RDN. */
  lemma JunkStores(id: string, junk: seq<Rdn>, info: LdapInfo, value: string)
    requires IsBase(info) && OuRdns(info.base) == [Rdn("ou", value)] && IsCleanComponent(value)
    requires IsNormalText(id) && IsNormalDn(junk) && HasNoOu(junk)
    ensures var dn := PrintDn([Rdn("uid", id)] + junk + info.base);
            && ParseDn(dn) == Ok([Rdn("uid", id)] + junk + info.base)
            && StoredOu(dn) == value && HasCleanOus(ParseDn(dn).value) && IsNormalOu(value)
  {
    var parts := [Rdn("uid", id)] + junk + info.base;
    UidIsNormal(id);
    OnTopOfBase([Rdn("uid", id)], junk);
    OnTopOfBase([Rdn("uid", id)] + junk, info.base);
    PrintedDnParsesBack(parts);
    JunkOus(id, junk, info.base);
    OuRdnsTwice(parts);
    assert Values(OuRdns(parts)) == [value];
    assert Reverse([value]) == [value];
    CleanIsNormal(parts);
  }

  const OU_EXAMPLE := LdapInfo([Rdn("ou", "x"), Rdn("dc", "y")], PrintDn([Rdn("ou", "x"), Rdn("dc", "y")]))

  const JUNK_DN := PrintDn([Rdn("uid", "a")] + [Rdn("foo", "b")] + OU_EXAMPLE.base)

  lemma OuExampleShape()
    ensures IsBase(OU_EXAMPLE) && !HasNoOu(OU_EXAMPLE.base) && OuRdns(OU_EXAMPLE.base) == [Rdn("ou", "x")]
    ensures IsNormalText("a") && IsNormalDn([Rdn("foo", "b")]) && HasNoOu([Rdn("foo", "b")]) && IsCleanComponent("x")
  {
    var foo, ou, dc := Rdn("foo", "b"), Rdn("ou", "x"), Rdn("dc", "y");
    SomeNormalTexts();
    NormalRdnIsOu(foo);
    NormalRdnIsOu(ou);
    NormalRdnIsOu(dc);
    OneOuBase(ou, dc);
    NoOuRdns(OU_EXAMPLE.base);
  }

  /** Clean and normal OUs do not help: `uid=a,foo=b,ou=x,dc=y` under `ou=x,dc=y`. */
  lemma JunkWithCleanOus()
    ensures IsBase(OU_EXAMPLE) && ParseDn(JUNK_DN).Ok? && ClassifyDn(JUNK_DN, OU_EXAMPLE.base) == User("a")
    ensures StoredOu(JUNK_DN) == "x" && HasCleanOus(ParseDn(JUNK_DN).value) && IsNormalOu("x")
    ensures var shown := BuildUserDn("a", "x", OU_EXAMPLE.baseStr);
            && ParseDn(shown) != Ok([Rdn("uid", "a")] + ParseDn(JUNK_DN).value[1..])
            && ClassifyDn(Lower(shown), OU_EXAMPLE.base) == UnexpectedFormat
  {
    OuExampleShape();
    JunkStores("a", [Rdn("foo", "b")], OU_EXAMPLE, "x");
    JunkIsShownElsewhere("a", [Rdn("foo", "b")], OU_EXAMPLE);
  }
}
