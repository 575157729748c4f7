/**
 Finishing a search result entry: operational attributes are injected, then
 attributes are deduplicated by type name.
 */
module SearchEntry {
  import opened Basics
  import opened Text

  datatype LdapAttribute = LdapAttribute(atype: string, vals: seq<string>)

  // ---------- Deduplication ----------

  predicate HasType(attrs: seq<LdapAttribute>, t: string) {
    exists i :: 0 <= i < |attrs| && attrs[i].atype == t
  }

  /** The attributes that no attribute of the same type name precedes, in order. Type names are
      compared to the letter. */
  function KeepFirst(attrs: seq<LdapAttribute>): seq<LdapAttribute> {
    if attrs == [] then []
    else
      var front, last := attrs[..|attrs| - 1], attrs[|attrs| - 1];
      if HasType(front, last.atype) then KeepFirst(front) else KeepFirst(front) + [last]
  }

  /** retain with a set of seen names. */
  method Deduplicate(attrs: seq<LdapAttribute>) returns (kept: seq<LdapAttribute>)
    ensures kept == KeepFirst(attrs)
  {
    var seen: set<string> := {};
    kept := [];
    for i := 0 to |attrs|
      invariant seen == set j | 0 <= j < i :: attrs[j].atype
      invariant kept == KeepFirst(attrs[..i])
    {
      assert attrs[..i + 1][..i] == attrs[..i];
      assert HasType(attrs[..i], attrs[i].atype) <==> attrs[i].atype in seen;
      if attrs[i].atype !in seen {
        kept := kept + [attrs[i]];
      }
      seen := seen + {attrs[i].atype};
    }
    assert attrs[..|attrs|] == attrs;
  }

  ghost predicate TypesDistinct(attrs: seq<LdapAttribute>) {
    forall i, j :: 0 <= i < j < |attrs| ==> attrs[i].atype != attrs[j].atype
  }

  /** The values a reader finds under a type name: those of the first attribute of that name. */
  function Lookup(attrs: seq<LdapAttribute>, t: string): Option<seq<string>> {
    if attrs == [] then None
    else
      var front, last := attrs[..|attrs| - 1], attrs[|attrs| - 1];
      match Lookup(front, t)
      case Some(vals) => Some(vals)
      case None => if last.atype == t then Some(last.vals) else None
  }

  lemma HasTypeSnoc(front: seq<LdapAttribute>, last: LdapAttribute, t: string)
    ensures HasType(front + [last], t) <==> HasType(front, t) || last.atype == t
  {
    var all := front + [last];
    if HasType(front, t) {
      var i :| 0 <= i < |front| && front[i].atype == t;
      assert all[i].atype == t;
    }
    assert all[|front|] == last;
  }

  lemma {:induction false} KeepFirstTypes(attrs: seq<LdapAttribute>, t: string)
    ensures HasType(KeepFirst(attrs), t) <==> HasType(attrs, t)
  {
    if attrs != [] {
      var front, last := attrs[..|attrs| - 1], attrs[|attrs| - 1];
      KeepFirstTypes(front, t);
      assert attrs == front + [last];
      HasTypeSnoc(front, last, t);
      HasTypeSnoc(KeepFirst(front), last, t);
    }
  }

  lemma {:induction false} LookupIff(attrs: seq<LdapAttribute>, t: string)
    ensures Lookup(attrs, t).Some? <==> HasType(attrs, t)
  {
    if attrs != [] {
      var front, last := attrs[..|attrs| - 1], attrs[|attrs| - 1];
      LookupIff(front, t);
      assert attrs == front + [last];
      HasTypeSnoc(front, last, t);
    }
  }

  /** Deduplication does not change what a reader finds under any type name. */
  lemma {:induction false} KeepFirstLookup(attrs: seq<LdapAttribute>, t: string)
    ensures Lookup(KeepFirst(attrs), t) == Lookup(attrs, t)
  {
    if attrs != [] {
      var front, last := attrs[..|attrs| - 1], attrs[|attrs| - 1];
      KeepFirstLookup(front, t);
      if HasType(front, last.atype) {
        LookupIff(front, t);
      } else {
        assert (KeepFirst(front) + [last])[..|KeepFirst(front)|] == KeepFirst(front);
      }
    }
  }

  /** It leaves every type name once, and nothing to do where names are distinct already. */
  lemma {:induction false} KeepFirstDistinct(attrs: seq<LdapAttribute>)
    ensures TypesDistinct(KeepFirst(attrs))
    ensures TypesDistinct(attrs) ==> KeepFirst(attrs) == attrs
  {
    if attrs != [] {
      var front, last := attrs[..|attrs| - 1], attrs[|attrs| - 1];
      KeepFirstDistinct(front);
      KeepFirstTypes(front, last.atype);
      assert attrs == front + [last];
      if TypesDistinct(attrs) {
        assert forall i :: 0 <= i < |front| ==> front[i] == attrs[i];
        assert TypesDistinct(front);
        assert !HasType(front, last.atype);
      }
    }
  }

  /** Later attributes do not affect which earlier ones are kept, nor their order. */
  lemma {:induction false} KeepFirstPrefix(a: seq<LdapAttribute>, b: seq<LdapAttribute>)
    ensures KeepFirst(a) <= KeepFirst(a + b)
    decreases |b|
  {
    if b == [] {
      assert a + b == a;
    } else {
      KeepFirstPrefix(a, b[..|b| - 1]);
      assert (a + b)[..|a + b| - 1] == a + b[..|b| - 1];
    }
  }

  // ---------- Operational attributes ----------

  /** The five attributes, in the order they are pushed. */
  function Operational(structuralClass: string, baseStr: string): seq<LdapAttribute> {
    [LdapAttribute("hasSubordinates", ["FALSE"]),
     LdapAttribute("structuralObjectClass", [structuralClass]),
     LdapAttribute("subschemaSubentry", ["cn=Subschema," + baseStr]),
     LdapAttribute("creatorsName", ["cn=admin,ou=people," + baseStr]),
     LdapAttribute("modifiersName", ["cn=admin,ou=people," + baseStr])]
  }

  function LowerTypes(attrs: seq<LdapAttribute>): set<string> {
    set i | 0 <= i < |attrs| :: Lower(attrs[i].atype)
  }

  function Missing(existing: set<string>, ops: seq<LdapAttribute>): seq<LdapAttribute> {
    if ops == [] then []
    else (if Lower(ops[0].atype) in existing then [] else [ops[0]]) + Missing(existing, ops[1..])
  }

  function Push(out: seq<LdapAttribute>, existing: set<string>, op: LdapAttribute): seq<LdapAttribute> {
    if Lower(op.atype) in existing then out else out + [op]
  }

  function PushAll(out: seq<LdapAttribute>, existing: set<string>, ops: seq<LdapAttribute>): seq<LdapAttribute>
    decreases |ops|
  {
    if ops == [] then out else PushAll(Push(out, existing, ops[0]), existing, ops[1..])
  }

  function Injected(attrs: seq<LdapAttribute>, structuralClass: string, baseStr: string): seq<LdapAttribute> {
    PushAll(attrs, LowerTypes(attrs), Operational(structuralClass, baseStr))
  }

  lemma {:induction false} PushAllAppends(out: seq<LdapAttribute>, existing: set<string>, ops: seq<LdapAttribute>)
    ensures PushAll(out, existing, ops) == out + Missing(existing, ops)
    decreases |ops|
  {
    if ops != [] {
      PushAllAppends(Push(out, existing, ops[0]), existing, ops[1..]);
    }
  }

  lemma InjectedAppends(attrs: seq<LdapAttribute>, c: string, baseStr: string)
    ensures Injected(attrs, c, baseStr) == attrs + Missing(LowerTypes(attrs), Operational(c, baseStr))
  {
    PushAllAppends(attrs, LowerTypes(attrs), Operational(c, baseStr));
  }

  lemma LowerOperational()
    ensures Lower("hasSubordinates") == "hassubordinates"
    ensures Lower("structuralObjectClass") == "structuralobjectclass"
    ensures Lower("subschemaSubentry") == "subschemasubentry"
    ensures Lower("creatorsName") == "creatorsname"
    ensures Lower("modifiersName") == "modifiersname"
  {
  }

  lemma PushFive(out: seq<LdapAttribute>, existing: set<string>, ops: seq<LdapAttribute>)
    requires |ops| == 5
    ensures PushAll(out, existing, ops)
            == Push(Push(Push(Push(Push(out, existing, ops[0]), existing, ops[1]), existing, ops[2]), existing, ops[3]), existing, ops[4])
  {
    var o1 := Push(out, existing, ops[0]);
    var o2 := Push(o1, existing, ops[1]);
    var o3 := Push(o2, existing, ops[2]);
    var o4 := Push(o3, existing, ops[3]);
    assert ops[1..][1..] == ops[2..] && ops[2..][1..] == ops[3..] && ops[3..][1..] == ops[4..] && ops[4..][1..] == [];
    assert PushAll(out, existing, ops) == PushAll(o1, existing, ops[1..]);
    assert PushAll(o1, existing, ops[1..]) == PushAll(o2, existing, ops[2..]);
    assert PushAll(o2, existing, ops[2..]) == PushAll(o3, existing, ops[3..]);
    assert PushAll(o3, existing, ops[3..]) == PushAll(o4, existing, ops[4..]);
    assert PushAll(o4, existing, ops[4..]) == PushAll(Push(o4, existing, ops[4]), existing, ops[4..][1..]);
  }

  /** inject_operational_attributes: the five conditional pushes. */
  method InjectOperationalAttributes(attrs: seq<LdapAttribute>, structuralClass: string, baseStr: string)
    returns (out: seq<LdapAttribute>)
    ensures out == Injected(attrs, structuralClass, baseStr)
  {
    var existing := LowerTypes(attrs);
    LowerOperational();
    PushFive(attrs, existing, Operational(structuralClass, baseStr));
    out := attrs;
    if "hassubordinates" !in existing {
      out := out + [LdapAttribute("hasSubordinates", ["FALSE"])];
    }
    if "structuralobjectclass" !in existing {
      out := out + [LdapAttribute("structuralObjectClass", [structuralClass])];
    }
    if "subschemasubentry" !in existing {
      out := out + [LdapAttribute("subschemaSubentry", ["cn=Subschema," + baseStr])];
    }
    if "creatorsname" !in existing {
      out := out + [LdapAttribute("creatorsName", ["cn=admin,ou=people," + baseStr])];
    }
    if "modifiersname" !in existing {
      out := out + [LdapAttribute("modifiersName", ["cn=admin,ou=people," + baseStr])];
    }
  }

  // ---------- Laws ----------

  ghost predicate LowerDistinct(attrs: seq<LdapAttribute>) {
    forall i, j :: 0 <= i < j < |attrs| ==> Lower(attrs[i].atype) != Lower(attrs[j].atype)
  }

  lemma OperationalDistinct(structuralClass: string, baseStr: string)
    ensures LowerDistinct(Operational(structuralClass, baseStr))
  {
    LowerOperational();
    var ops := Operational(structuralClass, baseStr);
    assert Lower(ops[0].atype)[0] == 'h' && Lower(ops[1].atype)[1] == 't' && Lower(ops[2].atype)[1] == 'u'
           && Lower(ops[3].atype)[0] == 'c' && Lower(ops[4].atype)[0] == 'm';
    assert Lower(ops[1].atype)[0] == 's' && Lower(ops[2].atype)[0] == 's';
  }

  lemma {:induction false} MissingExact(existing: set<string>, ops: seq<LdapAttribute>)
    requires LowerDistinct(ops)
    ensures LowerDistinct(Missing(existing, ops))
    ensures forall a :: a in Missing(existing, ops) <==> a in ops && Lower(a.atype) !in existing
  {
    if ops != [] {
      var rest := ops[1..];
      assert LowerDistinct(rest) by {
        forall i, j | 0 <= i < j < |rest|
          ensures Lower(rest[i].atype) != Lower(rest[j].atype)
        {
          assert rest[i] == ops[i + 1] && rest[j] == ops[j + 1];
        }
      }
      MissingExact(existing, rest);
      assert ops == [ops[0]] + rest;
      var later := Missing(existing, rest);
      forall j | 0 <= j < |later|
        ensures Lower(later[j].atype) != Lower(ops[0].atype)
      {
        assert later[j] in later;
        var k :| 0 <= k < |rest| && rest[k] == later[j];
        assert rest[k] == ops[k + 1];
      }
    }
  }

  lemma InjectedTypes(attrs: seq<LdapAttribute>, structuralClass: string, baseStr: string, t: string)
    ensures var ops := Operational(structuralClass, baseStr);
            t in LowerTypes(Injected(attrs, structuralClass, baseStr)) <==>
              t in LowerTypes(attrs) || exists a :: a in ops && Lower(a.atype) == t
  {
    var ops := Operational(structuralClass, baseStr);
    var missing, out := Missing(LowerTypes(attrs), ops), Injected(attrs, structuralClass, baseStr);
    InjectedAppends(attrs, structuralClass, baseStr);
    OperationalDistinct(structuralClass, baseStr);
    MissingExact(LowerTypes(attrs), ops);
    if t in LowerTypes(out) {
      var i :| 0 <= i < |out| && Lower(out[i].atype) == t;
      if i >= |attrs| {
        assert out[i] in missing;
      } else {
        assert out[i] == attrs[i];
      }
    }
    if t in LowerTypes(attrs) {
      var i :| 0 <= i < |attrs| && Lower(attrs[i].atype) == t;
      assert out[i] == attrs[i];
    } else if a :| a in ops && Lower(a.atype) == t {
      assert a in missing;
      var k :| 0 <= k < |missing| && missing[k] == a;
      assert out[|attrs| + k] == a;
    }
  }

  /** After injection all five are present, whatever the case they were requested in; injecting
      again adds nothing; and an attribute that was added is the only one of its type. */
  lemma InjectionLaws(attrs: seq<LdapAttribute>, c: string, baseStr: string)
    ensures {"hassubordinates", "structuralobjectclass", "subschemasubentry", "creatorsname", "modifiersname"}
            <= LowerTypes(Injected(attrs, c, baseStr))
    ensures Injected(Injected(attrs, c, baseStr), c, baseStr) == Injected(attrs, c, baseStr)
    ensures var out := Injected(attrs, c, baseStr);
            forall i, j :: 0 <= i < |out| && |attrs| <= j < |out| && i != j ==>
                             Lower(out[i].atype) != Lower(out[j].atype)
  {
    var ops, out := Operational(c, baseStr), Injected(attrs, c, baseStr);
    var missing := Missing(LowerTypes(attrs), ops);
    LowerOperational();
    forall i | 0 <= i < 5
      ensures Lower(ops[i].atype) in LowerTypes(out)
    {
      assert ops[i] in ops;
      InjectedTypes(attrs, c, baseStr, Lower(ops[i].atype));
    }
    assert Lower(ops[0].atype) == "hassubordinates" && Lower(ops[1].atype) == "structuralobjectclass"
           && Lower(ops[2].atype) == "subschemasubentry" && Lower(ops[3].atype) == "creatorsname"
           && Lower(ops[4].atype) == "modifiersname";
    InjectedAppends(out, c, baseStr);
    NothingMissing(LowerTypes(out), ops);
    AddedStandAlone(attrs, c, baseStr);
  }

  lemma {:induction false} NothingMissing(existing: set<string>, ops: seq<LdapAttribute>)
    requires forall i :: 0 <= i < |ops| ==> Lower(ops[i].atype) in existing
    ensures Missing(existing, ops) == []
  {
    if ops != [] {
      NothingMissing(existing, ops[1..]);
    }
  }

  lemma AddedStandAlone(attrs: seq<LdapAttribute>, c: string, baseStr: string)
    ensures var out := Injected(attrs, c, baseStr);
            forall i, j :: 0 <= i < |out| && |attrs| <= j < |out| && i != j ==>
                             Lower(out[i].atype) != Lower(out[j].atype)
  {
    var ops, out := Operational(c, baseStr), Injected(attrs, c, baseStr);
    var missing := Missing(LowerTypes(attrs), ops);
    InjectedAppends(attrs, c, baseStr);
    OperationalDistinct(c, baseStr);
    MissingExact(LowerTypes(attrs), ops);
    forall i, j | 0 <= i < |out| && |attrs| <= j < |out| && i != j
      ensures Lower(out[i].atype) != Lower(out[j].atype)
    {
      assert out[j] == missing[j - |attrs|] && out[j] in missing;
      if i < |attrs| {
        assert out[i] == attrs[i] && Lower(attrs[i].atype) in LowerTypes(attrs);
      } else {
        assert out[i] == missing[i - |attrs|];
      }
    }
  }

  lemma SameLowerTypes(attrs: seq<LdapAttribute>)
    ensures LowerTypes(KeepFirst(attrs)) == LowerTypes(attrs)
  {
    var kept := KeepFirst(attrs);
    forall t | t in LowerTypes(attrs)
      ensures t in LowerTypes(kept)
    {
      var i :| 0 <= i < |attrs| && Lower(attrs[i].atype) == t;
      KeepFirstTypes(attrs, attrs[i].atype);
      var k :| 0 <= k < |kept| && kept[k].atype == attrs[i].atype;
    }
    forall t | t in LowerTypes(kept)
      ensures t in LowerTypes(attrs)
    {
      var k :| 0 <= k < |kept| && Lower(kept[k].atype) == t;
      KeepFirstTypes(attrs, kept[k].atype);
      var i :| 0 <= i < |attrs| && attrs[i].atype == kept[k].atype;
    }
  }

  /** Attributes whose names occur nowhere before them are all kept. */
  lemma {:induction false} KeepFirstAppend(attrs: seq<LdapAttribute>, more: seq<LdapAttribute>)
    requires forall i, j :: 0 <= i < j < |attrs + more| && j >= |attrs| ==> (attrs + more)[i].atype != (attrs + more)[j].atype
    ensures KeepFirst(attrs + more) == KeepFirst(attrs) + more
    decreases |more|
  {
    if more == [] {
      assert attrs + more == attrs;
    } else {
      var n := |more| - 1;
      var all, shorter := attrs + more, attrs + more[..n];
      assert all[..|all| - 1] == shorter;
      forall i, j | 0 <= i < j < |shorter| && j >= |attrs|
        ensures shorter[i].atype != shorter[j].atype
      {
        assert shorter[i] == all[i] && shorter[j] == all[j];
      }
      KeepFirstAppend(attrs, more[..n]);
      assert !HasType(shorter, all[|all| - 1].atype);
      assert more == more[..n] + [more[n]];
    }
  }

  /** Injection and deduplication can be done in either order. */
  lemma InjectionCommutesWithDedup(attrs: seq<LdapAttribute>, c: string, baseStr: string)
    ensures KeepFirst(Injected(attrs, c, baseStr)) == Injected(KeepFirst(attrs), c, baseStr)
  {
    var missing := Missing(LowerTypes(attrs), Operational(c, baseStr));
    SameLowerTypes(attrs);
    AddedStandAlone(attrs, c, baseStr);
    InjectedAppends(attrs, c, baseStr);
    InjectedAppends(KeepFirst(attrs), c, baseStr);
    var out := attrs + missing;
    forall i, j | 0 <= i < j < |out| && j >= |attrs|
      ensures out[i].atype != out[j].atype
    {
      assert Lower(out[i].atype) != Lower(out[j].atype);
    }
    KeepFirstAppend(attrs, missing);
  }

  // ---------- What a reader finds ----------

  lemma {:induction false} LookupAppend(a: seq<LdapAttribute>, b: seq<LdapAttribute>, t: string)
    ensures Lookup(a + b, t) == if Lookup(a, t).Some? then Lookup(a, t) else Lookup(b, t)
    decreases |b|
  {
    if b == [] {
      assert a + b == a;
    } else {
      LookupAppend(a, b[..|b| - 1], t);
      assert (a + b)[..|a + b| - 1] == a + b[..|b| - 1];
    }
  }

  /** The first attribute of that type name. */
  ghost predicate IsFirstOf(attrs: seq<LdapAttribute>, i: int, t: string) {
    && 0 <= i < |attrs| && attrs[i].atype == t
    && forall j :: 0 <= j < i ==> attrs[j].atype != t
  }

  lemma {:induction false} LookupAt(attrs: seq<LdapAttribute>, i: int, t: string)
    requires IsFirstOf(attrs, i, t)
    ensures Lookup(attrs, t) == Some(attrs[i].vals)
  {
    var front := attrs[..|attrs| - 1];
    if i < |attrs| - 1 {
      LookupAt(front, i, t);
    } else {
      LookupIff(front, t);
      assert !HasType(front, t);
    }
  }

  /** Under every name that was there a reader finds what they found before, and under an operational
      name that was not, in any case, its default. */
  lemma InjectedLookup(attrs: seq<LdapAttribute>, c: string, baseStr: string)
    ensures var out, had := Injected(attrs, c, baseStr), LowerTypes(attrs);
            && (forall t :: HasType(attrs, t) ==> Lookup(out, t) == Lookup(attrs, t))
            && ("hassubordinates" !in had ==> Lookup(out, "hasSubordinates") == Some(["FALSE"]))
            && ("structuralobjectclass" !in had ==> Lookup(out, "structuralObjectClass") == Some([c]))
            && ("subschemasubentry" !in had ==> Lookup(out, "subschemaSubentry") == Some(["cn=Subschema," + baseStr]))
            && ("creatorsname" !in had ==> Lookup(out, "creatorsName") == Some(["cn=admin,ou=people," + baseStr]))
            && ("modifiersname" !in had ==> Lookup(out, "modifiersName") == Some(["cn=admin,ou=people," + baseStr]))
  {
    var out := Injected(attrs, c, baseStr);
    forall t | HasType(attrs, t)
      ensures Lookup(out, t) == Lookup(attrs, t)
    {
      InjectedAppends(attrs, c, baseStr);
      LookupAppend(attrs, Missing(LowerTypes(attrs), Operational(c, baseStr)), t);
      LookupIff(attrs, t);
    }
    LowerOperational();
    InjectedDefault(attrs, c, baseStr, 0);
    InjectedDefault(attrs, c, baseStr, 1);
    InjectedDefault(attrs, c, baseStr, 2);
    InjectedDefault(attrs, c, baseStr, 3);
    InjectedDefault(attrs, c, baseStr, 4);
  }

  lemma InjectedDefault(attrs: seq<LdapAttribute>, c: string, baseStr: string, k: nat)
    requires k < 5
    ensures var op := Operational(c, baseStr)[k];
            Lower(op.atype) !in LowerTypes(attrs) ==> Lookup(Injected(attrs, c, baseStr), op.atype) == Some(op.vals)
  {
    var ops, out := Operational(c, baseStr), Injected(attrs, c, baseStr);
    var missing, op := Missing(LowerTypes(attrs), ops), ops[k];
    if Lower(op.atype) !in LowerTypes(attrs) {
      InjectedAppends(attrs, c, baseStr);
      OperationalDistinct(c, baseStr);
      MissingExact(LowerTypes(attrs), ops);
      assert op in missing;
      var m :| 0 <= m < |missing| && missing[m] == op;
      AddedStandAlone(attrs, c, baseStr);
      assert out[|attrs| + m] == op;
      assert IsFirstOf(out, |attrs| + m, op.atype);
      LookupAt(out, |attrs| + m, op.atype);
    }
  }
}
