/**
 Environment variable names of a configuration: the recursion that flattens a
 nested dictionary with a shared path stack.
 */
module ConfigKeys {
  import opened Text

  datatype Value = Leaf | Dict(entries: seq<Entry>)

  datatype Entry = Entry(key: string, value: Value)

  function UpperChar(c: char): char {
    if 'a' <= c <= 'z' then (c as int - 32) as char else c
  }

  function Upper(s: string): (r: string)
    ensures |r| == |s|
    ensures forall i :: 0 <= i < |s| ==> r[i] == UpperChar(s[i])
  {
    seq(|s|, i requires 0 <= i < |s| => UpperChar(s[i]))
  }

  // ---------- What the names should be ----------

  /** The key paths from the root to the leaves. */
  ghost function LeafPaths(entries: seq<Entry>): set<seq<string>>
    decreases entries
  {
    if entries == [] then {}
    else PathsOf(entries[0]) + LeafPaths(entries[1..])
  }

  ghost function PathsOf(e: Entry): set<seq<string>>
    decreases e
  {
    match e.value
    case Leaf => {[e.key]}
    case Dict(sub) => set p | p in LeafPaths(sub) :: [e.key] + p
  }

  /** The name of a leaf: the keys on its path in upper case, joined by double underscores. */
  function NameTail(path: seq<string>): string {
    if path == [] then ""
    else if |path| == 1 then Upper(path[0])
    else Upper(path[0]) + "__" + NameTail(path[1..])
  }

  function EnvName(path: seq<string>): string {
    "LLDAP_" + NameTail(path)
  }

  // ---------- The recursion ----------

  function Concat(path: seq<string>): string {
    if path == [] then "" else Concat(path[..|path| - 1]) + path[|path| - 1]
  }

  ghost function KeysBelow(entries: seq<Entry>, prefix: string): set<string>
    decreases entries
  {
    if entries == [] then {}
    else KeysOf(entries[0], prefix) + KeysBelow(entries[1..], prefix)
  }

  ghost function KeysOf(e: Entry, prefix: string): set<string>
    decreases e
  {
    match e.value
    case Leaf => {"LLDAP_" + prefix + Upper(e.key)}
    case Dict(sub) => KeysBelow(sub, prefix + Upper(e.key) + "__")
  }

  lemma {:induction false} KeysBelowSnoc(entries: seq<Entry>, e: Entry, prefix: string)
    ensures KeysBelow(entries + [e], prefix) == KeysBelow(entries, prefix) + KeysOf(e, prefix)
  {
    if entries == [] {
      assert entries + [e] == [e];
      assert [e][1..] == [];
    } else {
      KeysBelowSnoc(entries[1..], e, prefix);
      assert (entries + [e])[1..] == entries[1..] + [e];
    }
  }

  class KeyCollector {
    var keys: set<string>
    var path: seq<string>

    constructor ()
      ensures keys == {} && path == []
    {
      keys, path := {}, [];
    }

    /** process_value: collects the names below and restores the path stack. */
    method ProcessValue(entries: seq<Entry>)
      modifies this
      ensures path == old(path)
      ensures keys == old(keys) + KeysBelow(entries, Concat(old(path)))
      decreases entries
    {
      for i := 0 to |entries|
        invariant path == old(path)
        invariant keys == old(keys) + KeysBelow(entries[..i], Concat(old(path)))
      {
        var e := entries[i];
        KeysBelowSnoc(entries[..i], e, Concat(path));
        assert entries[..i + 1] == entries[..i] + [e];
        match e.value {
          case Dict(sub) =>
            path := path + [Upper(e.key) + "__"];
            assert path[..|path| - 1] == old(path);
            assert Concat(path) == Concat(old(path)) + Upper(e.key) + "__";
            ProcessValue(sub);
            path := path[..|path| - 1];
          case Leaf =>
            keys := keys + {"LLDAP_" + Concat(path) + Upper(e.key)};
        }
      }
      assert entries[..|entries|] == entries;
    }
  }

  /** extract_keys: exactly the names of the leaves. */
  method ExtractKeys(entries: seq<Entry>) returns (keys: set<string>)
    ensures keys == set p | p in LeafPaths(entries) :: EnvName(p)
  {
    var collector := new KeyCollector();
    collector.ProcessValue(entries);
    keys := collector.keys;
    NamesBelow(entries, "");
    forall p | p in LeafPaths(entries)
      ensures EnvName(p) == "LLDAP_" + "" + NameTail(p)
    {
    }
    assert keys == NamesUnder(entries, "");
    assert NamesUnder(entries, "") == set p | p in LeafPaths(entries) :: EnvName(p);
  }

  // ---------- Names follow paths ----------

  ghost function NamesUnder(entries: seq<Entry>, prefix: string): set<string> {
    set p | p in LeafPaths(entries) :: "LLDAP_" + prefix + NameTail(p)
  }

  ghost function NamesUnderEntry(e: Entry, prefix: string): set<string> {
    set p | p in PathsOf(e) :: "LLDAP_" + prefix + NameTail(p)
  }

  lemma {:induction false} PathsNotEmpty(entries: seq<Entry>)
    ensures [] !in LeafPaths(entries)
    decreases entries
  {
    if entries != [] {
      PathsNotEmpty(entries[1..]);
    }
  }

  lemma NameStep(key: string, p: seq<string>, prefix: string)
    requires p != []
    ensures "LLDAP_" + prefix + NameTail([key] + p) == "LLDAP_" + (prefix + Upper(key) + "__") + NameTail(p)
  {
    assert ([key] + p)[1..] == p;
  }

  lemma {:induction false} NamesBelow(entries: seq<Entry>, prefix: string)
    ensures KeysBelow(entries, prefix) == NamesUnder(entries, prefix)
    decreases entries, 1
  {
    if entries != [] {
      NamesOfEntry(entries[0], prefix);
      NamesBelow(entries[1..], prefix);
      assert NamesUnder(entries, prefix) == NamesUnderEntry(entries[0], prefix) + NamesUnder(entries[1..], prefix);
    }
  }

  lemma {:induction false} NamesOfEntry(e: Entry, prefix: string)
    ensures KeysOf(e, prefix) == NamesUnderEntry(e, prefix)
    decreases e, 0
  {
    match e.value {
      case Leaf =>
        assert PathsOf(e) == {[e.key]};
        assert [e.key] in PathsOf(e);
      case Dict(sub) =>
        var deeper := prefix + Upper(e.key) + "__";
        NamesBelow(sub, deeper);
        PathsNotEmpty(sub);
        forall name | name in NamesUnder(sub, deeper)
          ensures name in NamesUnderEntry(e, prefix)
        {
          var p :| p in LeafPaths(sub) && name == "LLDAP_" + deeper + NameTail(p);
          NameStep(e.key, p, prefix);
          assert [e.key] + p in PathsOf(e);
        }
        forall name | name in NamesUnderEntry(e, prefix)
          ensures name in NamesUnder(sub, deeper)
        {
          var q :| q in PathsOf(e) && name == "LLDAP_" + prefix + NameTail(q);
          var p :| p in LeafPaths(sub) && q == [e.key] + p;
          NameStep(e.key, p, prefix);
        }
    }
  }

  // ---------- What the names look like ----------

  lemma AlphabetRaised()
    ensures Upper("abcdefghijklmnopqrstuvwxyz") == "ABCDEFGHIJKLMNOPQRSTUVWXYZ"
  {
  }

  predicate HasNoSmallLetter(s: string) {
    forall i :: 0 <= i < |s| ==> !('a' <= s[i] <= 'z')
  }

  /** The keys of a path as they are, joined by double underscores. */
  function PathText(path: seq<string>): string {
    if path == [] then ""
    else if |path| == 1 then path[0]
    else path[0] + "__" + PathText(path[1..])
  }

  lemma UpperShape(s: string)
    ensures HasNoSmallLetter(Upper(s)) && Lower(Upper(s)) == Lower(s)
  {
  }

  lemma {:induction false} NameTailShape(path: seq<string>)
    ensures HasNoSmallLetter(NameTail(path)) && Lower(NameTail(path)) == Lower(PathText(path))
  {
    if path != [] {
      UpperShape(path[0]);
      if |path| > 1 {
        NameTailShape(path[1..]);
        LowerConcat(Upper(path[0]) + "__", NameTail(path[1..]));
        LowerConcat(Upper(path[0]), "__");
        LowerConcat(path[0] + "__", PathText(path[1..]));
        LowerConcat(path[0], "__");
      }
    }
  }

  /** Every name has no small letter and is, up to case, `lldap_` and the path. */
  lemma EnvNameShape(path: seq<string>)
    ensures HasNoSmallLetter(EnvName(path)) && Lower(EnvName(path)) == "lldap_" + Lower(PathText(path))
  {
    NameTailShape(path);
    LowerConcat("LLDAP_", NameTail(path));
    assert Lower("LLDAP_") == "lldap_";
  }
}
