/**
 The private-key gate at startup: which starts get to serve, and what may happen
 to the stored key over any sequence of starts.
 */
module Startup {
  import opened Basics

  datatype KeyLocation =
    | KeySeed(origin: string)
    | KeyFile(origin: string, path: string)
    | DefaultFile
    | TestKeys

  datatype KeyInfo = KeyInfo(hash: string, location: KeyLocation)

  /** How the configured key compares with the stored one. */
  datatype Comparison = IsNew | IsSame | HasChanged(why: Change) | Panics

  datatype Change = SeedInsteadOfFile | FileContentsChanged | FileMoved | OtherChange

  // compare_private_key_hashes
  function CompareKeys(previous: Option<KeyInfo>, current: KeyInfo): Comparison {
    if previous == None then IsNew
    else if previous.value.hash == current.hash then IsSame
    else match (previous.value.location, current.location)
      case (KeyFile(_, _), KeySeed(_)) => HasChanged(SeedInsteadOfFile)
      case (DefaultFile, KeySeed(_)) => HasChanged(SeedInsteadOfFile)
      case (KeyFile(_, oldPath), KeyFile(_, newPath)) =>
        HasChanged(if oldPath == newPath then FileContentsChanged else FileMoved)
      case (TestKeys, _) => Panics
      case (_, TestKeys) => Panics
      case (_, _) => HasChanged(OtherChange)
  }

  /** One start: its configuration, and whether the set-up between the gate and serving works out. */
  datatype Config = Config(key: KeyInfo, forceKeyUpdate: bool, forcePasswordReset: bool, setUpOk: bool)

  datatype Result = Serves | Stops

  // set_up_server, as far as the key is concerned.
  function StartResult(stored: Option<KeyInfo>, c: Config): (Result, Option<KeyInfo>) {
    match CompareKeys(stored, c.key)
    case Panics => (Stops, stored)
    case IsSame =>
      if c.forceKeyUpdate then (Stops, stored) else (AfterGate(c), stored)
    case IsNew => (AfterGate(c), Some(c.key))
    case HasChanged(_) =>
      if c.forceKeyUpdate then (AfterGate(c), Some(c.key)) else (Stops, stored)
  }

  function AfterGate(c: Config): Result {
    if !c.setUpOk || c.forceKeyUpdate || c.forcePasswordReset then Stops else Serves
  }

  /** The metadata row of the database, and starts that read and overwrite it. */
  class Metadata {
    var keyInfo: Option<KeyInfo>

    constructor ()
      ensures keyInfo == None
    {
      keyInfo := None;
    }

    method SetUpServer(c: Config) returns (r: Result)
      modifies this
      ensures (r, keyInfo) == StartResult(old(keyInfo), c)
    {
      var comparison := CompareKeys(keyInfo, c.key);
      if comparison.Panics? {
        return Stops;
      }
      if comparison.IsSame? && c.forceKeyUpdate {
        return Stops;
      }
      if comparison.IsNew? || (comparison.HasChanged? && c.forceKeyUpdate) {
        keyInfo := Some(c.key);
      } else if comparison.HasChanged? {
        return Stops;
      }
      if !c.setUpOk {
        return Stops;
      }
      if c.forceKeyUpdate || c.forcePasswordReset {
        return Stops;
      }
      return Serves;
    }
  }

  // ---------- Over any sequence of starts ----------

  function StoredAfter(starts: seq<Config>, n: nat): Option<KeyInfo>
    requires n <= |starts|
  {
    if n == 0 then None else StartResult(StoredAfter(starts, n - 1), starts[n - 1]).1
  }

  predicate ServesAt(starts: seq<Config>, i: nat)
    requires i < |starts|
  {
    StartResult(StoredAfter(starts, i), starts[i]).0 == Serves
  }

  /** One start: serving means the configured key is the stored one and nothing was forced; the
      stored hash is replaced by a forced start only, which does not serve. */
  lemma GateStep(stored: Option<KeyInfo>, c: Config)
    ensures var (r, stored') := StartResult(stored, c);
            && (r == Serves ==> stored'.Some? && stored'.value.hash == c.key.hash && !c.forceKeyUpdate)
            && (stored.Some? ==> stored'.Some?)
            && (stored.Some? && stored'.value.hash != stored.value.hash ==>
                  c.forceKeyUpdate && r == Stops && stored'.value.hash == c.key.hash)
  {
  }

  /** Without a forced start in between, a stored key hash stays what it is. */
  lemma {:induction false} HashKept(starts: seq<Config>, i: nat, j: nat)
    requires i <= j <= |starts| && StoredAfter(starts, i).Some?
    requires forall m :: i <= m < j ==> !starts[m].forceKeyUpdate
    ensures StoredAfter(starts, j).Some? && StoredAfter(starts, j).value.hash == StoredAfter(starts, i).value.hash
    decreases j
  {
    if i < j {
      HashKept(starts, i, j - 1);
      GateStep(StoredAfter(starts, j - 1), starts[j - 1]);
    }
  }

  /** Any two starts that serve with no forced start between them use the same key: passwords
      registered under one remain good under the other. */
  lemma ServesWithOneKey(starts: seq<Config>, i: nat, j: nat)
    requires i < j < |starts| && ServesAt(starts, i) && ServesAt(starts, j)
    requires forall m :: i < m < j ==> !starts[m].forceKeyUpdate
    ensures starts[i].key.hash == starts[j].key.hash
  {
    GateStep(StoredAfter(starts, i), starts[i]);
    HashKept(starts, i + 1, j);
    GateStep(StoredAfter(starts, j), starts[j]);
  }

  /** When the comparison panics: keys differ and one of them is a test key. */
  lemma PanicsIff(previous: Option<KeyInfo>, current: KeyInfo)
    ensures CompareKeys(previous, current) == Panics <==>
              && previous.Some? && previous.value.hash != current.hash
              && (previous.value.location == TestKeys || current.location == TestKeys)
    ensures CompareKeys(previous, current) == IsNew <==> previous == None
    ensures CompareKeys(previous, current) == IsSame <==> previous.Some? && previous.value.hash == current.hash
  {
  }

  /** Why a changed key is refused: a seed where a file was, a file with other contents, a file moved,
      or any other change. */
  lemma ChangeExact(previous: KeyInfo, current: KeyInfo)
    requires previous.hash != current.hash && previous.location != TestKeys && current.location != TestKeys
    ensures var c := CompareKeys(Some(previous), current);
            && (c == HasChanged(SeedInsteadOfFile) <==>
                  (previous.location.KeyFile? || previous.location.DefaultFile?) && current.location.KeySeed?)
            && (c == HasChanged(FileContentsChanged) <==>
                  previous.location.KeyFile? && current.location.KeyFile? && previous.location.path == current.location.path)
            && (c == HasChanged(FileMoved) <==>
                  previous.location.KeyFile? && current.location.KeyFile? && previous.location.path != current.location.path)
            && c.HasChanged?
  {
  }

  /** What a start leaves stored: its own key if there was none, or if it forces a changed one past a
      comparison that does not panic; otherwise what was there. */
  lemma StoredKeyExact(stored: Option<KeyInfo>, c: Config)
    ensures StartResult(stored, c).1 ==
            if stored == None then Some(c.key)
            else if stored.value.hash != c.key.hash && c.forceKeyUpdate
                    && stored.value.location != TestKeys && c.key.location != TestKeys then Some(c.key)
            else stored
  {
    PanicsIff(stored, c.key);
  }

  /** A start serves exactly when the stored key, if any, is its own, nothing is forced and the
      set-up goes well. */
  lemma ServesIff(stored: Option<KeyInfo>, c: Config)
    ensures StartResult(stored, c).0 == Serves <==>
              && (stored == None || stored.value.hash == c.key.hash)
              && !c.forceKeyUpdate && !c.forcePasswordReset && c.setUpOk
  {
  }
}
