/**
 Case-insensitive names (groups, emails, object classes): the comparison loop,
 the order it implements, and its agreement with hashing.

 `lower` stands for the Unicode table behind `char::to_lowercase`; a character
 may lower to several.
 */
module CaseOrder {
  import opened Basics

  datatype Ordering = Less | Equal | Greater

  /** Character-wise lowering. */
  function LowerChars(lower: char -> string, s: string): string {
    if s == "" then "" else lower(s[0]) + LowerChars(lower, s[1..])
  }

  /** Lexicographic order on code points. */
  function Lex(a: string, b: string): Ordering {
    if a == "" && b == "" then Equal
    else if a == "" then Less
    else if b == "" then Greater
    else if a[0] < b[0] then Less
    else if a[0] > b[0] then Greater
    else Lex(a[1..], b[1..])
  }

  function Compare(lower: char -> string, a: string, b: string): Ordering {
    Lex(LowerChars(lower, a), LowerChars(lower, b))
  }

  // The equality the macro derives from the comparison.
  predicate SameName(lower: char -> string, a: string, b: string) {
    Compare(lower, a, b) == Equal
  }

  // ---------- The loop ----------

  /** A flattening iterator: lowered characters not yet given out, then source characters. */
  datatype Iter = Iter(buffer: string, rest: string)

  function Remaining(lower: char -> string, it: Iter): string {
    it.buffer + LowerChars(lower, it.rest)
  }

  function Advance(lower: char -> string, it: Iter): (Option<char>, Iter)
    decreases |it.rest|
  {
    if it.buffer != "" then (Some(it.buffer[0]), Iter(it.buffer[1..], it.rest))
    else if it.rest == "" then (None, it)
    else Advance(lower, Iter(lower(it.rest[0]), it.rest[1..]))
  }

  lemma {:induction false} AdvanceTakesHead(lower: char -> string, it: Iter)
    ensures var (c, next) := Advance(lower, it);
            var r := Remaining(lower, it);
            if r == "" then c == None
            else c == Some(r[0]) && Remaining(lower, next) == r[1..]
    decreases |it.rest|
  {
    if it.buffer == "" && it.rest != "" {
      AdvanceTakesHead(lower, Iter(lower(it.rest[0]), it.rest[1..]));
      assert Remaining(lower, it) == Remaining(lower, Iter(lower(it.rest[0]), it.rest[1..]));
    } else if it.buffer != "" {
      assert Remaining(lower, it)[1..] == it.buffer[1..] + LowerChars(lower, it.rest);
    }
  }

  /** compare_str_case_insensitive: the loop over the two lowering iterators is lexicographic
      order on the lowered strings. */
  method CompareCaseInsensitive(lower: char -> string, s1: string, s2: string) returns (o: Ordering)
    ensures o == Compare(lower, s1, s2)
  {
    var it1, it2 := Iter("", s1), Iter("", s2);
    assert Remaining(lower, it1) == LowerChars(lower, s1) && Remaining(lower, it2) == LowerChars(lower, s2);
    while true
      invariant Lex(Remaining(lower, it1), Remaining(lower, it2)) == Compare(lower, s1, s2)
      decreases |Remaining(lower, it1)|
    {
      AdvanceTakesHead(lower, it1);
      AdvanceTakesHead(lower, it2);
      var (c1, next1) := Advance(lower, it1);
      var (c2, next2) := Advance(lower, it2);
      if c1.Some? && c2.Some? {
        if c1.value < c2.value { return Less; }
        if c1.value > c2.value { return Greater; }
      } else if c2.Some? {
        return Less;
      } else if c1.Some? {
        return Greater;
      } else {
        return Equal;
      }
      it1, it2 := next1, next2;
    }
  }

  // ---------- The order ----------

  function Flip(o: Ordering): Ordering {
    match o case Less => Greater case Equal => Equal case Greater => Less
  }

  lemma {:induction false} LexTotal(a: string, b: string)
    ensures Lex(b, a) == Flip(Lex(a, b))
    ensures Lex(a, b) == Equal <==> a == b
  {
    if a != "" && b != "" {
      LexTotal(a[1..], b[1..]);
      assert a == [a[0]] + a[1..] && b == [b[0]] + b[1..];
    }
  }

  lemma {:induction false} LexTransitive(a: string, b: string, c: string)
    requires Lex(a, b) != Greater && Lex(b, c) != Greater
    ensures Lex(a, c) != Greater
    ensures Lex(a, c) == Equal ==> Lex(a, b) == Equal && Lex(b, c) == Equal
  {
    if a != "" && b != "" && c != "" {
      if a[0] == b[0] == c[0] {
        LexTransitive(a[1..], b[1..], c[1..]);
      }
    }
  }

  /** Where the order is decided: the first position at which the strings differ, a string that
      ends being below every continuation of it. */
  ghost predicate DiffersAt(a: string, b: string, k: nat) {
    && k <= |a| && k <= |b|
    && a[..k] == b[..k]
    && k < |b| && (k == |a| || a[k] < b[k])
  }

  lemma {:induction false} LexFirstDifference(a: string, b: string)
    ensures Lex(a, b) == Less <==> exists k: nat :: DiffersAt(a, b, k)
  {
    if a != "" && b != "" && a[0] == b[0] {
      LexFirstDifference(a[1..], b[1..]);
      if k: nat :| DiffersAt(a[1..], b[1..], k) {
        assert a[..k + 1] == [a[0]] + a[1..][..k];
        assert b[..k + 1] == [b[0]] + b[1..][..k];
        assert DiffersAt(a, b, k + 1);
      }
      if k: nat :| DiffersAt(a, b, k) {
        assert k > 0;
        assert a[1..][..k - 1] == a[..k][1..];
        assert b[1..][..k - 1] == b[..k][1..];
        assert DiffersAt(a[1..], b[1..], k - 1);
      }
    } else if Lex(a, b) == Less {
      assert DiffersAt(a, b, 0);
    } else if a != "" && b != "" {
      forall k: nat
        ensures !DiffersAt(a, b, k)
      {
        if 0 < k <= |a| && k <= |b| {
          assert a[..k][0] == a[0] && b[..k][0] == b[0];
        }
      }
    }
  }

  /** The comparison is a total preorder; names are equal exactly when they lower to the same
      characters, which is an equivalence. */
  lemma ComparisonIsPreorder(lower: char -> string, a: string, b: string, c: string)
    ensures Compare(lower, b, a) == Flip(Compare(lower, a, b))
    ensures Compare(lower, a, b) != Greater && Compare(lower, b, c) != Greater ==> Compare(lower, a, c) != Greater
    ensures SameName(lower, a, b) <==> LowerChars(lower, a) == LowerChars(lower, b)
  {
    LexTotal(LowerChars(lower, a), LowerChars(lower, b));
    if Compare(lower, a, b) != Greater && Compare(lower, b, c) != Greater {
      LexTransitive(LowerChars(lower, a), LowerChars(lower, b), LowerChars(lower, c));
    }
  }

  // ---------- Hashing ----------

  const CAPITAL_SIGMA := '\U{03A3}'
  const SMALL_SIGMA := '\U{03C3}'
  const FINAL_SIGMA := '\U{03C2}'

  /** The Unicode tables whole-string lowering consults. */
  datatype Tables = Tables(lower: char -> string, cased: char -> bool, ignorable: char -> bool)

  ghost predicate IsUnicode(t: Tables) {
    t.lower(CAPITAL_SIGMA) == [SMALL_SIGMA]
  }

  /** The first character that is not case-ignorable is cased. */
  predicate CasedAhead(t: Tables, s: string) {
    if s == "" then false
    else if t.ignorable(s[0]) then CasedAhead(t, s[1..])
    else t.cased(s[0])
  }

  predicate CasedBehind(t: Tables, s: string) {
    if s == "" then false
    else if t.ignorable(s[|s| - 1]) then CasedBehind(t, s[..|s| - 1])
    else t.cased(s[|s| - 1])
  }

  /** The first character of s that is not ignorable, which is cased. */
  ghost predicate IsCasedFirst(t: Tables, s: string, i: int) {
    && 0 <= i < |s| && t.cased(s[i]) && !t.ignorable(s[i])
    && forall j :: 0 <= j < i ==> t.ignorable(s[j])
  }

  lemma {:induction false} CasedAheadExact(t: Tables, s: string)
    ensures CasedAhead(t, s) <==> exists i :: IsCasedFirst(t, s, i)
  {
    if s != "" {
      var rest := s[1..];
      CasedAheadExact(t, rest);
      assert forall j :: 0 <= j < |rest| ==> rest[j] == s[j + 1];
      if t.ignorable(s[0]) {
        if i :| IsCasedFirst(t, rest, i) {
          assert forall j :: 1 <= j < |s| ==> s[j] == rest[j - 1];
          assert IsCasedFirst(t, s, i + 1);
        }
        if i :| IsCasedFirst(t, s, i) {
          assert IsCasedFirst(t, rest, i - 1);
        }
      } else if t.cased(s[0]) {
        assert IsCasedFirst(t, s, 0);
      }
    }
  }

  /** The last such character. */
  ghost predicate IsCasedLast(t: Tables, s: string, i: int) {
    && 0 <= i < |s| && t.cased(s[i]) && !t.ignorable(s[i])
    && forall j :: i < j < |s| ==> t.ignorable(s[j])
  }

  lemma {:induction false} CasedBehindExact(t: Tables, s: string)
    ensures CasedBehind(t, s) <==> exists i :: IsCasedLast(t, s, i)
  {
    if s != "" {
      var front, n := s[..|s| - 1], |s| - 1;
      CasedBehindExact(t, front);
      if t.ignorable(s[n]) {
        if i :| IsCasedLast(t, front, i) {
          assert IsCasedLast(t, s, i);
        }
        if i :| IsCasedLast(t, s, i) {
          assert IsCasedLast(t, front, i);
        }
      } else if t.cased(s[n]) {
        assert IsCasedLast(t, s, n);
      }
    }
  }

  /** A capital sigma at the end of a word. */
  predicate IsFinalSigma(t: Tables, s: string, i: nat)
    requires i < |s|
  {
    s[i] == CAPITAL_SIGMA && CasedBehind(t, s[..i]) && !CasedAhead(t, s[i + 1..])
  }

  /** By position: some cased letter lies before it, and none after it, with only ignorable characters
      in between. */
  lemma FinalSigmaExact(t: Tables, s: string, i: nat)
    requires i < |s|
    ensures var before, after := s[..i], s[i + 1..];
            IsFinalSigma(t, s, i) <==>
              && s[i] as int == 0x3A3
              && (exists j :: IsCasedLast(t, before, j))
              && !(exists j :: IsCasedFirst(t, after, j))
  {
    CasedBehindExact(t, s[..i]);
    CasedAheadExact(t, s[i + 1..]);
  }

  // str::to_lowercase, from position i on.
  function WholeLower(t: Tables, s: string, i: nat): string
    requires i <= |s|
    decreases |s| - i
  {
    if i == |s| then ""
    else (if IsFinalSigma(t, s, i) then [FINAL_SIGMA] else t.lower(s[i])) + WholeLower(t, s, i + 1)
  }

  // What the macro's Hash feeds to the hasher.
  function HashInput(t: Tables, s: string): string {
    WholeLower(t, s, 0)
  }

  /** Where, in the lowered string, the final sigmas of s from i on end up. */
  ghost function FinalSigmas(t: Tables, s: string, i: nat, offset: nat): set<nat>
    requires i <= |s|
    decreases |s| - i
  {
    if i == |s| then {}
    else (if IsFinalSigma(t, s, i) then {offset} else {}) + FinalSigmas(t, s, i + 1, offset + |t.lower(s[i])|)
  }

  lemma {:induction false} FinalSigmasFrom(t: Tables, s: string, i: nat, offset: nat)
    requires i <= |s| && IsUnicode(t)
    ensures forall k :: k in FinalSigmas(t, s, i, offset) ==>
                          offset <= k < offset + |LowerChars(t.lower, s[i..])|
    ensures |WholeLower(t, s, i)| == |LowerChars(t.lower, s[i..])|
    ensures forall k :: 0 <= k < |WholeLower(t, s, i)| ==>
                          if offset + k in FinalSigmas(t, s, i, offset)
                          then WholeLower(t, s, i)[k] == FINAL_SIGMA && LowerChars(t.lower, s[i..])[k] == SMALL_SIGMA
                          else WholeLower(t, s, i)[k] == LowerChars(t.lower, s[i..])[k]
    decreases |s| - i
  {
    if i < |s| {
      var w := |t.lower(s[i])|;
      FinalSigmasFrom(t, s, i + 1, offset + w);
      assert s[i..][0] == s[i] && s[i..][1..] == s[i + 1..];
      var tail, low := WholeLower(t, s, i + 1), LowerChars(t.lower, s[i + 1..]);
      assert LowerChars(t.lower, s[i..]) == t.lower(s[i]) + low;
      var whole := WholeLower(t, s, i);
      forall k | 0 <= k < |whole|
        ensures if offset + k in FinalSigmas(t, s, i, offset)
                then whole[k] == FINAL_SIGMA && LowerChars(t.lower, s[i..])[k] == SMALL_SIGMA
                else whole[k] == LowerChars(t.lower, s[i..])[k]
      {
        var later := FinalSigmas(t, s, i + 1, offset + w);
        if k >= w {
          assert whole[k] == tail[k - w];
          assert LowerChars(t.lower, s[i..])[k] == low[k - w];
          assert offset + k == (offset + w) + (k - w);
          assert offset + k in FinalSigmas(t, s, i, offset) <==> offset + k in later;
        } else {
          assert offset + k !in later;
        }
      }
    }
  }

  /** The hash input is the lowered name with final sigmas in their places. */
  lemma HashInputShape(t: Tables, s: string)
    requires IsUnicode(t)
    ensures |HashInput(t, s)| == |LowerChars(t.lower, s)|
    ensures forall k :: k in FinalSigmas(t, s, 0, 0) <==>
                          0 <= k < |HashInput(t, s)| && HashInput(t, s)[k] == FINAL_SIGMA
                          && LowerChars(t.lower, s)[k] == SMALL_SIGMA
    ensures forall k :: 0 <= k < |HashInput(t, s)| && k !in FinalSigmas(t, s, 0, 0) ==>
                          HashInput(t, s)[k] == LowerChars(t.lower, s)[k]
  {
    FinalSigmasFrom(t, s, 0, 0);
    assert s[0..] == s;
    forall k | 0 <= k < |HashInput(t, s)|
      ensures if k in FinalSigmas(t, s, 0, 0)
              then HashInput(t, s)[k] == FINAL_SIGMA && LowerChars(t.lower, s)[k] == SMALL_SIGMA
              else HashInput(t, s)[k] == LowerChars(t.lower, s)[k]
    {
      assert 0 + k == k;
    }
  }

  /** Equal names feed equal text to the hasher exactly when their capital sigmas at word ends
      fall on the same places; in particular whenever neither has one. */
  lemma EqualNamesHashEqually(t: Tables, a: string, b: string)
    requires IsUnicode(t) && SameName(t.lower, a, b)
    ensures HashInput(t, a) == HashInput(t, b) <==> FinalSigmas(t, a, 0, 0) == FinalSigmas(t, b, 0, 0)
    ensures CAPITAL_SIGMA !in a && CAPITAL_SIGMA !in b ==> HashInput(t, a) == HashInput(t, b)
  {
    ComparisonIsPreorder(t.lower, a, b, b);
    HashInputShape(t, a);
    HashInputShape(t, b);
    if FinalSigmas(t, a, 0, 0) == FinalSigmas(t, b, 0, 0) {
      assert HashInput(t, a) == HashInput(t, b);
    }
    if HashInput(t, a) == HashInput(t, b) {
      assert FinalSigmas(t, a, 0, 0) == FinalSigmas(t, b, 0, 0);
    }
    if CAPITAL_SIGMA !in a && CAPITAL_SIGMA !in b {
      NoCapitalSigma(t, a, 0, 0);
      NoCapitalSigma(t, b, 0, 0);
    }
  }

  lemma {:induction false} NoCapitalSigma(t: Tables, s: string, i: nat, offset: nat)
    requires i <= |s| && CAPITAL_SIGMA !in s
    ensures FinalSigmas(t, s, i, offset) == {}
    decreases |s| - i
  {
    if i < |s| {
      assert s[i] in s;
      NoCapitalSigma(t, s, i + 1, offset + |t.lower(s[i])|);
    }
  }

  const CAPITAL_ALPHA := '\U{0391}'
  const SMALL_ALPHA := '\U{03B1}'

  /** What Unicode says of alpha and sigma. */
  ghost predicate KnowsGreek(t: Tables) {
    && IsUnicode(t) && t.lower(SMALL_SIGMA) == [SMALL_SIGMA]
    && t.lower(CAPITAL_ALPHA) == [SMALL_ALPHA] && t.lower(SMALL_ALPHA) == [SMALL_ALPHA]
    && t.cased(CAPITAL_ALPHA) && !t.ignorable(CAPITAL_ALPHA)
  }

  /** Two equal names with different hash input, under any tables that agree with Unicode on alpha and
      sigma: the two letters in capitals and in small letters. */
  lemma SigmaBreaksHashing(t: Tables)
    requires KnowsGreek(t)
    ensures var a, b := [CAPITAL_ALPHA, CAPITAL_SIGMA], [SMALL_ALPHA, SMALL_SIGMA];
            SameName(t.lower, a, b) && HashInput(t, a) != HashInput(t, b)
  {
    var a, b := [CAPITAL_ALPHA, CAPITAL_SIGMA], [SMALL_ALPHA, SMALL_SIGMA];
    assert a[1..] == [CAPITAL_SIGMA] && b[1..] == [SMALL_SIGMA];
    assert a[1..][1..] == "" && b[1..][1..] == "";
    assert LowerChars(t.lower, a) == [SMALL_ALPHA] + ([SMALL_SIGMA] + LowerChars(t.lower, ""));
    assert LowerChars(t.lower, b) == [SMALL_ALPHA] + ([SMALL_SIGMA] + LowerChars(t.lower, ""));
    ComparisonIsPreorder(t.lower, a, b, b);
    assert a[..1] == [CAPITAL_ALPHA] && a[2..] == "";
    assert IsFinalSigma(t, a, 1);
    HashInputShape(t, a);
    HashInputShape(t, b);
    assert 1 in FinalSigmas(t, a, 1, 1);
    assert 1 in FinalSigmas(t, a, 0, 0);
    NoCapitalSigma(t, b, 0, 0);
    assert HashInput(t, a)[1] == FINAL_SIGMA;
    assert HashInput(t, b)[1] == SMALL_SIGMA;
  }
}
