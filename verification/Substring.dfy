/**
 Substring filters: the compilation of an LDAP substring assertion to a SQL LIKE
 pattern, and when the pattern means what the assertion means.
 */
module Substring {
  import opened Basics
  import opened Text

  datatype SubStringFilter = SubStringFilter(initial: Option<string>, any: seq<string>, final: Option<string>)

  function OrEmpty(part: Option<string>): string {
    if part.Some? then part.value else ""
  }

  // ---------- Compilation ----------

  function AnyPattern(any: seq<string>): string {
    if any == [] then "" else Lower(any[0]) + "%" + AnyPattern(any[1..])
  }

  /** The pattern: the parts in lower case, with `%` between and around the middle ones. */
  function Pattern(f: SubStringFilter): string {
    Lower(OrEmpty(f.initial)) + "%" + AnyPattern(f.any) + Lower(OrEmpty(f.final))
  }

  function Utf8Width(c: char): nat {
    var n := c as int;
    if n < 0x80 then 1 else if n < 0x800 then 2 else if n < 0x10000 then 3 else 4
  }

  /** The length of a string in bytes, which is what `String::len` counts. */
  function ByteLen(s: string): nat {
    if s == "" then 0 else Utf8Width(s[0]) + ByteLen(s[1..])
  }

  function SumByteLen(parts: seq<string>): nat {
    if parts == [] then 0 else ByteLen(parts[0]) + SumByteLen(parts[1..])
  }

  function Capacity(f: SubStringFilter): nat {
    ByteLen(OrEmpty(f.initial)) + 1 + SumByteLen(f.any) + |f.any| + ByteLen(OrEmpty(f.final))
  }

  lemma {:induction false} ByteLenConcat(a: string, b: string)
    ensures ByteLen(a + b) == ByteLen(a) + ByteLen(b)
  {
    if a == "" {
      assert a + b == b;
    } else {
      ByteLenConcat(a[1..], b);
      assert (a + b)[1..] == a[1..] + b;
    }
  }

  lemma {:induction false} ByteLenLower(s: string)
    ensures ByteLen(Lower(s)) == ByteLen(s)
  {
    if s != "" {
      ByteLenLower(s[1..]);
      assert Lower(s)[1..] == Lower(s[1..]);
    }
  }

  lemma {:induction false} AnyPatternSnoc(any: seq<string>, part: string)
    ensures AnyPattern(any + [part]) == AnyPattern(any) + Lower(part) + "%"
  {
    if any == [] {
      assert any + [part] == [part];
    } else {
      AnyPatternSnoc(any[1..], part);
      assert (any + [part])[0] == any[0] && (any + [part])[1..] == any[1..] + [part];
      Associative(Lower(any[0]) + "%", AnyPattern(any[1..]) + Lower(part), "%");
      Associative(Lower(any[0]) + "%", AnyPattern(any[1..]), Lower(part));
    }
  }

  lemma {:induction false} AnyPatternBytes(any: seq<string>)
    ensures ByteLen(AnyPattern(any)) == SumByteLen(any) + |any|
  {
    if any != [] {
      AnyPatternBytes(any[1..]);
      ByteLenLower(any[0]);
      ByteLenConcat(Lower(any[0]) + "%", AnyPattern(any[1..]));
      ByteLenConcat(Lower(any[0]), "%");
    }
  }

  lemma PatternBytes(f: SubStringFilter)
    ensures ByteLen(Pattern(f)) == Capacity(f)
  {
    var i, a, z := Lower(OrEmpty(f.initial)), AnyPattern(f.any), Lower(OrEmpty(f.final));
    ByteLenConcat(i + "%" + a, z);
    ByteLenConcat(i + "%", a);
    ByteLenConcat(i, "%");
    ByteLenLower(OrEmpty(f.initial));
    ByteLenLower(OrEmpty(f.final));
    AnyPatternBytes(f.any);
  }

  /** to_sql_filter: the source's string building. The reserved capacity is filled exactly. */
  method ToSqlFilter(f: SubStringFilter) returns (filter: string, reserved: nat)
    ensures filter == Pattern(f)
    ensures reserved == ByteLen(filter)
  {
    reserved := Capacity(f);
    filter := "";
    if f.initial.Some? {
      filter := filter + Lower(f.initial.value);
    }
    assert filter == Lower(OrEmpty(f.initial));
    filter := filter + "%";
    ghost var start := filter;
    for i := 0 to |f.any|
      invariant filter == start + AnyPattern(f.any[..i])
    {
      AnyPatternSnoc(f.any[..i], f.any[i]);
      assert f.any[..i + 1] == f.any[..i] + [f.any[i]];
      Associative(start, AnyPattern(f.any[..i]) + Lower(f.any[i]), "%");
      Associative(start, AnyPattern(f.any[..i]), Lower(f.any[i]));
      filter := filter + Lower(f.any[i]);
      filter := filter + "%";
    }
    assert f.any[..|f.any|] == f.any;
    ghost var body := filter;
    if f.final.Some? {
      filter := filter + Lower(f.final.value);
    }
    assert filter == body + Lower(OrEmpty(f.final));
    PatternBytes(f);
  }

  // ---------- SQL LIKE ----------

  datatype Token = Lit(c: char) | One | Run | Stray

  /** How a database reads a pattern. With `escapes` a backslash quotes the next character
      (PostgreSQL and MySQL); without, it is an ordinary character (SQLite). A backslash with
      nothing to quote matches nothing. */
  function Tokens(pattern: string, escapes: bool): seq<Token>
    decreases |pattern|
  {
    if pattern == "" then []
    else if pattern[0] == '%' then [Run] + Tokens(pattern[1..], escapes)
    else if pattern[0] == '_' then [One] + Tokens(pattern[1..], escapes)
    else if pattern[0] == '\\' && escapes then
      if |pattern| == 1 then [Stray] else [Lit(pattern[1])] + Tokens(pattern[2..], escapes)
    else [Lit(pattern[0])] + Tokens(pattern[1..], escapes)
  }

  predicate Matches(tokens: seq<Token>, text: string)
    decreases |tokens|, |text|
  {
    if tokens == [] then text == ""
    else match tokens[0]
      case Lit(c) => text != "" && text[0] == c && Matches(tokens[1..], text[1..])
      case One => text != "" && Matches(tokens[1..], text[1..])
      case Run => Matches(tokens[1..], text) || (text != "" && Matches(tokens, text[1..]))
      case Stray => false
  }

  predicate Like(pattern: string, text: string, escapes: bool) {
    Matches(Tokens(pattern, escapes), text)
  }

  // ---------- The meaning of the assertion ----------

  /** Middle parts in order with arbitrary gaps around them. */
  function Weave(gaps: seq<string>, any: seq<string>): string
    requires |gaps| == |any| + 1
  {
    if any == [] then gaps[0] else gaps[0] + Lower(any[0]) + Weave(gaps[1..], any[1..])
  }

  ghost predicate Woven(gaps: seq<string>, any: seq<string>, text: string) {
    |gaps| == |any| + 1 && text == Weave(gaps, any)
  }

  /** The text is the initial part, then the middle parts in order and without overlap, then the
      final part, with arbitrary text in the gaps (section 4.5.1.7.2 of RFC 4511). */
  ghost predicate Splits(f: SubStringFilter, text: string) {
    exists middle, gaps :: Woven(gaps, f.any, middle)
                           && text == Lower(OrEmpty(f.initial)) + middle + Lower(OrEmpty(f.final))
  }

  // ---------- The condition ----------

  predicate IsLiteral(s: string, escapes: bool) {
    Free(s, '%') && Free(s, '_') && (escapes ==> Free(s, '\\'))
  }

  /** No part holds a character the database gives a meaning to. */
  predicate IsLiteralFilter(f: SubStringFilter, escapes: bool) {
    && IsLiteral(OrEmpty(f.initial), escapes)
    && IsLiteral(OrEmpty(f.final), escapes)
    && forall i :: 0 <= i < |f.any| ==> IsLiteral(f.any[i], escapes)
  }

  // ---------- Literal filters keep their meaning ----------

  lemma LowerLiteral(s: string, escapes: bool)
    ensures IsLiteral(s, escapes) <==> IsLiteral(Lower(s), escapes)
  {
    forall c: char | c == '%' || c == '_' || c == '\\'
      ensures c in s <==> c in Lower(s)
    {
      if c in s {
        var i :| 0 <= i < |s| && s[i] == c;
        assert Lower(s)[i] == c;
      }
      if c in Lower(s) {
        var i :| 0 <= i < |s| && Lower(s)[i] == c;
        assert s[i] == c;
      }
    }
  }

  /** A literal prefix of a pattern matches itself. */
  lemma {:induction false} LikeLiteral(a: string, p: string, text: string, escapes: bool)
    requires IsLiteral(a, escapes)
    ensures Like(a + p, text, escapes) <==> a <= text && Like(p, text[|a|..], escapes)
  {
    if a == "" {
      assert a + p == p && text[0..] == text;
    } else {
      assert a[0] in a;
      assert forall c :: c in a[1..] ==> c in a;
      assert (a + p)[1..] == a[1..] + p;
      assert Tokens(a + p, escapes) == [Lit(a[0])] + Tokens(a[1..] + p, escapes);
      if text != "" {
        LikeLiteral(a[1..], p, text[1..], escapes);
        if a <= text { assert text[1..][|a| - 1..] == text[|a|..]; }
        if text[0] == a[0] && a[1..] <= text[1..] {
          assert a == [a[0]] + a[1..];
          assert text == [text[0]] + text[1..];
          assert a <= text;
        }
      }
    }
  }

  /** `%` matches any prefix. */
  lemma {:induction false} LikeRun(p: string, text: string, escapes: bool)
    ensures Like("%" + p, text, escapes) <==> exists k :: 0 <= k <= |text| && Like(p, text[k..], escapes)
    decreases |text|
  {
    assert ("%" + p)[1..] == p;
    var ts := Tokens(p, escapes);
    assert Tokens("%" + p, escapes) == [Run] + ts;
    assert ([Run] + ts)[1..] == ts;
    assert text[0..] == text;
    if text != "" {
      LikeRun(p, text[1..], escapes);
      if Like("%" + p, text[1..], escapes) {
        var k :| 0 <= k <= |text[1..]| && Like(p, text[1..][k..], escapes);
        assert text[1..][k..] == text[k + 1..];
      }
      if k :| 0 < k <= |text| && Like(p, text[k..], escapes) {
        assert text[k..] == text[1..][k - 1..];
      }
    }
  }

  lemma LikeWord(a: string, text: string, escapes: bool)
    requires IsLiteral(a, escapes)
    ensures Like(a, text, escapes) <==> text == a
  {
    assert a + "" == a;
    LikeLiteral(a, "", text, escapes);
    if a <= text {
      assert text == a + text[|a|..];
    }
  }

  /** The part of the pattern from the first `%` on: gaps, middle parts and the final part. */
  ghost predicate EndsWoven(any: seq<string>, last: string, text: string) {
    exists middle, gaps :: Woven(gaps, any, middle) && text == middle + last
  }

  lemma Cut(a: string, b: string, c: string)
    ensures (a + b + c)[|a|..] == b + c
    ensures (a + b + c)[|a|..][|b|..] == c
  {
  }

  lemma EndsWovenSplit(any: seq<string>, last: string, text: string) returns (k: nat)
    requires any != [] && EndsWoven(any, last, text)
    ensures k <= |text| && Lower(any[0]) <= text[k..]
    ensures EndsWoven(any[1..], last, text[k..][|any[0]|..])
  {
    var part := Lower(any[0]);
    var middle, gaps :| Woven(gaps, any, middle) && text == middle + last;
    var rest := Weave(gaps[1..], any[1..]);
    k := |gaps[0]|;
    assert text == gaps[0] + part + (rest + last);
    Cut(gaps[0], part, rest + last);
    assert Woven(gaps[1..], any[1..], rest);
  }

  lemma EndsWovenJoin(any: seq<string>, last: string, text: string, k: nat)
    requires any != [] && k <= |text| && Lower(any[0]) <= text[k..]
    requires EndsWoven(any[1..], last, text[k..][|any[0]|..])
    ensures EndsWoven(any, last, text)
  {
    var part := Lower(any[0]);
    var tail := text[k..][|part|..];
    var rest, gaps :| Woven(gaps, any[1..], rest) && tail == rest + last;
    var gaps' := [text[..k]] + gaps;
    assert gaps'[1..] == gaps;
    assert text[k..] == part + tail;
    assert text == text[..k] + text[k..];
    var middle := text[..k] + part + rest;
    assert Woven(gaps', any, middle);
    Associative(text[..k], part, rest + last);
    Associative(text[..k] + part, rest, last);
  }

  lemma EndsWovenStep(any: seq<string>, last: string, text: string)
    requires any != []
    ensures EndsWoven(any, last, text) <==>
              exists k :: 0 <= k <= |text| && Lower(any[0]) <= text[k..]
                          && EndsWoven(any[1..], last, text[k..][|any[0]|..])
  {
    if EndsWoven(any, last, text) {
      var k := EndsWovenSplit(any, last, text);
    }
    if k :| 0 <= k <= |text| && Lower(any[0]) <= text[k..]
            && EndsWoven(any[1..], last, text[k..][|any[0]|..]) {
      EndsWovenJoin(any, last, text, k);
    }
  }

  lemma {:induction false} LikeTail(any: seq<string>, last: string, text: string, escapes: bool)
    requires IsLiteral(last, escapes)
    requires forall i :: 0 <= i < |any| ==> IsLiteral(any[i], escapes)
    ensures Like("%" + AnyPattern(any) + last, text, escapes) <==> EndsWoven(any, last, text)
    decreases |any|
  {
    if any == [] {
      assert "%" + AnyPattern(any) + last == "%" + last;
      LikeRun(last, text, escapes);
      LikeTailEnd(last, text, escapes);
    } else {
      var part, rest := Lower(any[0]), "%" + AnyPattern(any[1..]) + last;
      assert "%" + AnyPattern(any) + last == "%" + (part + rest);
      LikeRun(part + rest, text, escapes);
      LowerLiteral(any[0], escapes);
      EndsWovenStep(any, last, text);
      forall k | 0 <= k <= |text|
        ensures Like(part + rest, text[k..], escapes) <==>
                  part <= text[k..] && EndsWoven(any[1..], last, text[k..][|part|..])
      {
        LikeLiteral(part, rest, text[k..], escapes);
        if part <= text[k..] {
          LikeTail(any[1..], last, text[k..][|part|..], escapes);
        }
      }
    }
  }

  lemma LikeTailEnd(last: string, text: string, escapes: bool)
    requires IsLiteral(last, escapes)
    ensures (exists k :: 0 <= k <= |text| && Like(last, text[k..], escapes)) <==> EndsWoven([], last, text)
  {
    if k :| 0 <= k <= |text| && Like(last, text[k..], escapes) {
      LikeWord(last, text[k..], escapes);
      assert Woven([text[..k]], [], text[..k]);
      assert text == text[..k] + last;
    }
    if EndsWoven([], last, text) {
      var middle, gaps :| Woven(gaps, [], middle) && text == middle + last;
      assert text[|middle|..] == last;
      LikeWord(last, text[|middle|..], escapes);
    }
  }

  /** For literal filters the pattern matches exactly the texts the assertion describes. */
  lemma LiteralFilterKeepsMeaning(f: SubStringFilter, text: string, escapes: bool)
    requires IsLiteralFilter(f, escapes)
    ensures Like(Pattern(f), text, escapes) <==> Splits(f, text)
  {
    var first, last := Lower(OrEmpty(f.initial)), Lower(OrEmpty(f.final));
    var rest := "%" + AnyPattern(f.any) + last;
    assert Pattern(f) == first + rest;
    LowerLiteral(OrEmpty(f.initial), escapes);
    LowerLiteral(OrEmpty(f.final), escapes);
    LikeLiteral(first, rest, text, escapes);
    SplitsByPrefix(f, text);
    if first <= text {
      LikeTail(f.any, last, text[|first|..], escapes);
    }
  }

  lemma SplitsByPrefix(f: SubStringFilter, text: string)
    ensures var first, last := Lower(OrEmpty(f.initial)), Lower(OrEmpty(f.final));
            Splits(f, text) <==> first <= text && EndsWoven(f.any, last, text[|first|..])
  {
    var first, last := Lower(OrEmpty(f.initial)), Lower(OrEmpty(f.final));
    if Splits(f, text) {
      var middle, gaps :| Woven(gaps, f.any, middle) && text == first + middle + last;
      Cut(first, middle, last);
    }
    if first <= text && EndsWoven(f.any, last, text[|first|..]) {
      var middle, gaps :| Woven(gaps, f.any, middle) && text[|first|..] == middle + last;
      assert text == first + text[|first|..];
      assert text == first + middle + last;
    }
  }

  // ---------- Other filters lose it ----------

  function Count(c: char, s: string): nat {
    if s == "" then 0 else (if s[0] == c then 1 else 0) + Count(c, s[1..])
  }

  lemma {:induction false} CountConcat(c: char, a: string, b: string)
    ensures Count(c, a + b) == Count(c, a) + Count(c, b)
  {
    if a == "" {
      assert a + b == b;
    } else {
      CountConcat(c, a[1..], b);
      assert (a + b)[1..] == a[1..] + b;
    }
  }

  lemma {:induction false} CountFree(c: char, s: string)
    ensures Count(c, s) == 0 <==> Free(s, c)
  {
    if s != "" {
      CountFree(c, s[1..]);
      assert s == [s[0]] + s[1..];
    }
  }

  function CountParts(c: char, any: seq<string>): nat {
    if any == [] then 0 else Count(c, Lower(any[0])) + CountParts(c, any[1..])
  }

  /** How often a character occurs in the parts of the filter. */
  function CountFilter(c: char, f: SubStringFilter): nat {
    Count(c, Lower(OrEmpty(f.initial))) + CountParts(c, f.any) + Count(c, Lower(OrEmpty(f.final)))
  }

  lemma {:induction false} CountWeave(c: char, gaps: seq<string>, any: seq<string>)
    requires |gaps| == |any| + 1
    ensures Count(c, Weave(gaps, any)) >= CountParts(c, any)
  {
    if any != [] {
      CountWeave(c, gaps[1..], any[1..]);
      CountConcat(c, gaps[0] + Lower(any[0]), Weave(gaps[1..], any[1..]));
      CountConcat(c, gaps[0], Lower(any[0]));
    }
  }

  lemma SplitsCount(c: char, f: SubStringFilter, text: string)
    requires Splits(f, text)
    ensures Count(c, text) >= CountFilter(c, f)
  {
    var first, last := Lower(OrEmpty(f.initial)), Lower(OrEmpty(f.final));
    var middle, gaps :| Woven(gaps, f.any, middle) && text == first + middle + last;
    CountWeave(c, gaps, f.any);
    CountConcat(c, first + middle, last);
    CountConcat(c, first, middle);
  }

  lemma {:induction false} CountAnyPattern(c: char, any: seq<string>)
    requires c != '%'
    ensures Count(c, AnyPattern(any)) == CountParts(c, any)
  {
    if any != [] {
      CountAnyPattern(c, any[1..]);
      CountConcat(c, Lower(any[0]) + "%", AnyPattern(any[1..]));
      CountConcat(c, Lower(any[0]), "%");
      assert Count(c, "%") == 0 by { assert "%"[1..] == ""; }
    }
  }

  lemma CountPattern(c: char, f: SubStringFilter)
    requires c != '%'
    ensures Count(c, Pattern(f)) == CountFilter(c, f)
  {
    var i, a, z := Lower(OrEmpty(f.initial)), AnyPattern(f.any), Lower(OrEmpty(f.final));
    CountConcat(c, i + "%" + a, z);
    CountConcat(c, i + "%", a);
    CountConcat(c, i, "%");
    assert Count(c, "%") == 0 by { assert "%"[1..] == ""; }
    CountAnyPattern(c, f.any);
  }

  lemma {:induction false} CountPartsLiteral(c: char, any: seq<string>)
    ensures CountParts(c, any) == 0 <==> forall i :: 0 <= i < |any| ==> Free(Lower(any[i]), c)
  {
    if any != [] {
      CountPartsLiteral(c, any[1..]);
      CountFree(c, Lower(any[0]));
      assert forall i :: 0 <= i < |any[1..]| ==> any[1..][i] == any[i + 1];
      if forall i :: 0 <= i < |any[1..]| ==> Free(Lower(any[1..][i]), c) {
        forall i | 1 <= i < |any|
          ensures Free(Lower(any[i]), c)
        {
          assert Free(Lower(any[1..][i - 1]), c);
        }
      }
    }
  }

  /** A filter is literal exactly when it counts none of the special characters. */
  lemma LiteralByCounting(f: SubStringFilter, escapes: bool)
    ensures IsLiteralFilter(f, escapes) <==>
              && CountFilter('%', f) == 0 && CountFilter('_', f) == 0
              && (escapes ==> CountFilter('\\', f) == 0)
  {
    CountFilterFree('%', f);
    CountFilterFree('_', f);
    CountFilterFree('\\', f);
    LowerLiteral(OrEmpty(f.initial), escapes);
    LowerLiteral(OrEmpty(f.final), escapes);
    forall i | 0 <= i < |f.any|
      ensures IsLiteral(f.any[i], escapes) <==> IsLiteral(Lower(f.any[i]), escapes)
    {
      LowerLiteral(f.any[i], escapes);
    }
  }

  lemma CountFilterFree(c: char, f: SubStringFilter)
    ensures CountFilter(c, f) == 0 <==>
              && Free(Lower(OrEmpty(f.initial)), c) && Free(Lower(OrEmpty(f.final)), c)
              && forall i :: 0 <= i < |f.any| ==> Free(Lower(f.any[i]), c)
  {
    CountFree(c, Lower(OrEmpty(f.initial)));
    CountFree(c, Lower(OrEmpty(f.final)));
    CountPartsLiteral(c, f.any);
  }

  /** A text the tokens match: nothing for a run, one fixed letter for a single wildcard. */
  function Sample(tokens: seq<Token>): string {
    if tokens == [] then ""
    else match tokens[0]
      case Lit(c) => [c] + Sample(tokens[1..])
      case One => "x" + Sample(tokens[1..])
      case Run => Sample(tokens[1..])
      case Stray => Sample(tokens[1..])
  }

  lemma {:induction false} SampleMatches(tokens: seq<Token>)
    requires Stray !in tokens
    ensures Matches(tokens, Sample(tokens))
  {
    if tokens != [] {
      assert tokens[0] in tokens;
      SampleMatches(tokens[1..]);
      if tokens[0].Lit? {
        assert Sample(tokens)[1..] == Sample(tokens[1..]);
      } else if tokens[0].One? {
        assert Sample(tokens)[1..] == Sample(tokens[1..]);
      }
    }
  }

  lemma {:induction false} StrayMatchesNothing(tokens: seq<Token>, text: string)
    requires Stray in tokens
    ensures !Matches(tokens, text)
    decreases |tokens|, |text|
  {
    assert tokens == [tokens[0]] + tokens[1..];
    if tokens[0] != Stray {
      if text != "" {
        StrayMatchesNothing(tokens[1..], text[1..]);
        if tokens[0] == Run { StrayMatchesNothing(tokens, text[1..]); }
      }
      StrayMatchesNothing(tokens[1..], text);
    }
  }

  /** Reading a pattern loses its wildcards, and at least half of its quoting backslashes. */
  lemma {:induction false} SampleCounts(pattern: string, escapes: bool)
    ensures !escapes || Free(pattern, '\\') ==>
              Count('%', Sample(Tokens(pattern, escapes))) == 0 && Count('_', Sample(Tokens(pattern, escapes))) == 0
    ensures escapes ==> 2 * Count('\\', Sample(Tokens(pattern, escapes))) <= Count('\\', pattern)
    decreases |pattern|
  {
    if pattern != "" {
      var ts := Tokens(pattern, escapes);
      assert pattern == [pattern[0]] + pattern[1..];
      if pattern[0] == '\\' && escapes {
        if |pattern| > 1 {
          SampleCounts(pattern[2..], escapes);
          assert ts[1..] == Tokens(pattern[2..], escapes);
          assert Sample(ts)[1..] == Sample(ts[1..]);
          assert pattern[1..][1..] == pattern[2..];
        }
      } else {
        SampleCounts(pattern[1..], escapes);
        assert ts[1..] == Tokens(pattern[1..], escapes);
        if pattern[0] != '%' {
          assert Sample(ts)[1..] == Sample(ts[1..]);
        }
      }
    }
  }

  function NoGaps(n: nat): (r: seq<string>)
    ensures |r| == n && forall i :: 0 <= i < n ==> r[i] == ""
  {
    seq(n, i => "")
  }

  lemma LowerTogether(a: string, b: string)
    requires IsLower(a) && IsLower(b)
    ensures IsLower(a + b)
  {
  }

  lemma {:induction false} AnyPatternIsLower(any: seq<string>)
    ensures IsLower(AnyPattern(any))
  {
    if any != [] {
      AnyPatternIsLower(any[1..]);
      LowerIsLower(any[0]);
      LowerTogether(Lower(any[0]), "%");
      LowerTogether(Lower(any[0]) + "%", AnyPattern(any[1..]));
    }
  }

  lemma PatternIsLower(f: SubStringFilter)
    ensures IsLower(Pattern(f))
  {
    var i, a, z := Lower(OrEmpty(f.initial)), AnyPattern(f.any), Lower(OrEmpty(f.final));
    LowerIsLower(OrEmpty(f.initial));
    LowerIsLower(OrEmpty(f.final));
    AnyPatternIsLower(f.any);
    LowerTogether(i, "%");
    LowerTogether(i + "%", a);
    LowerTogether(i + "%" + a, z);
  }

  lemma {:induction false} SampleIsLower(pattern: string, escapes: bool)
    requires IsLower(pattern)
    ensures IsLower(Sample(Tokens(pattern, escapes)))
    decreases |pattern|
  {
    if pattern != "" {
      var ts := Tokens(pattern, escapes);
      if pattern[0] == '\\' && escapes {
        if |pattern| > 1 {
          SampleIsLower(pattern[2..], escapes);
          assert ts[1..] == Tokens(pattern[2..], escapes);
          LowerTogether([pattern[1]], Sample(ts[1..]));
        }
      } else {
        SampleIsLower(pattern[1..], escapes);
        assert ts[1..] == Tokens(pattern[1..], escapes);
        LowerTogether(if pattern[0] == '_' then "x" else [pattern[0]], Sample(ts[1..]));
      }
    }
  }

  lemma {:induction false} WeaveIsLower(gaps: seq<string>, any: seq<string>)
    requires |gaps| == |any| + 1 && forall i :: 0 <= i < |gaps| ==> IsLower(gaps[i])
    ensures IsLower(Weave(gaps, any))
  {
    if any != [] {
      WeaveIsLower(gaps[1..], any[1..]);
      LowerIsLower(any[0]);
      LowerTogether(gaps[0], Lower(any[0]));
      LowerTogether(gaps[0] + Lower(any[0]), Weave(gaps[1..], any[1..]));
    }
  }

  lemma BareTextIsLower(f: SubStringFilter)
    ensures IsLower(Lower(OrEmpty(f.initial)) + Weave(NoGaps(|f.any| + 1), f.any) + Lower(OrEmpty(f.final)))
  {
    var i, m, z := Lower(OrEmpty(f.initial)), Weave(NoGaps(|f.any| + 1), f.any), Lower(OrEmpty(f.final));
    LowerIsLower(OrEmpty(f.initial));
    LowerIsLower(OrEmpty(f.final));
    WeaveIsLower(NoGaps(|f.any| + 1), f.any);
    LowerTogether(i, m);
    LowerTogether(i + m, z);
  }

  /** A filter with a special character somewhere matches the wrong texts, and does so among the
      lower-case texts it is compared with. */
  lemma OtherFiltersLoseMeaning(f: SubStringFilter, escapes: bool) returns (text: string)
    requires !IsLiteralFilter(f, escapes)
    ensures IsLower(text) && Like(Pattern(f), text, escapes) != Splits(f, text)
  {
    LiteralByCounting(f, escapes);
    var p := Pattern(f);
    var tokens := Tokens(p, escapes);
    if Stray in tokens {
      var middle := Weave(NoGaps(|f.any| + 1), f.any);
      text := Lower(OrEmpty(f.initial)) + middle + Lower(OrEmpty(f.final));
      assert Woven(NoGaps(|f.any| + 1), f.any, middle);
      StrayMatchesNothing(tokens, text);
      BareTextIsLower(f);
    } else {
      text := Sample(tokens);
      PatternIsLower(f);
      SampleIsLower(p, escapes);
      SampleMatches(tokens);
      SampleCounts(p, escapes);
      CountPattern('\\', f);
      CountFree('\\', p);
      if Splits(f, text) {
        SplitsCount('%', f, text);
        SplitsCount('_', f, text);
        SplitsCount('\\', f, text);
      }
    }
  }

  /** Compilation preserves the meaning of a filter exactly when no part of it holds a character
      that is special to the database. */
  lemma MeaningPreservedIff(f: SubStringFilter, escapes: bool)
    ensures (forall text :: Like(Pattern(f), text, escapes) <==> Splits(f, text)) <==> IsLiteralFilter(f, escapes)
    ensures (forall text :: IsLower(text) ==> (Like(Pattern(f), text, escapes) <==> Splits(f, text)))
            <==> IsLiteralFilter(f, escapes)
  {
    if IsLiteralFilter(f, escapes) {
      forall text
        ensures Like(Pattern(f), text, escapes) <==> Splits(f, text)
      {
        LiteralFilterKeepsMeaning(f, text, escapes);
      }
    } else {
      var text := OtherFiltersLoseMeaning(f, escapes);
    }
  }
}
