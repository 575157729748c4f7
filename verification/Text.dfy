/**
 The string operations the directory code is built from: ASCII lower-casing,
 trimming, splitting on a character and joining, with the laws relating them.
 A string is a sequence of Unicode scalar values.
 */
module Text {

  lemma Associative<T>(a: seq<T>, b: seq<T>, c: seq<T>)
    ensures a + (b + c) == a + b + c
  {
  }

  // ---------- ASCII case ----------

  function LowerChar(c: char): char {
    if 'A' <= c <= 'Z' then (c as int + 32) as char else c
  }

  function Lower(s: string): (r: string)
    ensures |r| == |s|
    ensures forall i :: 0 <= i < |s| ==> r[i] == LowerChar(s[i])
  {
    seq(|s|, i requires 0 <= i < |s| => LowerChar(s[i]))
  }

  predicate IsLower(s: string) {
    forall i :: 0 <= i < |s| ==> !('A' <= s[i] <= 'Z')
  }

  predicate EqFold(a: string, b: string) {
    Lower(a) == Lower(b)
  }

  lemma LowerIsLower(s: string)
    ensures IsLower(Lower(s))
    ensures IsLower(s) ==> Lower(s) == s
  {
  }

  /** Which letter becomes which. */
  lemma AlphabetLowered()
    ensures Lower("ABCDEFGHIJKLMNOPQRSTUVWXYZ") == "abcdefghijklmnopqrstuvwxyz"
  {
  }

  lemma LowerConcat(a: string, b: string)
    ensures Lower(a + b) == Lower(a) + Lower(b)
  {
  }

  // ---------- White space ----------

  // The Unicode White_Space property, which `str::trim` uses.
  predicate IsSpace(c: char) {
    var n := c as int;
    || 0x09 <= n <= 0x0D || n == 0x20 || n == 0x85 || n == 0xA0 || n == 0x1680
    || 0x2000 <= n <= 0x200A || n == 0x2028 || n == 0x2029 || n == 0x202F
    || n == 0x205F || n == 0x3000
  }

  predicate IsTrimmed(s: string) {
    s == "" || (!IsSpace(s[0]) && !IsSpace(s[|s| - 1]))
  }

  function TrimStart(s: string): string {
    if s != "" && IsSpace(s[0]) then TrimStart(s[1..]) else s
  }

  function TrimEnd(s: string): string {
    if s != "" && IsSpace(s[|s| - 1]) then TrimEnd(s[..|s| - 1]) else s
  }

  function Trim(s: string): string {
    TrimEnd(TrimStart(s))
  }

  lemma {:induction false} TrimStartShape(s: string)
    ensures TrimStart(s) == "" || !IsSpace(TrimStart(s)[0])
    ensures forall c :: c in TrimStart(s) ==> c in s
  {
    if s != "" && IsSpace(s[0]) {
      TrimStartShape(s[1..]);
    }
  }

  lemma {:induction false} TrimEndShape(s: string)
    ensures TrimEnd(s) <= s
    ensures TrimEnd(s) == "" || !IsSpace(TrimEnd(s)[|TrimEnd(s)| - 1])
  {
    if s != "" && IsSpace(s[|s| - 1]) {
      TrimEndShape(s[..|s| - 1]);
    }
  }

  /** Trimming leaves a trimmed string made of the same characters, and changes nothing else. */
  lemma TrimTrims(s: string)
    ensures IsTrimmed(Trim(s))
    ensures forall c :: c in Trim(s) ==> c in s
    ensures IsTrimmed(s) ==> Trim(s) == s
  {
    TrimStartShape(s);
    TrimEndShape(TrimStart(s));
  }

  /** The characters with the property, one by one. */
  const WHITE_SPACE: set<char> :=
    {'\t', '\n', '\U{000B}', '\U{000C}', '\r', ' ', '\U{0085}', '\U{00A0}', '\U{1680}',
     '\U{2000}', '\U{2001}', '\U{2002}', '\U{2003}', '\U{2004}', '\U{2005}', '\U{2006}', '\U{2007}',
     '\U{2008}', '\U{2009}', '\U{200A}', '\U{2028}', '\U{2029}', '\U{202F}', '\U{205F}', '\U{3000}'}

  lemma IsSpaceExact(c: char)
    ensures IsSpace(c) <==> c in WHITE_SPACE
  {
    var n := c as int;
    assert c == n as char;
  }

  /** Nothing but white space. */
  predicate IsBlank(s: string) {
    forall i :: 0 <= i < |s| ==> s[i] in WHITE_SPACE
  }

  lemma {:induction false} TrimStartPadded(a: string, s: string)
    requires IsBlank(a) && (s == "" || !IsSpace(s[0]))
    ensures TrimStart(a + s) == s
  {
    if a == "" {
      assert a + s == s;
    } else {
      IsSpaceExact(a[0]);
      assert (a + s)[1..] == a[1..] + s;
      TrimStartPadded(a[1..], s);
    }
  }

  lemma {:induction false} TrimEndPadded(s: string, b: string)
    requires IsBlank(b) && (s == "" || !IsSpace(s[|s| - 1]))
    ensures TrimEnd(s + b) == s
  {
    if b == "" {
      assert s + b == s;
    } else {
      IsSpaceExact(b[|b| - 1]);
      assert (s + b)[..|s + b| - 1] == s + b[..|b| - 1];
      TrimEndPadded(s, b[..|b| - 1]);
    }
  }

  /** Trimming removes white space around a trimmed string. */
  lemma TrimPadded(a: string, s: string, b: string)
    requires IsBlank(a) && IsBlank(b) && IsTrimmed(s)
    ensures Trim(a + s + b) == s
  {
    if s == "" {
      assert a + s + b == (a + b) + "";
      TrimStartPadded(a + b, "");
    } else {
      Associative(a, s, b);
      TrimStartPadded(a, s + b);
      TrimEndPadded(s, b);
    }
  }

  lemma {:induction false} TrimStartTakes(s: string) returns (a: string)
    ensures IsBlank(a) && s == a + TrimStart(s)
  {
    if s != "" && IsSpace(s[0]) {
      IsSpaceExact(s[0]);
      var rest := TrimStartTakes(s[1..]);
      a := [s[0]] + rest;
      Associative([s[0]], rest, TrimStart(s));
      assert s == [s[0]] + s[1..];
    } else {
      a := "";
    }
  }

  lemma {:induction false} TrimEndTakes(s: string) returns (b: string)
    ensures IsBlank(b) && s == TrimEnd(s) + b
  {
    if s != "" && IsSpace(s[|s| - 1]) {
      IsSpaceExact(s[|s| - 1]);
      var rest := TrimEndTakes(s[..|s| - 1]);
      b := rest + [s[|s| - 1]];
      Associative(TrimEnd(s), rest, [s[|s| - 1]]);
      assert s == s[..|s| - 1] + [s[|s| - 1]];
    } else {
      b := "";
    }
  }

  /** And nothing else. */
  lemma TrimTakes(s: string) returns (a: string, b: string)
    ensures IsBlank(a) && IsBlank(b) && s == a + Trim(s) + b
  {
    a := TrimStartTakes(s);
    b := TrimEndTakes(TrimStart(s));
    Associative(a, Trim(s), b);
  }

  lemma BlankIsPlain(s: string, c: char)
    requires IsBlank(s) && !IsSpace(c)
    ensures Free(s, c) && IsLower(s)
  {
    forall i | 0 <= i < |s|
      ensures s[i] != c && !('A' <= s[i] <= 'Z')
    {
      IsSpaceExact(s[i]);
    }
  }

  // ---------- Splitting and joining ----------

  predicate Free(s: string, c: char) {
    c !in s
  }

  predicate AllFree(parts: seq<string>, c: char) {
    forall i :: 0 <= i < |parts| ==> Free(parts[i], c)
  }

  function Split(s: string, sep: char): (r: seq<string>)
    ensures |r| >= 1
  {
    if s == "" then [""]
    else
      var rest := Split(s[1..], sep);
      if s[0] == sep then [""] + rest else [[s[0]] + rest[0]] + rest[1..]
  }

  function Join(parts: seq<string>, sep: char): string {
    if |parts| == 0 then ""
    else if |parts| == 1 then parts[0]
    else parts[0] + [sep] + Join(parts[1..], sep)
  }

  lemma {:induction false} SplitPieces(s: string, sep: char)
    ensures AllFree(Split(s, sep), sep)
    ensures forall i, c :: 0 <= i < |Split(s, sep)| && c in Split(s, sep)[i] ==> c in s
  {
    if s != "" {
      SplitPieces(s[1..], sep);
      var rest, whole := Split(s[1..], sep), Split(s, sep);
      assert s == [s[0]] + s[1..];
      forall i | 0 <= i < |whole|
        ensures Free(whole[i], sep) && (forall c :: c in whole[i] ==> c in s)
      {
        if s[0] == sep {
          if i > 0 { assert whole[i] == rest[i - 1]; }
        } else if i == 0 {
          assert whole[0] == [s[0]] + rest[0];
        } else {
          assert whole[i] == rest[i];
        }
      }
    }
  }

  lemma {:induction false} SplitFree(s: string, sep: char)
    requires Free(s, sep)
    ensures Split(s, sep) == [s]
  {
    if s != "" {
      SplitFree(s[1..], sep);
      assert [s[0]] + s[1..] == s;
    }
  }

  /** Splitting at a separator splits the two sides independently. */
  lemma {:induction false} SplitAt(a: string, b: string, sep: char)
    ensures Split(a + [sep] + b, sep) == Split(a, sep) + Split(b, sep)
  {
    var whole := a + [sep] + b;
    if a == "" {
      assert whole[1..] == b;
    } else {
      SplitAt(a[1..], b, sep);
      assert whole[1..] == a[1..] + [sep] + b;
      assert whole[0] == a[0];
      var rest, other := Split(a[1..], sep), Split(b, sep);
      if a[0] == sep {
        Associative([""], rest, other);
      } else {
        assert (rest + other)[0] == rest[0] && (rest + other)[1..] == rest[1..] + other;
        Associative([[a[0]] + rest[0]], rest[1..], other);
      }
    }
  }

  /** `split` undoes `join` on separator-free pieces. */
  lemma {:induction false} SplitJoin(parts: seq<string>, sep: char)
    requires |parts| >= 1 && AllFree(parts, sep)
    ensures Split(Join(parts, sep), sep) == parts
  {
    assert Free(parts[0], sep);
    SplitFree(parts[0], sep);
    if |parts| > 1 {
      forall i | 0 <= i < |parts| - 1
        ensures Free(parts[1..][i], sep)
      {
        assert Free(parts[i + 1], sep);
      }
      SplitJoin(parts[1..], sep);
      SplitAt(parts[0], Join(parts[1..], sep), sep);
      assert parts == [parts[0]] + parts[1..];
    }
  }

  /** `join` undoes `split` on every string. */
  lemma {:induction false} JoinSplit(s: string, sep: char)
    ensures Join(Split(s, sep), sep) == s
  {
    if s != "" {
      JoinSplit(s[1..], sep);
      var rest := Split(s[1..], sep);
      if s[0] == sep {
        assert ([""] + rest)[1..] == rest;
      } else {
        assert ([[s[0]] + rest[0]] + rest[1..])[1..] == rest[1..];
      }
      assert s == [s[0]] + s[1..];
    }
  }

  lemma {:induction false} JoinConcat(a: seq<string>, b: seq<string>, sep: char)
    requires |a| >= 1 && |b| >= 1
    ensures Join(a + b, sep) == Join(a, sep) + [sep] + Join(b, sep)
  {
    if |a| == 1 {
      assert (a + b)[1..] == b;
    } else {
      JoinConcat(a[1..], b, sep);
      assert (a + b)[1..] == a[1..] + b;
    }
  }

  lemma {:induction false} JoinChars(parts: seq<string>, sep: char, c: char)
    requires c in Join(parts, sep)
    ensures c == sep || exists i :: 0 <= i < |parts| && c in parts[i]
  {
    if |parts| > 1 {
      if c !in parts[0] && c != sep {
        JoinChars(parts[1..], sep, c);
        var i :| 0 <= i < |parts[1..]| && c in parts[1..][i];
        assert c in parts[i + 1];
      }
    }
  }

  lemma {:induction false} JoinLower(parts: seq<string>, sep: char)
    requires forall i :: 0 <= i < |parts| ==> IsLower(parts[i])
    requires IsLower([sep])
    ensures IsLower(Join(parts, sep))
  {
    if |parts| > 1 {
      JoinLower(parts[1..], sep);
      assert !('A' <= [sep][0] <= 'Z');
    }
  }

  lemma {:induction false} SplitLower(s: string, sep: char)
    requires IsLower(s)
    ensures forall i :: 0 <= i < |Split(s, sep)| ==> IsLower(Split(s, sep)[i])
  {
    SplitPieces(s, sep);
    var r := Split(s, sep);
    forall i | 0 <= i < |r|
      ensures IsLower(r[i])
    {
      forall j | 0 <= j < |r[i]|
        ensures !('A' <= r[i][j] <= 'Z')
      {
        var c := r[i][j];
        assert c in Split(s, sep)[i];
        assert c in s;
        var k :| 0 <= k < |s| && s[k] == c;
      }
    }
  }

  // ---------- Reversal ----------

  function Reverse<T>(s: seq<T>): (r: seq<T>)
    ensures |r| == |s|
    ensures forall i :: 0 <= i < |s| ==> r[i] == s[|s| - 1 - i]
  {
    seq(|s|, i requires 0 <= i < |s| => s[|s| - 1 - i])
  }
}
