/**
 Distinguished names: the parser `parse_distinguished_name`, the printer every
 DN builder uses, and the normal form the two agree on.
 */
module Dn {
  import opened Text

  datatype Rdn = Rdn(attr: string, value: string)

  datatype DnError =
    | EmptyElement
    | MissingValue
    | TooManyElements(first: string, second: string, third: string)

  datatype Parsed<+T> = Ok(value: T) | Err(error: DnError)

  // ---------- Parsing ----------

  function TrimAll(items: seq<string>): (r: seq<string>)
    ensures |r| == |items|
    ensures forall i :: 0 <= i < |items| ==> r[i] == Trim(items[i])
  {
    seq(|items|, i requires 0 <= i < |items| => Trim(items[i]))
  }

  function MakeDnPair(items: seq<string>): Parsed<Rdn> {
    if |items| == 0 then Err(EmptyElement)
    else if |items| == 1 then Err(MissingValue)
    else if |items| > 2 then Err(TooManyElements(items[0], items[1], items[2]))
    else Ok(Rdn(items[0], items[1]))
  }

  function ParseRdn(s: string): Parsed<Rdn> {
    MakeDnPair(TrimAll(Split(s, '=')))
  }

  // Collecting results stops at the first error.
  function ParseRdns(pieces: seq<string>): Parsed<seq<Rdn>> {
    if pieces == [] then Ok([])
    else match ParseRdn(pieces[0])
      case Err(e) => Err(e)
      case Ok(rdn) =>
        match ParseRdns(pieces[1..])
        case Err(e) => Err(e)
        case Ok(rest) => Ok([rdn] + rest)
  }

  function ParseDn(dn: string): Parsed<seq<Rdn>> {
    ParseRdns(Split(Lower(dn), ','))
  }

  lemma ParseRdnOkIff(s: string)
    ensures ParseRdn(s).Ok? <==> |Split(s, '=')| == 2
  {
  }

  lemma {:induction false} ParseRdnsOkIff(pieces: seq<string>)
    ensures ParseRdns(pieces).Ok? <==> forall i :: 0 <= i < |pieces| ==> ParseRdn(pieces[i]).Ok?
  {
    if pieces != [] {
      var rest := pieces[1..];
      ParseRdnsOkIff(rest);
      assert forall i :: 0 <= i < |rest| ==> rest[i] == pieces[i + 1];
      assert forall i :: 1 <= i < |pieces| ==> pieces[i] == rest[i - 1];
    }
  }

  /** The first piece that does not parse, and its error. */
  ghost predicate FailsFirst(pieces: seq<string>, i: int, e: DnError) {
    && 0 <= i < |pieces| && ParseRdn(pieces[i]) == Err(e)
    && forall j :: 0 <= j < i ==> ParseRdn(pieces[j]).Ok?
  }

  lemma {:induction false} ParseRdnsFailure(pieces: seq<string>) returns (i: int)
    requires ParseRdns(pieces).Err?
    ensures FailsFirst(pieces, i, ParseRdns(pieces).error)
  {
    if ParseRdn(pieces[0]).Err? {
      i := 0;
    } else {
      i := ParseRdnsFailure(pieces[1..]);
      assert forall j :: 1 <= j < |pieces| ==> pieces[j] == pieces[1..][j - 1];
      i := i + 1;
    }
  }

  /** A DN is accepted exactly when each comma-separated piece has one `=`; the first piece that
      has not decides the error. */
  lemma ParseRdnsOutcome(pieces: seq<string>)
    ensures ParseRdns(pieces).Ok? <==>
              forall i :: 0 <= i < |pieces| ==> |Split(pieces[i], '=')| == 2
    ensures ParseRdns(pieces).Err? ==>
              exists i :: 0 <= i < |pieces|
                          && ParseRdn(pieces[i]) == Err(ParseRdns(pieces).error)
                          && (forall j :: 0 <= j < i ==> |Split(pieces[j], '=')| == 2)
  {
    ParseRdnsOkIff(pieces);
    forall i | 0 <= i < |pieces|
      ensures ParseRdn(pieces[i]).Ok? <==> |Split(pieces[i], '=')| == 2
    {
      ParseRdnOkIff(pieces[i]);
    }
    if ParseRdns(pieces).Err? {
      var i := ParseRdnsFailure(pieces);
    }
  }

  /** Which error a piece gives: `=` missing, or one too many, with the first three parts. */
  lemma ParseRdnError(s: string)
    ensures var parts := Split(s, '=');
            && (|parts| == 1 ==> ParseRdn(s) == Err(MissingValue))
            && (|parts| > 2 ==> ParseRdn(s) == Err(TooManyElements(Trim(parts[0]), Trim(parts[1]), Trim(parts[2]))))
  {
  }

  // ---------- Printing ----------

  function PrintRdn(r: Rdn): string {
    r.attr + "=" + r.value
  }

  function PrintAll(parts: seq<Rdn>): (r: seq<string>)
    ensures |r| == |parts|
    ensures forall i :: 0 <= i < |parts| ==> r[i] == PrintRdn(parts[i])
  {
    seq(|parts|, i requires 0 <= i < |parts| => PrintRdn(parts[i]))
  }

  function PrintDn(parts: seq<Rdn>): string {
    Join(PrintAll(parts), ',')
  }

  lemma PrintDnConcat(a: seq<Rdn>, b: seq<Rdn>)
    requires a != [] && b != []
    ensures PrintDn(a + b) == PrintDn(a) + "," + PrintDn(b)
  {
    assert PrintAll(a + b) == PrintAll(a) + PrintAll(b);
    JoinConcat(PrintAll(a), PrintAll(b), ',');
  }

  // ---------- Normal form ----------

  predicate IsNormalText(s: string) {
    IsLower(s) && IsTrimmed(s) && Free(s, ',') && Free(s, '=')
  }

  predicate IsNormalRdn(r: Rdn) {
    IsNormalText(r.attr) && IsNormalText(r.value)
  }

  predicate IsNormalDn(parts: seq<Rdn>) {
    forall i :: 0 <= i < |parts| ==> IsNormalRdn(parts[i])
  }

  lemma ParseRdnOk(s: string)
    ensures ParseRdn(s).Ok? ==> |Split(s, '=')| == 2
    ensures ParseRdn(s).Ok? ==>
              ParseRdn(s).value == Rdn(Trim(Split(s, '=')[0]), Trim(Split(s, '=')[1]))
  {
  }

  lemma TrimNormal(s: string)
    requires IsLower(s) && Free(s, ',') && Free(s, '=')
    ensures IsNormalText(Trim(s))
  {
    TrimTrims(s);
    var t := Trim(s);
    forall j | 0 <= j < |t|
      ensures !('A' <= t[j] <= 'Z')
    {
      assert t[j] in t;
      assert t[j] in s;
    }
  }

  lemma ParseRdnNormal(s: string)
    requires IsLower(s) && Free(s, ',') && ParseRdn(s).Ok?
    ensures IsNormalRdn(ParseRdn(s).value)
  {
    var items := Split(s, '=');
    SplitPieces(s, '=');
    SplitLower(s, '=');
    ParseRdnOk(s);
    forall i | 0 <= i < 2
      ensures IsNormalText(Trim(items[i]))
    {
      assert Free(items[i], ',') && Free(items[i], '=');
      TrimNormal(items[i]);
    }
  }

  lemma {:induction false} ParseRdnsNormal(pieces: seq<string>)
    requires forall i :: 0 <= i < |pieces| ==> IsLower(pieces[i]) && Free(pieces[i], ',')
    ensures ParseRdns(pieces).Ok? ==>
              |ParseRdns(pieces).value| == |pieces| && IsNormalDn(ParseRdns(pieces).value)
  {
    if pieces != [] && ParseRdns(pieces).Ok? {
      ParseRdnNormal(pieces[0]);
      ParseRdnsNormal(pieces[1..]);
    }
  }

  /** Every parsed DN has at least one part, and all its parts are in normal form. */
  lemma ParseDnNormal(dn: string)
    ensures ParseDn(dn).Ok? ==> ParseDn(dn).value != [] && IsNormalDn(ParseDn(dn).value)
  {
    var pieces := Split(Lower(dn), ',');
    LowerIsLower(dn);
    SplitLower(Lower(dn), ',');
    SplitPieces(Lower(dn), ',');
    assert forall i :: 0 <= i < |pieces| ==> Free(pieces[i], ',');
    ParseRdnsNormal(pieces);
  }

  lemma ParsePrintedRdn(r: Rdn)
    requires IsNormalRdn(r)
    ensures ParseRdn(PrintRdn(r)) == Ok(r)
    ensures Free(PrintRdn(r), ',') && IsLower(PrintRdn(r))
  {
    SplitFree(r.attr, '=');
    SplitFree(r.value, '=');
    SplitAt(r.attr, r.value, '=');
    TrimTrims(r.attr);
    TrimTrims(r.value);
    assert Split(PrintRdn(r), '=') == [r.attr, r.value];
  }

  lemma {:induction false} ParsePrintedRdns(parts: seq<Rdn>)
    requires IsNormalDn(parts)
    ensures ParseRdns(PrintAll(parts)) == Ok(parts)
  {
    if parts != [] {
      ParsePrintedRdn(parts[0]);
      assert PrintAll(parts)[1..] == PrintAll(parts[1..]);
      ParsePrintedRdns(parts[1..]);
      assert parts == [parts[0]] + parts[1..];
    } else {
      assert PrintAll(parts) == [];
    }
  }

  lemma PrintDnPieces(parts: seq<Rdn>)
    requires parts != [] && IsNormalDn(parts)
    ensures Lower(PrintDn(parts)) == PrintDn(parts)
    ensures Split(PrintDn(parts), ',') == PrintAll(parts)
  {
    var pieces := PrintAll(parts);
    forall i | 0 <= i < |pieces|
      ensures Free(pieces[i], ',') && IsLower(pieces[i])
    {
      ParsePrintedRdn(parts[i]);
    }
    SplitJoin(pieces, ',');
    JoinLower(pieces, ',');
    LowerIsLower(PrintDn(parts));
  }

  /** The DNs that survive printing and parsing are exactly the non-empty normal ones. */
  lemma PrintedDnParsesBack(parts: seq<Rdn>)
    ensures ParseDn(PrintDn(parts)) == Ok(parts) <==> parts != [] && IsNormalDn(parts)
  {
    if parts != [] && IsNormalDn(parts) {
      PrintDnPieces(parts);
      ParsePrintedRdns(parts);
    } else {
      ParseDnNormal(PrintDn(parts));
    }
  }

  /** Parsing reaches a normal form: printing the parts and parsing again changes nothing. */
  lemma ParseReachesNormalForm(dn: string)
    requires ParseDn(dn).Ok?
    ensures IsNormalDn(ParseDn(dn).value)
    ensures ParseDn(PrintDn(ParseDn(dn).value)) == ParseDn(dn)
    ensures ParseDn(Lower(dn)) == ParseDn(dn)
  {
    ParseDnNormal(dn);
    PrintedDnParsesBack(ParseDn(dn).value);
    LowerIsLower(dn);
    LowerIsLower(Lower(dn));
  }

  // ---------- White space is ignored ----------

  /** White space around the two halves of an RDN. */
  datatype Padding = Padding(p1: string, p2: string, p3: string, p4: string) {
    predicate Valid() {
      IsBlank(p1) && IsBlank(p2) && IsBlank(p3) && IsBlank(p4)
    }
  }

  function Padded(r: Rdn, pad: Padding): string {
    pad.p1 + r.attr + pad.p2 + "=" + (pad.p3 + r.value + pad.p4)
  }

  lemma PaddedText(a: string, s: string, b: string)
    requires IsBlank(a) && IsBlank(b) && IsNormalText(s)
    ensures Trim(a + s + b) == s
    ensures Free(a + s + b, ',') && Free(a + s + b, '=') && IsLower(a + s + b)
  {
    TrimPadded(a, s, b);
    BlankIsPlain(a, ',');
    BlankIsPlain(a, '=');
    BlankIsPlain(b, ',');
    BlankIsPlain(b, '=');
  }

  lemma PaddedRdnParses(r: Rdn, pad: Padding)
    requires IsNormalRdn(r) && pad.Valid()
    ensures ParseRdn(Padded(r, pad)) == Ok(r)
    ensures Free(Padded(r, pad), ',') && IsLower(Padded(r, pad))
  {
    var a, v := pad.p1 + r.attr + pad.p2, pad.p3 + r.value + pad.p4;
    PaddedText(pad.p1, r.attr, pad.p2);
    PaddedText(pad.p3, r.value, pad.p4);
    TwoHalvesParse(a, v);
  }

  lemma TwoHalvesParse(a: string, v: string)
    requires Free(a, '=') && Free(v, '=') && Free(a, ',') && Free(v, ',') && IsLower(a) && IsLower(v)
    ensures ParseRdn(a + "=" + v) == Ok(Rdn(Trim(a), Trim(v)))
    ensures Free(a + "=" + v, ',') && IsLower(a + "=" + v)
  {
    SplitFree(a, '=');
    SplitFree(v, '=');
    SplitAt(a, v, '=');
    assert Split(a + "=" + v, '=') == [a, v];
  }

  function PadAll(parts: seq<Rdn>, pads: seq<Padding>): (r: seq<string>)
    requires |parts| == |pads|
    ensures |r| == |parts|
    ensures forall i :: 0 <= i < |parts| ==> r[i] == Padded(parts[i], pads[i])
  {
    seq(|parts|, i requires 0 <= i < |parts| => Padded(parts[i], pads[i]))
  }

  ghost predicate AllValid(pads: seq<Padding>) {
    forall i :: 0 <= i < |pads| ==> pads[i].Valid()
  }

  lemma {:induction false} PaddedRdnsParse(parts: seq<Rdn>, pads: seq<Padding>)
    requires |parts| == |pads| && IsNormalDn(parts) && AllValid(pads)
    ensures ParseRdns(PadAll(parts, pads)) == Ok(parts)
  {
    if parts == [] {
      assert PadAll(parts, pads) == [];
    } else {
      PaddedRdnParses(parts[0], pads[0]);
      assert PadAll(parts, pads)[1..] == PadAll(parts[1..], pads[1..]);
      PaddedRdnsParse(parts[1..], pads[1..]);
      assert parts == [parts[0]] + parts[1..];
    }
  }

  /** The parser ignores white space around types and values, and letter case, and nothing more: any
      padding of any normal DN in any case parses to that DN. */
  lemma PaddedDnParses(parts: seq<Rdn>, pads: seq<Padding>, dn: string)
    requires parts != [] && |parts| == |pads| && IsNormalDn(parts) && AllValid(pads)
    requires Lower(dn) == Join(PadAll(parts, pads), ',')
    ensures ParseDn(dn) == Ok(parts)
  {
    var pieces := PadAll(parts, pads);
    forall i | 0 <= i < |pieces|
      ensures Free(pieces[i], ',') && IsLower(pieces[i])
    {
      PaddedRdnParses(parts[i], pads[i]);
    }
    SplitJoin(pieces, ',');
    PaddedRdnsParse(parts, pads);
  }

  lemma RdnIsPadded(s: string, r: Rdn) returns (pad: Padding)
    requires ParseRdn(s) == Ok(r)
    ensures pad.Valid() && s == Padded(r, pad)
  {
    ParseRdnOk(s);
    var items := Split(s, '=');
    var p1, p2 := TrimTakes(items[0]);
    var p3, p4 := TrimTakes(items[1]);
    pad := Padding(p1, p2, p3, p4);
    JoinSplit(s, '=');
    assert items == [items[0], items[1]] && [items[0], items[1]][1..] == [items[1]];
    assert s == items[0] + "=" + items[1];
  }

  lemma {:induction false} RdnsArePadded(pieces: seq<string>, parts: seq<Rdn>) returns (pads: seq<Padding>)
    requires ParseRdns(pieces) == Ok(parts)
    ensures |parts| == |pads| && AllValid(pads) && pieces == PadAll(parts, pads)
  {
    if pieces == [] {
      pads := [];
    } else {
      var pad := RdnIsPadded(pieces[0], ParseRdn(pieces[0]).value);
      var rest := RdnsArePadded(pieces[1..], parts[1..]);
      pads := [pad] + rest;
      PadAllCons(parts[0], parts[1..], pad, rest);
      assert pieces == [pieces[0]] + pieces[1..] && parts == [parts[0]] + parts[1..];
    }
  }

  lemma PadAllCons(r: Rdn, parts: seq<Rdn>, pad: Padding, pads: seq<Padding>)
    requires |parts| == |pads|
    ensures PadAll([r] + parts, [pad] + pads) == [Padded(r, pad)] + PadAll(parts, pads)
    ensures pad.Valid() && AllValid(pads) ==> AllValid([pad] + pads)
  {
  }

  /** The texts that parse to a DN are exactly its paddings, in any letter case. */
  lemma ParsesToIff(dn: string, parts: seq<Rdn>)
    ensures ParseDn(dn) == Ok(parts) <==>
              && parts != [] && IsNormalDn(parts)
              && exists pads :: |pads| == |parts| && AllValid(pads) && Lower(dn) == Join(PadAll(parts, pads), ',')
  {
    if ParseDn(dn) == Ok(parts) {
      ParseDnNormal(dn);
      var pads := RdnsArePadded(Split(Lower(dn), ','), parts);
      JoinSplit(Lower(dn), ',');
    } else if parts != [] && IsNormalDn(parts) {
      if pads :| |pads| == |parts| && AllValid(pads) && Lower(dn) == Join(PadAll(parts, pads), ',') {
        PaddedDnParses(parts, pads, dn);
      }
    }
  }

  /** Printing is injective on normal DNs. */
  lemma PrintDnInjective(a: seq<Rdn>, b: seq<Rdn>)
    requires a != [] && b != [] && IsNormalDn(a) && IsNormalDn(b)
    requires PrintDn(a) == PrintDn(b)
    ensures a == b
  {
    PrintedDnParsesBack(a);
    PrintedDnParsesBack(b);
  }
}
