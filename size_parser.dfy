/** The size heuristic of the feed parser (RssParserBase.ParseSize and
    ConvertToBytes).

    The source scans its text with the case-insensitive regular expression
      (?<value>\d+\.\d{1,2}|\d+\,\d+\.\d{1,2}|\d+)\W?(?<unit>GB|MB|GiB|MiB)
    takes the first (leftmost) match, strips the commas from the value,
    parses it as an en-US decimal and scales it by 1024^2 (MB,
    MiB) or 1024^3 (GB, GiB).

    Here the expression is given twice: `IsMatch` says declaratively every
    way the expression can match at a position, and `MatchAt` is a
    hand-written recogniser that tries the three value alternatives in the
    expression's order. `MatchAtSound` and `MatchAtComplete` prove that the
    two agree, so a match at a position is unique and the alternation order
    cannot change which one the engine reports. Characters are classified
    as in ASCII. */
module SizeParser {
  import opened Wrappers
  import opened Text

  const Int64Max: int := 0x7FFF_FFFF_FFFF_FFFF

  /** Convert.ToInt64 throws OverflowException above the range of long. */
  datatype SizeError = Overflow

  /** `\w` over ASCII: letters, digits and the underscore. */
  predicate IsWordChar(c: char) {
    IsDigit(c) || ('a' <= c <= 'z') || ('A' <= c <= 'Z') || c == '_'
  }

  /** ASCII lower-casing, the case folding that IgnoreCase applies to the
      unit letters. */
  function Lower(c: char): char {
    if 'A' <= c <= 'Z' then (c as int + 32) as char else c
  }

  /** `word` (written in lower case) occurs at `i`, ignoring case. */
  predicate TextAt(s: string, i: nat, word: string) {
    i + |word| <= |s| && LowerString(s[i..i + |word|]) == word
  }

  function LowerString(t: string): (r: string)
    ensures |r| == |t| && forall k :: 0 <= k < |t| ==> r[k] == Lower(t[k])
  {
    seq(|t|, k requires 0 <= k < |t| => Lower(t[k]))
  }

  /** The unit group `GB|MB|GiB|MiB` spans s[i..j]. */
  predicate IsUnit(s: string, i: nat, j: nat) {
    || (j == i + 2 && (TextAt(s, i, "gb") || TextAt(s, i, "mb")))
    || (j == i + 3 && (TextAt(s, i, "gib") || TextAt(s, i, "mib")))
  }

  /** The unit alternation tried in the expression's order; the end of the
      unit that starts at `i`, if any. */
  function UnitEnd(s: string, i: nat): (r: Option<nat>)
    ensures forall j: nat :: r == Some(j) <==> IsUnit(s, i, j)
    ensures r.Some? ==> i < |s| && IsWordChar(s[i]) && !IsDigit(s[i])
  {
    UnitLetters(s, i);
    if TextAt(s, i, "gb") then Some(i + 2)
    else if TextAt(s, i, "mb") then Some(i + 2)
    else if TextAt(s, i, "gib") then Some(i + 3)
    else if TextAt(s, i, "mib") then Some(i + 3)
    else None
  }

  lemma LowerLetter(c: char)
    requires 'a' <= Lower(c) <= 'z'
    ensures IsWordChar(c) && !IsDigit(c)
  {
    if !('A' <= c <= 'Z') { assert Lower(c) == c; }
  }

  /** A unit starts with a letter (a word character, not a digit), and the
      four units exclude each other at one position. */
  lemma UnitLetters(s: string, i: nat)
    ensures TextAt(s, i, "gb") || TextAt(s, i, "mb") || TextAt(s, i, "gib") || TextAt(s, i, "mib")
      ==> i < |s| && IsWordChar(s[i]) && !IsDigit(s[i])
    ensures TextAt(s, i, "gb") ==> !TextAt(s, i, "mb") && !TextAt(s, i, "gib") && !TextAt(s, i, "mib")
    ensures TextAt(s, i, "mb") ==> !TextAt(s, i, "gib") && !TextAt(s, i, "mib")
    ensures TextAt(s, i, "gib") ==> !TextAt(s, i, "mib")
  {
    if i + 1 < |s| {
      var w := LowerString(s[i..i + 2]);
      assert w[0] == Lower(s[i]) && w[1] == Lower(s[i + 1]);
      if i + 3 <= |s| {
        var w3 := LowerString(s[i..i + 3]);
        assert w3[0] == Lower(s[i]) && w3[1] == Lower(s[i + 1]);
      }
      if TextAt(s, i, "gb") || TextAt(s, i, "mb") || TextAt(s, i, "gib") || TextAt(s, i, "mib") {
        assert Lower(s[i]) == 'g' || Lower(s[i]) == 'm';
        LowerLetter(s[i]);
      }
    }
  }

  /** The end of the run of digits that starts at `i` (greedy `\d*`). */
  function DigitRunEnd(s: string, i: nat): (j: nat)
    requires i <= |s|
    ensures i <= j <= |s|
    ensures forall k :: i <= k < j ==> IsDigit(s[k])
    ensures j == |s| || !IsDigit(s[j])
    decreases |s| - i
  {
    if i < |s| && IsDigit(s[i]) then DigitRunEnd(s, i + 1) else i
  }

  // ---------------------------------------------------------------------
  // The expression, declaratively

  /** `\d+` spans s[i..j]. */
  ghost predicate Digits(s: string, i: nat, j: nat) {
    i < j <= |s| && forall k :: i <= k < j ==> IsDigit(s[k])
  }

  /** `\d+\.\d{1,2}` spans s[p..e], its dot at `d`. */
  ghost predicate DottedValue(s: string, p: nat, d: nat, e: nat) {
    Digits(s, p, d) && d < |s| && s[d] == '.' && Digits(s, d + 1, e) && e <= d + 3
  }

  /** `\d+\,\d+\.\d{1,2}` spans s[p..e], its comma at `c`, its dot at `d`. */
  ghost predicate GroupedValue(s: string, p: nat, c: nat, d: nat, e: nat) {
    Digits(s, p, c) && c < |s| && s[c] == ',' && DottedValue(s, c + 1, d, e)
  }

  /** The value group spans s[p..e] by one of its three alternatives. */
  ghost predicate IsValue(s: string, p: nat, e: nat) {
    || (exists d :: DottedValue(s, p, d, e))
    || (exists c, d :: GroupedValue(s, p, c, d, e))
    || Digits(s, p, e)
  }

  /** `\W?(?<unit>GB|MB|GiB|MiB)` after a value that ends at `e`, the unit
      spanning s[us..ue]. */
  ghost predicate Tail(s: string, e: nat, us: nat, ue: nat) {
    (us == e || (us == e + 1 && e < |s| && !IsWordChar(s[e]))) && IsUnit(s, us, ue)
  }

  /** The whole expression matches at `p`: value s[p..e], unit s[us..ue]. */
  ghost predicate IsMatch(s: string, p: nat, e: nat, us: nat, ue: nat) {
    IsValue(s, p, e) && Tail(s, e, us, ue)
  }

  // ---------------------------------------------------------------------
  // The recogniser

  datatype SizeMatch = SizeMatch(valueEnd: nat, unitStart: nat, unitEnd: nat)

  /** `\W?` (greedy: one non-word character if the unit then follows) and
      the unit, after a value that ends at `e`. */
  function TailAt(s: string, e: nat): (r: Option<(nat, nat)>)
  {
    if e < |s| && !IsWordChar(s[e]) && UnitEnd(s, e + 1).Some? then Some((e + 1, UnitEnd(s, e + 1).value))
    else if UnitEnd(s, e).Some? then Some((e, UnitEnd(s, e).value))
    else None
  }

  /** `\.\d{1,2}` with the dot at `dot`, followed by the tail. */
  function FractionTail(s: string, dot: nat): (r: Option<SizeMatch>)
    requires dot < |s|
  {
    var e := DigitRunEnd(s, dot + 1);
    if dot + 1 < e <= dot + 3 then
      match TailAt(s, e)
      case None => None
      case Some((us, ue)) => Some(SizeMatch(e, us, ue))
    else None
  }

  /** The first alternative, `\d+\.\d{1,2}`, once the integer digits
      end at `a`. */
  function DottedAt(s: string, a: nat): Option<SizeMatch> {
    if a < |s| && s[a] == '.' then FractionTail(s, a) else None
  }

  /** The second alternative, `\d+\,\d+\.\d{1,2}`, once the integer
      digits end at `a`. */
  function GroupedAt(s: string, a: nat): Option<SizeMatch> {
    if a + 1 < |s| && s[a] == ',' && IsDigit(s[a + 1]) then
      var b := DigitRunEnd(s, a + 1);
      if b < |s| && s[b] == '.' then FractionTail(s, b) else None
    else None
  }

  /** The third alternative, `\d+`, ending at `a`. */
  function BareAt(s: string, a: nat): Option<SizeMatch> {
    match TailAt(s, a)
    case None => None
    case Some((us, ue)) => Some(SizeMatch(a, us, ue))
  }

  /** The match that starts at `p`, trying the three alternatives in the
      expression's order. */
  function MatchAt(s: string, p: nat): (r: Option<SizeMatch>)
    ensures r.Some? ==> p < |s|
  {
    if p >= |s| || !IsDigit(s[p]) then None
    else
      var a := DigitRunEnd(s, p);
      if DottedAt(s, a).Some? then DottedAt(s, a)
      else if GroupedAt(s, a).Some? then GroupedAt(s, a)
      else BareAt(s, a)
  }

  lemma TailAtSound(s: string, e: nat)
    requires TailAt(s, e).Some?
    ensures Tail(s, e, TailAt(s, e).value.0, TailAt(s, e).value.1)
  {
  }

  lemma TailAtComplete(s: string, e: nat, us: nat, ue: nat)
    requires Tail(s, e, us, ue)
    ensures TailAt(s, e) == Some((us, ue))
    ensures e < |s| && !IsDigit(s[e])
  {
    if us == e {
      assert UnitEnd(s, e) == Some(ue);
    } else {
      assert UnitEnd(s, e + 1) == Some(ue);
    }
  }

  /** A run of digits that is followed by a non-digit is the greedy run. */
  lemma RunEnd(s: string, i: nat, j: nat)
    requires Digits(s, i, j) && (j == |s| || !IsDigit(s[j]))
    ensures DigitRunEnd(s, i) == j
  {
  }

  lemma FractionTailSound(s: string, dot: nat)
    requires dot < |s| && FractionTail(s, dot).Some?
    ensures var m := FractionTail(s, dot).value;
      Digits(s, dot + 1, m.valueEnd) && m.valueEnd <= dot + 3 && Tail(s, m.valueEnd, m.unitStart, m.unitEnd)
  {
    TailAtSound(s, DigitRunEnd(s, dot + 1));
  }

  lemma FractionTailComplete(s: string, dot: nat, e: nat, us: nat, ue: nat)
    requires dot < |s| && Digits(s, dot + 1, e) && e <= dot + 3 && Tail(s, e, us, ue)
    ensures FractionTail(s, dot) == Some(SizeMatch(e, us, ue))
  {
    TailAtComplete(s, e, us, ue);
    RunEnd(s, dot + 1, e);
  }

  /** Whatever the recogniser reports is a match of the expression. */
  lemma MatchAtSound(s: string, p: nat)
    requires MatchAt(s, p).Some?
    ensures var m := MatchAt(s, p).value;
      IsMatch(s, p, m.valueEnd, m.unitStart, m.unitEnd)
  {
    var a := DigitRunEnd(s, p);
    assert Digits(s, p, a);
    if DottedAt(s, a).Some? {
      DottedAtSound(s, p, a);
    } else if GroupedAt(s, a).Some? {
      GroupedAtSound(s, p, a);
    } else {
      TailAtSound(s, a);
    }
  }

  lemma DottedAtSound(s: string, p: nat, a: nat)
    requires Digits(s, p, a) && DottedAt(s, a).Some?
    ensures var m := DottedAt(s, a).value;
      DottedValue(s, p, a, m.valueEnd) && Tail(s, m.valueEnd, m.unitStart, m.unitEnd)
  {
    FractionTailSound(s, a);
  }

  lemma GroupedAtSound(s: string, p: nat, a: nat)
    requires Digits(s, p, a) && GroupedAt(s, a).Some?
    ensures var m := GroupedAt(s, a).value;
      GroupedValue(s, p, a, DigitRunEnd(s, a + 1), m.valueEnd) && Tail(s, m.valueEnd, m.unitStart, m.unitEnd)
  {
    FractionTailSound(s, DigitRunEnd(s, a + 1));
  }

  /** Every match of the expression at `p` is the one the recogniser
      reports; in particular a match at `p` is unique. */
  lemma MatchAtComplete(s: string, p: nat, e: nat, us: nat, ue: nat)
    requires IsMatch(s, p, e, us, ue)
    ensures MatchAt(s, p) == Some(SizeMatch(e, us, ue))
  {
    if d: nat :| DottedValue(s, p, d, e) {
      DottedComplete(s, p, d, e, us, ue);
    } else if c: nat, d: nat :| GroupedValue(s, p, c, d, e) {
      GroupedComplete(s, p, c, d, e, us, ue);
    } else {
      BareComplete(s, p, e, us, ue);
    }
  }

  lemma DottedComplete(s: string, p: nat, d: nat, e: nat, us: nat, ue: nat)
    requires DottedValue(s, p, d, e) && Tail(s, e, us, ue)
    ensures MatchAt(s, p) == Some(SizeMatch(e, us, ue))
  {
    RunEnd(s, p, d);
    FractionTailComplete(s, d, e, us, ue);
  }

  lemma GroupedComplete(s: string, p: nat, c: nat, d: nat, e: nat, us: nat, ue: nat)
    requires GroupedValue(s, p, c, d, e) && Tail(s, e, us, ue)
    ensures MatchAt(s, p) == Some(SizeMatch(e, us, ue))
  {
    RunEnd(s, p, c);
    RunEnd(s, c + 1, d);
    FractionTailComplete(s, d, e, us, ue);
    assert DottedAt(s, c).None?;
  }

  lemma BareComplete(s: string, p: nat, e: nat, us: nat, ue: nat)
    requires Digits(s, p, e) && Tail(s, e, us, ue)
    ensures MatchAt(s, p) == Some(SizeMatch(e, us, ue))
  {
    TailAtComplete(s, e, us, ue);
    RunEnd(s, p, e);
    if s[e] == '.' || s[e] == ',' {
      assert us == e + 1 && !IsDigit(s[e + 1]);
      assert DigitRunEnd(s, e + 1) == e + 1;
    }
    assert DottedAt(s, e).None? && GroupedAt(s, e).None?;
  }

  /** The leftmost match at or after `from` (what Regex.Matches lists
      first). */
  function FirstMatch(s: string, from: nat): (r: Option<(nat, SizeMatch)>)
    ensures r.Some? ==> from <= r.value.0 < |s| && MatchAt(s, r.value.0) == Some(r.value.1)
    ensures r.Some? ==> forall q :: from <= q < r.value.0 ==> MatchAt(s, q).None?
    ensures r.None? ==> forall q :: from <= q < |s| ==> MatchAt(s, q).None?
    decreases |s| - from
  {
    if from >= |s| then None
    else
      match MatchAt(s, from)
      case Some(m) => Some((from, m))
      case None => FirstMatch(s, from + 1)
  }

  // ---------------------------------------------------------------------
  // The value and its conversion

  /** Regex.Replace(value, "\\,", ""): the value without its commas. */
  function RemoveCommas(t: string): (r: string)
    ensures ',' !in r
  {
    if |t| == 0 then []
    else RemoveCommas(t[..|t| - 1]) + (if t[|t| - 1] == ',' then [] else [t[|t| - 1]])
  }

  /** What Regex.Replace promises, and all that pins RemoveCommas down:
      removal distributes over concatenation, a text without commas is
      returned as it is, and a comma on its own is removed. So every
      character other than a comma stays, in order. */
  lemma RemoveCommasDefined(a: string, b: string)
    ensures RemoveCommas(a + b) == RemoveCommas(a) + RemoveCommas(b)
    ensures ',' !in a ==> RemoveCommas(a) == a
    ensures RemoveCommas([',']) == []
  {
    RemoveCommasAppend(a, b);
    if ',' !in a {
      RemoveCommasNone(a);
    }
    RemoveComma();
  }

  lemma {:induction false} RemoveCommasNone(t: string)
    requires ',' !in t
    ensures RemoveCommas(t) == t
  {
    if |t| > 0 {
      assert ',' !in t[..|t| - 1] by {
        forall k | 0 <= k < |t| - 1 ensures t[..|t| - 1][k] == t[k] { }
      }
      RemoveCommasNone(t[..|t| - 1]);
    }
  }

  /** A comma on its own is removed. */
  lemma RemoveComma()
    ensures RemoveCommas([',']) == []
  {
    assert [','][..0] == [];
  }

  lemma {:induction false} RemoveCommasAppend(a: string, b: string)
    ensures RemoveCommas(a + b) == RemoveCommas(a) + RemoveCommas(b)
  {
    if |b| > 0 {
      assert (a + b)[..|a + b| - 1] == a + b[..|b| - 1];
      RemoveCommasAppend(a, b[..|b| - 1]);
    } else {
      assert a + b == a;
    }
  }

  /** The texts Decimal.Parse with the en-US culture meets here: digits,
      optionally followed by a dot and one or two digits. */
  predicate IsDecimalText(t: string) {
    || (|t| > 0 && AllDigits(t))
    || (|t| >= 3 && t[|t| - 2] == '.' && AllDigits(t[..|t| - 2]) && IsDigit(t[|t| - 1]))
    || (|t| >= 4 && t[|t| - 3] == '.' && AllDigits(t[..|t| - 3]) && AllDigits(t[|t| - 2..]))
  }

  /** Decimal.Parse of such a text, exactly, in hundredths. */
  function DecimalHundredths(t: string): nat
    requires IsDecimalText(t)
  {
    if |t| >= 3 && t[|t| - 2] == '.' then ParseNat(t[..|t| - 2]) * 100 + DigitValue(t[|t| - 1]) * 10
    else if |t| >= 4 && t[|t| - 3] == '.' then ParseNat(t[..|t| - 3]) * 100 + ParseNat(t[|t| - 2..])
    else ParseNat(t) * 100
  }

  /** Decimal.Parse reads an integer part and up to two fraction digits
      exactly: the value in hundredths is the integer part times 100 plus
      the fraction scaled to hundredths. */
  lemma DecimalValue(i: string, f: string)
    requires |i| > 0 && AllDigits(i) && AllDigits(f) && |f| <= 2
    ensures |f| == 0 ==> IsDecimalText(i) && DecimalHundredths(i) == ParseNat(i) * 100
    ensures |f| == 1 ==> IsDecimalText(i + "." + f) && DecimalHundredths(i + "." + f) == ParseNat(i) * 100 + ParseNat(f) * 10
    ensures |f| == 2 ==> IsDecimalText(i + "." + f) && DecimalHundredths(i + "." + f) == ParseNat(i) * 100 + ParseNat(f)
  {
    if |f| == 0 {
      DecimalWhole(i);
    } else if |f| == 1 {
      DecimalOneDigit(i, f);
    } else {
      DecimalTwoDigits(i, f);
    }
  }

  lemma DecimalWhole(i: string)
    requires |i| > 0 && AllDigits(i)
    ensures IsDecimalText(i) && DecimalHundredths(i) == ParseNat(i) * 100
  {
    if |i| >= 3 {
      assert IsDigit(i[|i| - 2]);
    }
    if |i| >= 4 {
      assert IsDigit(i[|i| - 3]);
    }
  }

  lemma DecimalOneDigit(i: string, f: string)
    requires |i| > 0 && AllDigits(i) && AllDigits(f) && |f| == 1
    ensures IsDecimalText(i + "." + f) && DecimalHundredths(i + "." + f) == ParseNat(i) * 100 + ParseNat(f) * 10
  {
    var t := i + "." + f;
    assert t[..|t| - 2] == i && t[|t| - 2] == '.' && t[|t| - 1] == f[0];
    assert f[..0] == [];
    assert ParseNat(f) == DigitValue(f[0]);
  }

  lemma DecimalTwoDigits(i: string, f: string)
    requires |i| > 0 && AllDigits(i) && AllDigits(f) && |f| == 2
    ensures IsDecimalText(i + "." + f) && DecimalHundredths(i + "." + f) == ParseNat(i) * 100 + ParseNat(f)
  {
    var t := i + "." + f;
    assert t[..|t| - 3] == i && t[|t| - 3] == '.' && t[|t| - 2..] == f;
    assert t[|t| - 2] == f[0] && IsDigit(f[0]);
  }

  /** Digits around a single dot that has one or two digits after it form
      a decimal text. */
  lemma DecimalShape(t: string, j: nat)
    requires 0 < j < |t| && t[j] == '.' && |t| - j - 1 in {1, 2}
    requires forall k :: 0 <= k < |t| && k != j ==> IsDigit(t[k])
    ensures IsDecimalText(t)
  {
    if |t| - j - 1 == 1 {
      assert AllDigits(t[..|t| - 2]);
    } else {
      assert AllDigits(t[..|t| - 3]);
      assert AllDigits(t[|t| - 2..]);
    }
  }

  /** The value text of a match, commas removed, is a decimal text. */
  lemma ValueText(s: string, p: nat, e: nat)
    requires IsValue(s, p, e)
    ensures IsDecimalText(RemoveCommas(s[p..e]))
  {
    if d: nat :| DottedValue(s, p, d, e) {
      DottedValueText(s, p, d, e);
    } else if c: nat, d: nat :| GroupedValue(s, p, c, d, e) {
      GroupedValueText(s, p, c, d, e);
    } else {
      DigitsValueText(s, p, e);
    }
  }

  lemma DigitsValueText(s: string, p: nat, e: nat)
    requires Digits(s, p, e)
    ensures IsDecimalText(RemoveCommas(s[p..e]))
  {
    var t := s[p..e];
    assert forall k :: 0 <= k < |t| ==> IsDigit(t[k]) by {
      forall k | 0 <= k < |t| ensures IsDigit(t[k]) {
        assert t[k] == s[p + k];
      }
    }
    assert ',' !in t;
    RemoveCommasNone(t);
  }

  lemma DottedValueText(s: string, p: nat, d: nat, e: nat)
    requires DottedValue(s, p, d, e)
    ensures ',' !in s[p..e]
    ensures IsDecimalText(RemoveCommas(s[p..e]))
  {
    var t := s[p..e];
    assert forall k :: 0 <= k < |t| && k != d - p ==> IsDigit(t[k]);
    assert ',' !in t;
    RemoveCommasNone(t);
    DecimalShape(t, d - p);
  }

  lemma GroupedValueText(s: string, p: nat, c: nat, d: nat, e: nat)
    requires GroupedValue(s, p, c, d, e)
    ensures IsDecimalText(RemoveCommas(s[p..e]))
  {
    var head, tail := s[p..c], s[c + 1..e];
    assert s[p..e] == head + [','] + tail;
    assert ',' !in head;
    DottedValueText(s, c + 1, d, e);
    RemoveOneComma(head, tail);
    var u := head + tail;
    var j := |head| + d - (c + 1);
    assert forall k :: 0 <= k < |u| && k != j ==> IsDigit(u[k]) by {
      forall k | 0 <= k < |u| && k != j ensures IsDigit(u[k]) {
        if k < |head| { assert u[k] == s[p + k]; } else { assert u[k] == s[c + 1 + (k - |head|)]; }
      }
    }
    DecimalShape(u, j);
  }

  lemma RemoveOneComma(head: string, tail: string)
    requires ',' !in head && ',' !in tail
    ensures RemoveCommas(head + [','] + tail) == head + tail
  {
    var comma: string := [','];
    RemoveCommasAppend(head + comma, tail);
    assert RemoveCommas(head + comma + tail) == RemoveCommas(head + comma) + RemoveCommas(tail);
    RemoveCommasAppend(head, comma);
    RemoveComma();
    RemoveCommasNone(head);
    RemoveCommasNone(tail);
    assert RemoveCommas(head + comma) == RemoveCommas(head);
  }

  /** 1024^power. */
  function Pow1024(power: nat): (m: nat)
    ensures m >= 1
  {
    if power == 0 then 1 else 1024 * Pow1024(power - 1)
  }

  /** `n` is the integer nearest to x / 100. */
  predicate NearestHundredth(x: int, n: int) {
    200 * n - 100 <= 2 * x < 200 * n + 100
  }

  /** ConvertToBytes(value, power) on the exact value (in hundredths)
      rather than on a double: the product is rounded to the nearest integer
      and Convert.ToInt64 overflows above the range of long. */
  function ConvertToBytes(hundredths: nat, power: nat): (r: Result<nat, SizeError>)
    ensures r.Success? ==> r.value <= Int64Max && NearestHundredth(hundredths * Pow1024(power), r.value)
    ensures r.Failure? ==> 2 * (hundredths * Pow1024(power)) >= 200 * Int64Max + 100
  {
    var bytes := (2 * (hundredths * Pow1024(power)) + 100) / 200;
    if bytes > Int64Max then Failure(Overflow) else Success(bytes)
  }

  /** No value reaches a tie between two integers for the powers the parser
      uses, so the rounding mode of Convert.ToInt64 (half to even) cannot
      make a difference. */
  lemma NoTies(hundredths: nat, power: nat)
    requires power >= 1
    ensures (2 * (hundredths * Pow1024(power))) % 200 != 100
  {
    var m := Pow1024(power - 1);
    assert Pow1024(power) == 8 * (128 * m);
    var y := hundredths * (128 * m);
    assert hundredths * Pow1024(power) == 8 * y;
  }

  /** Converting is monotonic in the value. */
  lemma ConvertMonotonic(v: nat, w: nat, power: nat)
    requires v <= w
    requires ConvertToBytes(w, power).Success?
    ensures ConvertToBytes(v, power).Success?
    ensures ConvertToBytes(v, power).value <= ConvertToBytes(w, power).value
  {
    var m := Pow1024(power);
    assert v * m <= w * m;
  }

  /** RssParserBase.ParseSize: 0 without a match; otherwise the first
      match's value, commas stripped, scaled by its unit. */
  function ParseSize(s: string): (r: Result<nat, SizeError>)
    ensures FirstMatch(s, 0).None? ==> r == Success(0)
  {
    match FirstMatch(s, 0)
    case None => Success(0)
    case Some((p, m)) => SizeOfMatch(s, p, m)
  }

  /** The size of a match: its value, commas stripped, scaled by its
      unit. */
  function SizeOfMatch(s: string, p: nat, m: SizeMatch): Result<nat, SizeError>
    requires MatchAt(s, p) == Some(m)
  {
    MatchAtSound(s, p);
    ValueText(s, p, m.valueEnd);
    var value := DecimalHundredths(RemoveCommas(s[p..m.valueEnd]));
    var unit := s[m.unitStart..m.unitEnd];
    if EqualsIgnoreCase(unit, "MB") || EqualsIgnoreCase(unit, "MiB") then ConvertToBytes(value, 2)
    else if EqualsIgnoreCase(unit, "GB") || EqualsIgnoreCase(unit, "GiB") then ConvertToBytes(value, 3)
    else Success(0)
  }

  /** String.Equals with StringComparison.InvariantCultureIgnoreCase, on
      ASCII. */
  predicate EqualsIgnoreCase(a: string, b: string) {
    LowerString(a) == LowerString(b)
  }

  /** The size the source reports for the first match of the expression:
      MB and MiB scale the value by 1024^2, GB and GiB by 1024^3, whatever
      the case of the unit's letters. */
  lemma ParseSizeOfFirstMatch(s: string, p: nat, e: nat, us: nat, ue: nat)
    requires IsMatch(s, p, e, us, ue)
    requires forall q: nat, e': nat, us': nat, ue': nat :: q < p ==> !IsMatch(s, q, e', us', ue')
    ensures IsDecimalText(RemoveCommas(s[p..e]))
    ensures var value := DecimalHundredths(RemoveCommas(s[p..e]));
      && (Lower(s[us]) == 'm' ==> ParseSize(s) == ConvertToBytes(value, 2))
      && (Lower(s[us]) == 'g' ==> ParseSize(s) == ConvertToBytes(value, 3))
      && (Lower(s[us]) == 'm' || Lower(s[us]) == 'g')
  {
    FirstMatchIs(s, p, e, us, ue);
    ParseSizeAt(s, p, SizeMatch(e, us, ue));
  }

  /** ParseSize in terms of the first match the recogniser reports. */
  lemma ParseSizeAt(s: string, p: nat, m: SizeMatch)
    requires FirstMatch(s, 0) == Some((p, m))
    ensures IsDecimalText(RemoveCommas(s[p..m.valueEnd]))
    ensures m.unitStart < |s| && (Lower(s[m.unitStart]) == 'm' || Lower(s[m.unitStart]) == 'g')
    ensures var value := DecimalHundredths(RemoveCommas(s[p..m.valueEnd]));
      ParseSize(s) == if Lower(s[m.unitStart]) == 'm' then ConvertToBytes(value, 2) else ConvertToBytes(value, 3)
  {
    assert ParseSize(s) == SizeOfMatch(s, p, m);
    SizeOfMatchUnit(s, p, m);
  }

  lemma SizeOfMatchUnit(s: string, p: nat, m: SizeMatch)
    requires MatchAt(s, p) == Some(m)
    ensures IsDecimalText(RemoveCommas(s[p..m.valueEnd]))
    ensures m.unitStart < |s| && (Lower(s[m.unitStart]) == 'm' || Lower(s[m.unitStart]) == 'g')
    ensures var value := DecimalHundredths(RemoveCommas(s[p..m.valueEnd]));
      SizeOfMatch(s, p, m) == if Lower(s[m.unitStart]) == 'm' then ConvertToBytes(value, 2) else ConvertToBytes(value, 3)
  {
    MatchAtSound(s, p);
    ValueText(s, p, m.valueEnd);
    UnitCase(s, m.unitStart, m.unitEnd);
    var value := DecimalHundredths(RemoveCommas(s[p..m.valueEnd]));
    if Lower(s[m.unitStart]) == 'm' {
      assert SizeOfMatch(s, p, m) == ConvertToBytes(value, 2);
    } else {
      assert SizeOfMatch(s, p, m) == ConvertToBytes(value, 3);
    }
  }

  /** The first match of the expression is the one the parser uses. */
  lemma FirstMatchIs(s: string, p: nat, e: nat, us: nat, ue: nat)
    requires IsMatch(s, p, e, us, ue)
    requires forall q: nat, e': nat, us': nat, ue': nat :: q < p ==> !IsMatch(s, q, e', us', ue')
    ensures FirstMatch(s, 0) == Some((p, SizeMatch(e, us, ue)))
  {
    MatchAtComplete(s, p, e, us, ue);
    forall q: nat | q < p ensures MatchAt(s, q).None? {
      if MatchAt(s, q).Some? {
        MatchAtSound(s, q);
      }
    }
  }

  lemma UnitCase(s: string, us: nat, ue: nat)
    requires IsUnit(s, us, ue)
    ensures us < |s|
    ensures Lower(s[us]) == 'm' || Lower(s[us]) == 'g'
    ensures EqualsIgnoreCase(s[us..ue], "MB") || EqualsIgnoreCase(s[us..ue], "MiB") <==> Lower(s[us]) == 'm'
    ensures Lower(s[us]) == 'g' ==> EqualsIgnoreCase(s[us..ue], "GB") || EqualsIgnoreCase(s[us..ue], "GiB")
  {
    var t := s[us..ue];
    var w := LowerString(t);
    assert w[0] == Lower(s[us]);
    assert LowerString("MB") == "mb" && LowerString("MiB") == "mib";
    assert LowerString("GB") == "gb" && LowerString("GiB") == "gib";
  }

  /** A text in which the expression matches nowhere has size 0. */
  lemma ParseSizeWithoutMatch(s: string)
    requires forall p: nat, e: nat, us: nat, ue: nat :: !IsMatch(s, p, e, us, ue)
    ensures ParseSize(s) == Success(0)
  {
    if FirstMatch(s, 0).Some? {
      MatchAtSound(s, FirstMatch(s, 0).value.0);
    }
  }

  /** "1.5 GB" is 1.5 * 1024^3 bytes. */
  lemma ExampleGigabytes()
    ensures ParseSize("1.5 GB") == Success(1610612736)
  {
    var s := "1.5 GB";
    ExampleGigabytesMatch(s);
    ParseSizeOfFirstMatch(s, 0, 3, 4, 6);
    assert s[0..3] == "1.5";
    ExampleDottedValue("1.5");
    assert Lower(s[4]) == 'g';
    ExampleConvert(150, 3, 1610612736);
  }

  lemma ExampleGigabytesMatch(s: string)
    requires s == "1.5 GB"
    ensures IsMatch(s, 0, 3, 4, 6)
  {
    assert DottedValue(s, 0, 1, 3);
    assert s[4..6] == "GB";
    assert LowerString("GB") == "gb";
  }

  lemma ExampleDottedValue(t: string)
    requires t == "1.5"
    ensures IsDecimalText(RemoveCommas(t)) && DecimalHundredths(RemoveCommas(t)) == 150
  {
    assert ',' !in t;
    RemoveCommasNone(t);
    assert t[..1] == "1" && "1"[..0] == "";
    assert ParseNat("1") == 1;
  }

  lemma ExampleDigitsValue(t: string)
    requires t == "234"
    ensures IsDecimalText(RemoveCommas(t)) && DecimalHundredths(RemoveCommas(t)) == 23400
  {
    assert ',' !in t;
    RemoveCommasNone(t);
    assert "23" + "4" == t && "2" + "3" == "23";
    ParseNatAppend("2", "3");
    ParseNatAppend("23", "4");
    DecimalWhole(t);
  }

  lemma ExampleConvert(hundredths: nat, power: nat, bytes: nat)
    requires || (hundredths == 150 && power == 3 && bytes == 1610612736)
             || (hundredths == 23400 && power == 2 && bytes == 245366784)
    ensures ConvertToBytes(hundredths, power) == Success(bytes)
  {
    assert Pow1024(2) == 1048576;
    assert Pow1024(3) == 1073741824;
  }

  /** The comma form needs a decimal part, so in "1,234 MB" the first match
      is "234 MB": the leading "1," is not part of the size. */
  lemma ExampleGroupedWithoutDecimals()
    ensures ParseSize("1,234 MB") == Success(234 * 1048576)
  {
    ExampleGroupedValue("1,234 MB");
    ExampleConvert(23400, 2, 245366784);
  }

  lemma ExampleGroupedValue(s: string)
    requires s == "1,234 MB"
    ensures ParseSize(s) == ConvertToBytes(23400, 2)
  {
    ExampleGroupedMatch(s);
    ParseSizeOfFirstMatch(s, 2, 5, 6, 8);
    assert s[2..5] == "234";
    ExampleDigitsValue("234");
    assert Lower(s[6]) == 'm';
  }

  lemma ExampleGroupedMatch(s: string)
    requires s == "1,234 MB"
    ensures IsMatch(s, 2, 5, 6, 8)
    ensures forall q: nat, e': nat, us': nat, ue': nat :: q < 2 ==> !IsMatch(s, q, e', us', ue')
  {
    assert Digits(s, 2, 5) && Tail(s, 5, 6, 8) by {
      assert s[6..8] == "MB";
      assert LowerString("MB") == "mb";
    }
    assert LowerString("MB") == "mb";
    ExampleNoMatchAtStart(s);
    forall q: nat, e': nat, us': nat, ue': nat | q < 2 ensures !IsMatch(s, q, e', us', ue') {
      if IsMatch(s, q, e', us', ue') {
        MatchAtComplete(s, q, e', us', ue');
      }
    }
  }

  lemma ExampleNoMatchAtStart(s: string)
    requires s == "1,234 MB"
    ensures MatchAt(s, 0).None? && MatchAt(s, 1).None?
  {
    assert DigitRunEnd(s, 1) == 1;
    assert DigitRunEnd(s, 0) == 1;
    assert DigitRunEnd(s, 5) == 5;
    assert DigitRunEnd(s, 4) == 5;
    assert DigitRunEnd(s, 3) == 5;
    assert DigitRunEnd(s, 2) == 5;
    assert !IsWordChar(s[1]) && IsDigit(s[2]);
    assert UnitEnd(s, 2) == None;
    assert UnitEnd(s, 1) == None;
  }
}
