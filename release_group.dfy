/** The release-group heuristic of the feed parser
    (RssParserBase.ParseReleaseGroup): the group is the text after the last
    '-' of the trimmed title (or after its last space when it has no '-'),
    trimmed of dashes, spaces and square brackets. */
module ReleaseGroup {

  /** The characters .NET's Char.IsWhiteSpace accepts, which is what
      String.Trim() removes: the space separators, the line and paragraph
      separators, U+0009 to U+000D and U+0085. */
  predicate IsWhiteSpace(c: char) {
    var u := c as int;
    u == 0x20 || (0x09 <= u <= 0x0D) || u == 0x85 || u == 0xA0 || u == 0x1680
    || (0x2000 <= u <= 0x200A) || u == 0x2028 || u == 0x2029 || u == 0x202F
    || u == 0x205F || u == 0x3000
  }

  /** The characters of `group.Trim('-', ' ', '[', ']')`. */
  predicate IsGroupTrimChar(c: char) {
    c == '-' || c == ' ' || c == '[' || c == ']'
  }

  /** The first position at or after `i` whose character is kept, or |s|. */
  function FirstKept(s: string, drop: char -> bool, i: nat): (n: nat)
    requires i <= |s|
    ensures i <= n <= |s|
    ensures forall k :: i <= k < n ==> drop(s[k])
    ensures n == |s| || !drop(s[n])
    decreases |s| - i
  {
    if i < |s| && drop(s[i]) then FirstKept(s, drop, i + 1) else i
  }

  /** The end of s[..j] once its trailing dropped characters are cut. */
  function KeptEnd(s: string, drop: char -> bool, j: nat): (n: nat)
    requires j <= |s|
    ensures n <= j
    ensures forall k :: n <= k < j ==> drop(s[k])
    ensures n == 0 || !drop(s[n - 1])
  {
    if j > 0 && drop(s[j - 1]) then KeptEnd(s, drop, j - 1) else j
  }

  /** String.Trim with a set of characters: the text between the first and
      the last kept character, or "" when every character is dropped. */
  function Trim(s: string, drop: char -> bool): string {
    var start, end := FirstKept(s, drop, 0), KeptEnd(s, drop, |s|);
    if start < end then s[start..end] else []
  }

  /** Trim keeps a contiguous piece s[k..k + |r|] of `s`; neither end of
      the piece is dropped, everything cut away is, and the result is empty
      only when every character is dropped. */
  lemma TrimShape(s: string, drop: char -> bool)
    ensures var r, k := Trim(s, drop), FirstKept(s, drop, 0);
      && (r == [] || (!drop(r[0]) && !drop(r[|r| - 1])))
      && k + |r| <= |s| && r == s[k..k + |r|]
      && (forall i :: 0 <= i < k ==> drop(s[i]))
      && (forall i :: k + |r| <= i < |s| ==> drop(s[i]))
      && (r == [] <==> forall i :: 0 <= i < |s| ==> drop(s[i]))
  {
    var start, end := FirstKept(s, drop, 0), KeptEnd(s, drop, |s|);
    if start < end {
      assert !drop(s[start]);
    } else if |s| > 0 {
      assert start == |s| || end == 0 || start >= end;
    }
  }

  /** String.Trim(): whitespace removed from both ends. */
  function TrimWhiteSpace(s: string): string {
    Trim(s, IsWhiteSpace)
  }

  /** String.LastIndexOf(char): the position of the last `c` in `s`, or -1. */
  function LastIndexOf(s: string, c: char): (r: int)
    ensures -1 <= r < |s|
    ensures r >= 0 ==> s[r] == c
    ensures forall i :: r < i < |s| ==> s[i] != c
  {
    if |s| == 0 then -1
    else if s[|s| - 1] == c then |s| - 1
    else LastIndexOf(s[..|s| - 1], c)
  }

  /** The separator position the source uses: the last '-' of the trimmed
      title, else its last space, else -1. */
  function SeparatorIndex(t: string): (r: int)
    ensures -1 <= r < |t|
  {
    var index := LastIndexOf(t, '-');
    if index < 0 then LastIndexOf(t, ' ') else index
  }

  /** RssParserBase.ParseReleaseGroup: the heuristic on the trimmed title. */
  function ParseReleaseGroup(title: string): string {
    GroupOf(TrimWhiteSpace(title))
  }

  /** The heuristic once the title is trimmed, with its length guard as
      written. */
  function GroupOf(t: string): string {
    GroupAt(t, SeparatorIndex(t))
  }

  /** The group for the separator position `index` (-1 for none). */
  function GroupAt(t: string, index: int): string
    requires -1 <= index < |t|
  {
    if index < 0 then ""
    else
      var group := t[index + 1..];
      if |group| == |t| then "" else Trim(group, IsGroupTrimChar)
  }

  /** A title without a separator has no group; a group never starts or
      ends with a trimmed character and never contains a '-'. */
  lemma GroupShape(title: string)
    ensures var t := TrimWhiteSpace(title);
      '-' !in t && ' ' !in t ==> ParseReleaseGroup(title) == ""
    ensures var r := ParseReleaseGroup(title);
      r == [] || (!IsGroupTrimChar(r[0]) && !IsGroupTrimChar(r[|r| - 1]))
    ensures '-' !in ParseReleaseGroup(title)
  {
    GroupOfShape(TrimWhiteSpace(title));
  }

  lemma GroupOfShape(t: string)
    ensures '-' !in t && ' ' !in t ==> GroupOf(t) == ""
    ensures var r := GroupOf(t);
      r == [] || (!IsGroupTrimChar(r[0]) && !IsGroupTrimChar(r[|r| - 1]))
    ensures '-' !in GroupOf(t)
  {
    if '-' !in t && ' ' !in t {
      NoSeparator(t);
    }
    var index := SeparatorIndex(t);
    if index < 0 {
      assert GroupOf(t) == "";
    } else {
      GroupOfAfterSeparator(t, index);
    }
  }

  lemma GroupOfAfterSeparator(t: string, index: nat)
    requires index < |t| && SeparatorIndex(t) == index
    ensures var r := GroupOf(t);
      r == [] || (!IsGroupTrimChar(r[0]) && !IsGroupTrimChar(r[|r| - 1]))
    ensures '-' !in GroupOf(t)
  {
    GroupOfAt(t, index);
    TrimShape(t[index + 1..], IsGroupTrimChar);
    NoDashAfterSeparator(t);
    TrimKeepsOut(t[index + 1..], IsGroupTrimChar, '-');
  }

  /** With no '-' and no ' ' there is no separator. */
  lemma NoSeparator(t: string)
    requires '-' !in t && ' ' !in t
    ensures SeparatorIndex(t) == -1
  {
    LastIndexAbsent(t, '-');
    LastIndexAbsent(t, ' ');
  }

  /** A character the text does not contain has no last index. */
  lemma LastIndexAbsent(s: string, c: char)
    requires c !in s
    ensures LastIndexOf(s, c) == -1
  {
  }

  /** Nothing after the separator is a '-'. */
  lemma NoDashAfterSeparator(t: string)
    requires SeparatorIndex(t) >= 0
    ensures '-' !in t[SeparatorIndex(t) + 1..]
  {
    var index := SeparatorIndex(t);
    var rest := t[index + 1..];
    forall k | 0 <= k < |rest| ensures rest[k] != '-' {
      assert rest[k] == t[index + 1 + k];
    }
  }

  /** Trimming keeps out any character the text does not contain. */
  lemma TrimKeepsOut(s: string, drop: char -> bool, c: char)
    requires c !in s
    ensures c !in Trim(s, drop)
  {
    TrimShape(s, drop);
    var r := Trim(s, drop);
    var k := FirstKept(s, drop, 0);
    forall j | 0 <= j < |r| ensures r[j] != c {
      assert r[j] == s[k + j];
    }
  }

  /** The same heuristic without the length guard. */
  function GroupOfUnguarded(t: string): string {
    var index := SeparatorIndex(t);
    if index < 0 then "" else Trim(t[index + 1..], IsGroupTrimChar)
  }

  /** The guard `group.Length == title.Length` never fires: a separator at
      index >= 0 leaves a strictly shorter tail. */
  lemma GuardUnreachable(t: string)
    ensures GroupOf(t) == GroupOfUnguarded(t)
  {
    var index := SeparatorIndex(t);
    if index >= 0 {
      GroupOfAt(t, index);
    }
  }

  /** When the trimmed title has a '-', the group is the text after its
      last '-', trimmed of dashes, spaces and brackets. */
  lemma GroupAfterLastDash(title: string, i: nat)
    requires var t := TrimWhiteSpace(title);
      i < |t| && t[i] == '-' && forall j :: i < j < |t| ==> t[j] != '-'
    ensures ParseReleaseGroup(title) == Trim(TrimWhiteSpace(title)[i + 1..], IsGroupTrimChar)
  {
    var t := TrimWhiteSpace(title);
    LastIndexIs(t, '-', i);
    GroupOfAt(t, i);
  }

  /** When the trimmed title has no '-' but a space, the group is the text
      after its last space, trimmed the same way. */
  lemma GroupAfterLastSpace(title: string, i: nat)
    requires var t := TrimWhiteSpace(title);
      && '-' !in t
      && i < |t| && t[i] == ' ' && forall j :: i < j < |t| ==> t[j] != ' '
    ensures ParseReleaseGroup(title) == Trim(TrimWhiteSpace(title)[i + 1..], IsGroupTrimChar)
  {
    var t := TrimWhiteSpace(title);
    LastIndexIs(t, ' ', i);
    LastIndexAbsent(t, '-');
    GroupOfAt(t, i);
  }

  /** The last occurrence of a character is where LastIndexOf finds it. */
  lemma LastIndexIs(s: string, c: char, i: nat)
    requires i < |s| && s[i] == c && forall j :: i < j < |s| ==> s[j] != c
    ensures LastIndexOf(s, c) == i
  {
  }

  /** With the separator at `i`, the group is the trimmed text after it. */
  lemma GroupOfAt(t: string, i: nat)
    requires i < |t| && SeparatorIndex(t) == i
    ensures GroupOf(t) == Trim(t[i + 1..], IsGroupTrimChar)
  {
    GroupAtTrims(t, i);
  }

  lemma GroupAtTrims(t: string, i: nat)
    requires i < |t|
    ensures GroupAt(t, i) == Trim(t[i + 1..], IsGroupTrimChar)
  {
    assert |t[i + 1..]| < |t|;
  }

  /** A text that neither starts nor ends with a dropped character is its
      own trimmed form. */
  lemma TrimUntouched(s: string, drop: char -> bool)
    requires |s| > 0 && !drop(s[0]) && !drop(s[|s| - 1])
    ensures Trim(s, drop) == s
  {
    assert FirstKept(s, drop, 0) == 0;
    assert KeptEnd(s, drop, |s|) == |s|;
  }

  lemma ExampleGroupAfterDash()
    ensures ParseReleaseGroup("Show.Name.S01E01-GROUP") == "GROUP"
  {
    var s := "Show.Name.S01E01-GROUP";
    ExampleSeparator(s);
    assert s[17..] == "GROUP";
    ExampleGroupOf(s);
  }

  lemma ExampleGroupOf(s: string)
    requires TrimWhiteSpace(s) == s && |s| == 22 && SeparatorIndex(s) == 16 && s[17..] == "GROUP"
    ensures ParseReleaseGroup(s) == "GROUP"
  {
    TrimmedGroupAt(s, 16);
    ExampleGroupTrim(s[17..]);
  }

  lemma ExampleGroupTrim(g: string)
    requires g == "GROUP"
    ensures Trim(g, IsGroupTrimChar) == g
  {
    assert g[0] == 'G' && g[|g| - 1] == 'P';
    TrimUntouched(g, IsGroupTrimChar);
  }

  /** For an already trimmed title with its separator at `i`, the group is
      the trimmed text after `i`. */
  lemma TrimmedGroupAt(title: string, i: nat)
    requires TrimWhiteSpace(title) == title && i < |title| && SeparatorIndex(title) == i
    ensures ParseReleaseGroup(title) == Trim(title[i + 1..], IsGroupTrimChar)
  {
    GroupOfAt(title, i);
  }

  lemma ExampleSeparator(s: string)
    requires s == "Show.Name.S01E01-GROUP"
    ensures TrimWhiteSpace(s) == s && SeparatorIndex(s) == 16
  {
    TrimUntouched(s, IsWhiteSpace);
    assert s[16] == '-';
    assert forall i :: 16 < i < |s| ==> s[i] != '-';
    LastIndexIs(s, '-', 16);
  }

  lemma ExampleSingleToken()
    ensures ParseReleaseGroup("SingleToken") == ""
  {
    ExampleNoSeparator("SingleToken");
  }

  lemma ExampleNoSeparator(s: string)
    requires s == "SingleToken"
    ensures ParseReleaseGroup(s) == ""
  {
    TrimUntouched(s, IsWhiteSpace);
    assert forall i :: 0 <= i < |s| ==> s[i] != '-' && s[i] != ' ';
    GroupOfShape(s);
  }
}
