/** The download title DownloadProvider.GetDownloadTitle builds for a
    release before handing it to a download client. Three layouts exist:
    daily series are named by air date, full-season releases by season,
    and everything else by its season-by-episode span. */
module DownloadTitle {
  import Text

  /** The quality tiers the title formatter renders, by their own names. */
  datatype QualityType = DVD | HDTV | Bluray720p

  /** A quality tier and whether the release is a proper (a corrected
      re-release). */
  datatype Quality = Quality(qualityType: QualityType, proper: bool)

  datatype Series = Series(title: string, isDaily: bool)

  /** A calendar date, as the `yyyy-MM-dd` format reads it. */
  datatype Date = Date(year: nat, month: nat, day: nat)

  /** A release matched against the catalogue. */
  datatype EpisodeParseResult = EpisodeParseResult(
    series: Series,
    seasonNumber: nat,
    episodeNumbers: seq<nat>,
    episodeTitle: string,
    airDate: Date,
    fullSeason: bool,
    quality: Quality,
    nzbUrl: string)

  function QualityName(q: QualityType): string {
    match q
    case DVD => "DVD"
    case HDTV => "HDTV"
    case Bluray720p => "Bluray720p"
  }

  /** The tail every layout ends with: the tier in brackets, then
      " [Proper]" for a proper. */
  function QualityTag(q: Quality): string {
    " [" + QualityName(q.qualityType) + "]" + (if q.proper then " [Proper]" else "")
  }

  /** One episode as "{season}x{episode}", numbers unpadded. */
  function EpisodeLabel(season: nat, episode: nat): string {
    Text.NatToString(season) + "x" + Text.NatToString(episode)
  }

  /** The labels of all episode numbers, joined by '-'. */
  function EpisodeSpan(season: nat, episodes: seq<nat>): string {
    if |episodes| == 0 then ""
    else if |episodes| == 1 then EpisodeLabel(season, episodes[0])
    else EpisodeLabel(season, episodes[0]) + "-" + EpisodeSpan(season, episodes[1..])
  }

  /** A date as `yyyy-MM-dd`. */
  function FormatDate(d: Date): string {
    Text.PadNat(d.year, 4) + "-" + Text.PadNat(d.month, 2) + "-" + Text.PadNat(d.day, 2)
  }

  /** Everything of a title before its quality tag. Daily series are
      checked first, then full seasons. */
  function Layout(r: EpisodeParseResult): string {
    if r.series.isDaily then
      r.series.title + " - " + FormatDate(r.airDate) + " - " + r.episodeTitle
    else if r.fullSeason then
      r.series.title + " - Season " + Text.NatToString(r.seasonNumber)
    else
      r.series.title + " - " + EpisodeSpan(r.seasonNumber, r.episodeNumbers) + " - " + r.episodeTitle
  }

  /** GetDownloadTitle: the layout, then the quality tag. */
  function GetDownloadTitle(r: EpisodeParseResult): string {
    Layout(r) + QualityTag(r.quality)
  }

  /** Every layout starts with the series title and " - " and ends with the
      quality tag. */
  lemma TitleFrame(r: EpisodeParseResult)
    ensures var t := GetDownloadTitle(r);
      && |t| >= |r.series.title| + 3 && t[..|r.series.title| + 3] == r.series.title + " - "
      && |t| >= |QualityTag(r.quality)| && t[|t| - |QualityTag(r.quality)|..] == QualityTag(r.quality)
  {
    var layout := Layout(r);
    var pre := r.series.title + " - ";
    assert |layout| >= |pre| && layout[..|pre|] == pre;
    assert GetDownloadTitle(r)[..|pre|] == layout[..|pre|];
  }

  /** A proper release appends " [Proper]" to the title it would otherwise
      have, in every layout. */
  lemma ProperAppendsSuffix(r: EpisodeParseResult)
    ensures GetDownloadTitle(r.(quality := Quality(r.quality.qualityType, true)))
         == GetDownloadTitle(r.(quality := Quality(r.quality.qualityType, false))) + " [Proper]"
  {
    var plain := r.(quality := Quality(r.quality.qualityType, false));
    var proper := r.(quality := Quality(r.quality.qualityType, true));
    assert Layout(plain) == Layout(proper);
    assert QualityTag(proper.quality) == QualityTag(plain.quality) + " [Proper]";
  }

  /** A full-season title names no episode: neither the episode numbers nor
      the episode title change it. */
  lemma FullSeasonIgnoresEpisodes(r: EpisodeParseResult, episodes: seq<nat>, episodeTitle: string)
    requires !r.series.isDaily && r.fullSeason
    ensures GetDownloadTitle(r.(episodeNumbers := episodes, episodeTitle := episodeTitle)) == GetDownloadTitle(r)
  {
  }

  /** A daily title names no episode number and no season. */
  lemma DailyIgnoresNumbers(r: EpisodeParseResult, season: nat, episodes: seq<nat>, fullSeason: bool)
    requires r.series.isDaily
    ensures GetDownloadTitle(r.(seasonNumber := season, episodeNumbers := episodes, fullSeason := fullSeason))
         == GetDownloadTitle(r)
  {
  }

  /** The length of the run of digits a text starts with. */
  function LeadingDigits(s: string): (n: nat)
    ensures n <= |s|
  {
    if |s| == 0 || !Text.IsDigit(s[0]) then 0 else 1 + LeadingDigits(s[1..])
  }

  /** Digits followed by nothing or by a non-digit: the digit run is
      exactly the digits. */
  lemma {:induction false} LeadingDigitsOf(d: string, t: string)
    requires Text.AllDigits(d)
    requires t == [] || !Text.IsDigit(t[0])
    ensures LeadingDigits(d + t) == |d|
  {
    if |d| > 0 {
      assert (d + t)[1..] == d[1..] + t;
      LeadingDigitsOf(d[1..], t);
    } else {
      assert d + t == t;
    }
  }

  /** A run of digits followed by nothing or by a non-digit is determined by
      the text it starts. */
  lemma DigitRunPrefix(d1: string, t1: string, d2: string, t2: string)
    requires Text.AllDigits(d1) && Text.AllDigits(d2)
    requires t1 == [] || !Text.IsDigit(t1[0])
    requires t2 == [] || !Text.IsDigit(t2[0])
    requires d1 + t1 == d2 + t2
    ensures d1 == d2 && t1 == t2
  {
    LeadingDigitsOf(d1, t1);
    LeadingDigitsOf(d2, t2);
    assert d1 == (d1 + t1)[..|d1|];
    assert d2 == (d2 + t2)[..|d2|];
    assert t1 == (d1 + t1)[|d1|..];
    assert t2 == (d2 + t2)[|d2|..];
  }

  /** A span starts with the label of its first episode, followed by
      nothing or by '-'. */
  lemma SpanHead(season: nat, episodes: seq<nat>)
    requires |episodes| > 0
    ensures var rest := if |episodes| == 1 then "" else "-" + EpisodeSpan(season, episodes[1..]);
      EpisodeSpan(season, episodes) == Text.NatToString(season) + "x" + (Text.NatToString(episodes[0]) + rest)
  {
  }

  /** Distinct episode lists give distinct spans: the span identifies the
      episodes a release covers. */
  lemma {:induction false} EpisodeSpanInjective(season: nat, a: seq<nat>, b: seq<nat>)
    requires EpisodeSpan(season, a) == EpisodeSpan(season, b)
    ensures a == b
  {
    if |a| == 0 || |b| == 0 {
      if |a| > 0 {
        SpanHead(season, a);
      } else if |b| > 0 {
        SpanHead(season, b);
      }
    } else {
      SpanHead(season, a);
      SpanHead(season, b);
      var prefix := Text.NatToString(season) + "x";
      var restA := if |a| == 1 then "" else "-" + EpisodeSpan(season, a[1..]);
      var restB := if |b| == 1 then "" else "-" + EpisodeSpan(season, b[1..]);
      var ta := Text.NatToString(a[0]) + restA;
      var tb := Text.NatToString(b[0]) + restB;
      assert prefix + ta == prefix + tb;
      assert ta == (prefix + ta)[|prefix|..];
      assert tb == (prefix + tb)[|prefix|..];
      DigitRunPrefix(Text.NatToString(a[0]), restA, Text.NatToString(b[0]), restB);
      Text.NatToStringInjective(a[0], b[0]);
      if |a| > 1 && |b| > 1 {
        assert EpisodeSpan(season, a[1..]) == restA[1..];
        assert EpisodeSpan(season, b[1..]) == restB[1..];
        EpisodeSpanInjective(season, a[1..], b[1..]);
        assert a == [a[0]] + a[1..];
        assert b == [b[0]] + b[1..];
      } else {
        assert |restA| == 0 <==> |a| == 1;
        assert |restB| == 0 <==> |b| == 1;
      }
    }
  }

  lemma CancelRight(u: string, v: string, m: string)
    requires u + m == v + m
    ensures u == v
  {
    assert u == (u + m)[..|u|];
    assert v == (v + m)[..|v|];
  }

  lemma CancelLeft(m: string, u: string, v: string)
    requires m + u == m + v
    ensures u == v
  {
    assert u == (m + u)[|m|..];
    assert v == (m + v)[|m|..];
  }

  /** In the standard layout, two releases that differ only in their
      episode numbers get different titles. */
  lemma StandardTitleIdentifiesEpisodes(r: EpisodeParseResult, episodes: seq<nat>)
    requires !r.series.isDaily && !r.fullSeason
    requires GetDownloadTitle(r.(episodeNumbers := episodes)) == GetDownloadTitle(r)
    ensures episodes == r.episodeNumbers
  {
    var pre := r.series.title + " - ";
    var s1 := EpisodeSpan(r.seasonNumber, episodes);
    var s2 := EpisodeSpan(r.seasonNumber, r.episodeNumbers);
    var tag := QualityTag(r.quality);
    assert (pre + s1 + " - " + r.episodeTitle) + tag == (pre + s2 + " - " + r.episodeTitle) + tag;
    CancelRight(pre + s1 + " - " + r.episodeTitle, pre + s2 + " - " + r.episodeTitle, tag);
    CancelRight(pre + s1 + " - ", pre + s2 + " - ", r.episodeTitle);
    CancelRight(pre + s1, pre + s2, " - ");
    CancelLeft(pre, s1, s2);
    EpisodeSpanInjective(r.seasonNumber, episodes, r.episodeNumbers);
  }

  /** A date in range reads back from the fixed positions of its
      `yyyy-MM-dd` form. */
  lemma FormatDateReadsBack(d: Date)
    requires d.year < 10000 && d.month < 100 && d.day < 100
    ensures var f := FormatDate(d);
      && |f| == 10 && f[4] == '-' && f[7] == '-'
      && Text.AllDigits(f[..4]) && Text.ParseNat(f[..4]) == d.year
      && Text.AllDigits(f[5..7]) && Text.ParseNat(f[5..7]) == d.month
      && Text.AllDigits(f[8..]) && Text.ParseNat(f[8..]) == d.day
  {
    assert Text.Pow10(2) == 100 && Text.Pow10(4) == 10000;
    Text.PadNatRoundTrip(d.year, 4);
    Text.PadNatRoundTrip(d.month, 2);
    Text.PadNatRoundTrip(d.day, 2);
    var y, m, dd := Text.PadNat(d.year, 4), Text.PadNat(d.month, 2), Text.PadNat(d.day, 2);
    assert |y| == 4 && |m| == 2 && |dd| == 2;
    var f := FormatDate(d);
    var ym := y + "-" + m;
    assert f == ym + "-" + dd;
    assert f[..7] == ym;
    assert f[..4] == ym[..4] == y;
    assert f[5..7] == ym[5..7] == m;
    assert f[8..] == dd;
  }

  /** In the daily layout, two releases that differ only in their (in
      range) air dates get different titles. */
  lemma DailyTitleIdentifiesDate(r: EpisodeParseResult, d: Date)
    requires r.series.isDaily
    requires d.year < 10000 && d.month < 100 && d.day < 100
    requires r.airDate.year < 10000 && r.airDate.month < 100 && r.airDate.day < 100
    requires GetDownloadTitle(r.(airDate := d)) == GetDownloadTitle(r)
    ensures d == r.airDate
  {
    var pre := r.series.title + " - ";
    var f1 := FormatDate(d);
    var f2 := FormatDate(r.airDate);
    var tag := QualityTag(r.quality);
    assert (pre + f1 + " - " + r.episodeTitle) + tag == (pre + f2 + " - " + r.episodeTitle) + tag;
    CancelRight(pre + f1 + " - " + r.episodeTitle, pre + f2 + " - " + r.episodeTitle, tag);
    CancelRight(pre + f1 + " - ", pre + f2 + " - ", r.episodeTitle);
    CancelRight(pre + f1, pre + f2, " - ");
    CancelLeft(pre, f1, f2);
    FormatDateReadsBack(d);
    FormatDateReadsBack(r.airDate);
  }

  function ExampleSeries(isDaily: bool): Series {
    Series("My Series Name", isDaily)
  }

  function ExampleRelease(season: nat, episodes: seq<nat>, title: string, q: Quality): EpisodeParseResult {
    EpisodeParseResult(ExampleSeries(false), season, episodes, title, Date(2011, 12, 1), false, q, "")
  }

  lemma ExampleLabels()
    ensures EpisodeLabel(1, 2) == "1x2" && EpisodeLabel(1, 4) == "1x4"
    ensures Text.NatToString(1) == "1"
  {
    assert Text.NatToString(1) == "1";
    assert Text.NatToString(2) == "2";
    assert Text.NatToString(4) == "4";
  }

  lemma ExampleSpans()
    ensures EpisodeSpan(1, [2]) == "1x2"
    ensures EpisodeSpan(1, [2, 4]) == "1x2-1x4"
  {
    ExampleLabels();
    assert [2, 4][1..] == [4];
    assert EpisodeSpan(1, [4]) == "1x4";
  }

  lemma ExampleTagsDVD()
    ensures QualityTag(Quality(DVD, false)) == " [DVD]"
    ensures QualityTag(Quality(DVD, true)) == " [DVD] [Proper]"
  {
  }

  lemma ExampleTagsHDTV()
    ensures QualityTag(Quality(HDTV, false)) == " [HDTV]"
    ensures QualityTag(Quality(HDTV, true)) == " [HDTV] [Proper]"
  {
  }

  lemma ExampleTagsBluray()
    ensures QualityTag(Quality(Bluray720p, false)) == " [Bluray720p]"
    ensures QualityTag(Quality(Bluray720p, true)) == " [Bluray720p] [Proper]"
  {
  }

  /** "My Series Name - 1x2 - My Episode Title [DVD]". */
  lemma ExampleSingleEpisode()
    ensures GetDownloadTitle(ExampleRelease(1, [2], "My Episode Title", Quality(DVD, false)))
         == "My Series Name - 1x2 - My Episode Title [DVD]"
  {
    ExampleSpans();
    ExampleTagsDVD();
    assert "My Series Name" + " - " + "1x2" + " - " == "My Series Name - 1x2 - ";
    assert "My Series Name - 1x2 - " + "My Episode Title" == "My Series Name - 1x2 - My Episode Title";
    StandardTitle(ExampleRelease(1, [2], "My Episode Title", Quality(DVD, false)), "1x2", " [DVD]",
                  "My Series Name - 1x2 - My Episode Title");
  }

  /** A standard-layout title from its span, its layout and its tag. */
  lemma StandardTitle(r: EpisodeParseResult, span: string, tag: string, layout: string)
    requires !r.series.isDaily && !r.fullSeason
    requires EpisodeSpan(r.seasonNumber, r.episodeNumbers) == span && QualityTag(r.quality) == tag
    requires r.series.title + " - " + span + " - " + r.episodeTitle == layout
    ensures GetDownloadTitle(r) == layout + tag
  {
  }

  /** The same release as a proper ends in " [Proper]". */
  lemma ExampleSingleEpisodeProper()
    ensures GetDownloadTitle(ExampleRelease(1, [2], "My Episode Title", Quality(DVD, true)))
         == "My Series Name - 1x2 - My Episode Title [DVD] [Proper]"
  {
    ExampleSpans();
    ExampleTagsDVD();
    assert "My Series Name" + " - " + "1x2" + " - " == "My Series Name - 1x2 - ";
    assert "My Series Name - 1x2 - " + "My Episode Title" == "My Series Name - 1x2 - My Episode Title";
    StandardTitle(ExampleRelease(1, [2], "My Episode Title", Quality(DVD, true)), "1x2", " [DVD] [Proper]",
                  "My Series Name - 1x2 - My Episode Title");
  }

  /** An empty episode title keeps both delimiters: "-  [". */
  lemma ExampleEmptyEpisodeTitle()
    ensures GetDownloadTitle(ExampleRelease(1, [2], "", Quality(DVD, true)))
         == "My Series Name - 1x2 -  [DVD] [Proper]"
  {
    ExampleSpans();
    ExampleTagsDVD();
  }

  /** Two episodes join as "1x2-1x4". */
  lemma ExampleMultiEpisode()
    ensures GetDownloadTitle(ExampleRelease(1, [2, 4], "My Episode Title", Quality(HDTV, false)))
         == "My Series Name - 1x2-1x4 - My Episode Title [HDTV]"
  {
    ExampleSpans();
    ExampleTagsHDTV();
    assert "My Series Name" + " - " + "1x2-1x4" + " - " == "My Series Name - 1x2-1x4 - ";
    assert "My Series Name - 1x2-1x4 - " + "My Episode Title" == "My Series Name - 1x2-1x4 - My Episode Title";
    StandardTitle(ExampleRelease(1, [2, 4], "My Episode Title", Quality(HDTV, false)), "1x2-1x4", " [HDTV]",
                  "My Series Name - 1x2-1x4 - My Episode Title");
  }

  /** Two episodes with an episode title, proper. */
  lemma ExampleMultiEpisodeProper()
    ensures GetDownloadTitle(ExampleRelease(1, [2, 4], "My Episode Title", Quality(HDTV, true)))
         == "My Series Name - 1x2-1x4 - My Episode Title [HDTV] [Proper]"
  {
    ExampleSpans();
    ExampleTagsHDTV();
    assert "My Series Name" + " - " + "1x2-1x4" + " - " == "My Series Name - 1x2-1x4 - ";
    assert "My Series Name - 1x2-1x4 - " + "My Episode Title" == "My Series Name - 1x2-1x4 - My Episode Title";
    StandardTitle(ExampleRelease(1, [2, 4], "My Episode Title", Quality(HDTV, true)), "1x2-1x4", " [HDTV] [Proper]",
                  "My Series Name - 1x2-1x4 - My Episode Title");
  }

  /** Two episodes, no episode title, proper. */
  lemma ExampleMultiEpisodeEmptyTitle()
    ensures GetDownloadTitle(ExampleRelease(1, [2, 4], "", Quality(HDTV, true)))
         == "My Series Name - 1x2-1x4 -  [HDTV] [Proper]"
  {
    ExampleSpans();
    ExampleTagsHDTV();
  }

  /** "My Series Name - Season 1 [Bluray720p]", and with " [Proper]". */
  lemma ExampleFullSeason()
    ensures GetDownloadTitle(ExampleRelease(1, [], "My Episode Title", Quality(Bluray720p, false)).(fullSeason := true))
         == "My Series Name - Season 1 [Bluray720p]"
    ensures GetDownloadTitle(ExampleRelease(1, [], "My Episode Title", Quality(Bluray720p, true)).(fullSeason := true))
         == "My Series Name - Season 1 [Bluray720p] [Proper]"
  {
    ExampleLabels();
    ExampleTagsBluray();
  }

  lemma ExampleDate()
    ensures FormatDate(Date(2011, 12, 1)) == "2011-12-01"
  {
    assert Text.PadNat(2011, 4) == "2011";
    assert Text.PadNat(12, 2) == "12";
    assert Text.PadNat(1, 2) == "01";
  }

  function ExampleDailyRelease(proper: bool): EpisodeParseResult {
    EpisodeParseResult(ExampleSeries(true), 0, [], "My Episode Title", Date(2011, 12, 1), false, Quality(Bluray720p, proper), "")
  }

  lemma ExampleDailyLayout(proper: bool)
    ensures Layout(ExampleDailyRelease(proper)) == "My Series Name - 2011-12-01 - My Episode Title"
  {
    ExampleDate();
    assert "My Series Name" + " - " + "2011-12-01" + " - " == "My Series Name - 2011-12-01 - ";
    assert "My Series Name - 2011-12-01 - " + "My Episode Title" == "My Series Name - 2011-12-01 - My Episode Title";
    DailyLayout(ExampleDailyRelease(proper), "2011-12-01", "My Series Name - 2011-12-01 - My Episode Title");
  }

  /** A daily layout from its formatted date. */
  lemma DailyLayout(r: EpisodeParseResult, date: string, layout: string)
    requires r.series.isDaily && FormatDate(r.airDate) == date
    requires r.series.title + " - " + date + " - " + r.episodeTitle == layout
    ensures Layout(r) == layout
  {
  }

  /** "My Series Name - 2011-12-01 - My Episode Title [Bluray720p]". */
  lemma ExampleDaily()
    ensures GetDownloadTitle(ExampleDailyRelease(false)) == "My Series Name - 2011-12-01 - My Episode Title [Bluray720p]"
  {
    ExampleDailyLayout(false);
    ExampleTagsBluray();
  }

  /** The same daily release as a proper. */
  lemma ExampleDailyProper()
    ensures GetDownloadTitle(ExampleDailyRelease(true)) == "My Series Name - 2011-12-01 - My Episode Title [Bluray720p] [Proper]"
  {
    ExampleDailyLayout(true);
    ExampleTagsBluray();
  }
}
