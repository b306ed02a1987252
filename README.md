# NzbDrone feed parsing, download dispatch and scene numbering, in Dafny

This project models three sequential pieces of NzbDrone, a TV-series
downloader, and proves properties of them.

1. **Feed normalisation** (`RssParserBase`):
   - `Process` turns every `item` of an indexer feed into a `ReleaseInfo`
     record through a set of per-dialect hooks (`GetTitle`, `GetNzbUrl`,
     `GetNzbInfoUrl`, `GetSize`, `PostProcessor`).
   - An item whose processing throws is skipped. A malformed document fails
     the whole call.
   - Two pure helpers sit beside it. `ParseReleaseGroup` takes the text after
     the last separator of a title. `ParseSize` finds the first size such as
     "1.5 GB" in a text and converts it to bytes.
2. **Download title and dispatch** (`DownloadProvider`, as its test fixture
   pins it down):
   - `GetDownloadTitle` builds a title in one of three layouts: daily,
     full season or standard.
   - `DownloadReport` submits the release to the configured client. Only on
     acceptance does it write one history row per episode, mark every episode
     fetched and send one grab notification.
3. **Scene numbering** (`XemService`):
   - A cache holds the TVDB ids that TheXEM has scene numbering for.
   - `PerformUpdate` copies each mapping's scene numbers onto the episode its
     TVDB numbering names. It stores the touched episodes, then switches the
     series to scene numbering.

Files:

- `wrappers.dfy`: `Option` and `Result`.
- `text.dfy`: digit strings, decimal rendering and zero padding, with their
  round trips.
- `release_group.dfy`: `String.Trim`, `LastIndexOf` and `ParseReleaseGroup`.
- `size_parser.dfy`: the size expression, `ParseSize` and `ConvertToBytes`.
  - The expression is written twice and the two forms are proved to agree.
    `IsMatch` states declaratively every way it can match at a position.
    `MatchAt` is a recogniser that tries the three value alternatives in the
    expression's order.
  - Because they agree, a match at a position is unique.
  - Values are exact decimals counted in hundredths, and conversion rounds to
    the nearest byte. `NoTies` proves that a tie cannot occur, so the rounding
    mode does not matter.
  - A result above the range of a 64-bit `long` is `Failure(Overflow)`, as
    `Convert.ToInt64` throws there.
  - The alternation order has a visible quirk. In "1,234 MB" the comma
    alternative requires a decimal part, so the first match is "234 MB"
    (`ExampleGroupedWithoutDecimals`).
- `rss_parser.dfy`: feed items, the hook set, `ParseFeedItem`, the per-item
  outcome and the `Process` loop.
- `download_title.dfy`: `GetDownloadTitle` and its layouts.
- `download_provider.dfy`: client selection and the `DownloadProvider` class
  with its `DownloadReport` method.
- `xem_service.dfy`: the mapping loop as a specification, and the
  `XemService` class with the cache and the store log.

Collaborators are passed in or recorded:

- What a hook returns, or that it throws, is a `Call` value.
- A download client's answer is a function parameter.
- The XEM proxy's answers are parameters (`None` when the call throws).
- Writes to the history, episode and series stores, and the grab
  notifications, are appended to sequences held in fields.

## Model

| member | source | states |
|---|---|---|
| RssParser.ParseFeedItem | src/NzbDrone.Core/Indexers/RssParserBase.cs:65-89 | Succeeds exactly when GetTitle, the publication date, GetNzbUrl, GetNzbInfoUrl, GetSize and PostProcessor all return. Its value is then what PostProcessor returned for the record built from title, date, ParseReleaseGroup(title), both urls and size. A failure is SizeParsingException, carrying the title and feed url, exactly when GetSize was the call that threw. |
| RssParser.ProcessItem | src/NzbDrone.Core/Indexers/RssParserBase.cs:42-58 | An item is kept exactly when ParseFeedItem returned a record and GetNzbUrl and GetNzbInfoUrl of the raw item both return. A kept record's DownloadUrl and InfoUrl are those values, whatever PostProcessor set. An item is dropped exactly when ParseFeedItem returned null. |
| RssParser.ItemKept | src/NzbDrone.Core/Indexers/RssParserBase.cs:44-52 | When every hook returns, PostProcessor gives a record and both raw url hooks return, the item is kept with PostProcessor's record, its DownloadUrl and InfoUrl replaced by the raw item's. |
| RssParser.ThrowSkips | src/NzbDrone.Core/Indexers/RssParserBase.cs:44-58 | Any exception while processing an item skips it: a failure of ParseFeedItem skips it with that error, a throwing raw url hook skips it with the exception, and an item whose hooks do not all return is never kept. |
| RssParser.OutcomesAppend | src/NzbDrone.Core/Indexers/RssParserBase.cs:42-58 | Items are handled one by one: the outcomes of a concatenation of feeds are the outcomes of each part, in order. |
| RssParser.Process | src/NzbDrone.Core/Indexers/RssParserBase.cs:30-63 | A throwing PreProcess fails the whole call, and so does a malformed document. Otherwise the result is the records of the kept items, in document order; an item that throws or is dropped adds nothing. |
| RssParser.RecordsAppend | src/NzbDrone.Core/Indexers/RssParserBase.cs:40-59 | Items are independent: the records of a concatenation of feeds are the records of each part, in order. |
| RssParser.ItemIsolation | src/NzbDrone.Core/Indexers/RssParserBase.cs:44-58 | An item that is not kept is omitted, and the records of all other items are as if it were absent. By ThrowSkips this covers every item whose processing throws, and every item PostProcessor drops. |
| RssParser.RecordsOrder | src/NzbDrone.Core/Indexers/RssParserBase.cs:40-59 | Records yields at most one record per item. The k-th record comes from the k-th kept item, kept positions increase, and every kept item yields a record. |
| RssParser.DefaultRecord | src/NzbDrone.Core/Indexers/RssParserBase.cs:67-75 | With the default hooks, a kept record has the item's title, the group parsed from it, the item's date, the first link as download url, an empty info url and GetSize's value. |
| RssParser.SizeFailureSkips | src/NzbDrone.Core/Indexers/RssParserBase.cs:77-84 | Once the earlier hooks succeeded, a throwing GetSize skips the item with SizeParsingException(title, url). |
| ReleaseGroup.TrimShape | src/NzbDrone.Core/Indexers/RssParserBase.cs:133 | Trim with a character set gives a contiguous piece of the input. Neither end of the piece is a trimmed character, and everything cut away is. The result is empty exactly when every character is trimmed. |
| ReleaseGroup.LastIndexOf | src/NzbDrone.Core/Indexers/RssParserBase.cs:120 | Returns the position of the last occurrence of the character, or -1 when there is none. |
| ReleaseGroup.GroupShape | src/NzbDrone.Core/Indexers/RssParserBase.cs:117-134 | ParseReleaseGroup gives "" when the trimmed title has neither '-' nor ' '. The group never starts or ends with '-', ' ', '[' or ']', and never contains '-'. |
| ReleaseGroup.GroupAfterLastDash | src/NzbDrone.Core/Indexers/RssParserBase.cs:119-133 | When the trimmed title has a '-', the group is the text after its last '-', trimmed of '-', ' ', '[' and ']'. |
| ReleaseGroup.GroupAfterLastSpace | src/NzbDrone.Core/Indexers/RssParserBase.cs:119-133 | When the trimmed title has no '-' but a space, the group is the trimmed text after its last space. |
| ReleaseGroup.GuardUnreachable | src/NzbDrone.Core/Indexers/RssParserBase.cs:128-131 | The `group.Length == title.Length` guard never changes the result: the function equals the version without it. |
| ReleaseGroup.ExampleGroupAfterDash | src/NzbDrone.Core/Indexers/RssParserBase.cs:117-134 | "Show.Name.S01E01-GROUP" gives "GROUP". |
| SizeParser.UnitEnd | src/NzbDrone.Core/Indexers/RssParserBase.cs:136 | The unit group GB, MB, GiB or MiB, case-insensitive, matches at a position exactly where UnitEnd says, and nowhere else. |
| SizeParser.MatchAtSound | src/NzbDrone.Core/Indexers/RssParserBase.cs:136-137 | Every match the recogniser MatchAt reports is a match of the expression. |
| SizeParser.MatchAtComplete | src/NzbDrone.Core/Indexers/RssParserBase.cs:136-137 | Every match of the expression at a position is the one MatchAt reports, so matches are unique. |
| SizeParser.FirstMatch | src/NzbDrone.Core/Indexers/RssParserBase.cs:141-143 | Returns the leftmost position where the expression matches; no earlier position matches; None when no position does. |
| SizeParser.FirstMatchIs | src/NzbDrone.Core/Indexers/RssParserBase.cs:141-143 | The leftmost declarative match is the one the parser uses. |
| SizeParser.RemoveCommasDefined | src/NzbDrone.Core/Indexers/RssParserBase.cs:146 | Removing commas distributes over concatenation, leaves a text without commas as it is, and removes a lone comma. Together these say every other character stays, in order. |
| SizeParser.RemoveCommasAppend | src/NzbDrone.Core/Indexers/RssParserBase.cs:146 | Removing commas distributes over concatenation. |
| SizeParser.ValueText | src/NzbDrone.Core/Indexers/RssParserBase.cs:136-146 | The value of any match, with its commas removed, is a decimal that Decimal.Parse accepts. |
| SizeParser.DecimalValue | src/NzbDrone.Core/Indexers/RssParserBase.cs:146 | Decimal.Parse reads digits, optionally followed by a dot and one or two digits, exactly: the value in hundredths is the integer part times 100 plus the fraction scaled to hundredths. |
| SizeParser.ConvertToBytes | src/NzbDrone.Core/Indexers/RssParserBase.cs:165-171 | On success, the result is within the long range and is the nearest integer to value × 1024^power. Failure only when that product rounds above the long range. |
| SizeParser.NoTies | src/NzbDrone.Core/Indexers/RssParserBase.cs:165-171 | value × 1024^power, for a value in hundredths and power ≥ 1, is never exactly halfway between two integers, so the rounding mode of Convert.ToInt64 does not matter. |
| SizeParser.ConvertMonotonic | src/NzbDrone.Core/Indexers/RssParserBase.cs:165-171 | A larger value never converts to fewer bytes. |
| SizeParser.ParseSizeWithoutMatch | src/NzbDrone.Core/Indexers/RssParserBase.cs:143-162 | When no position matches the declarative expression, the size is 0. |
| SizeParser.ParseSizeOfFirstMatch | src/NzbDrone.Core/Indexers/RssParserBase.cs:139-163 | For the leftmost match, MB/MiB in any case scales the comma-stripped value by 1024^2 and GB/GiB by 1024^3. |
| SizeParser.ParseSizeAt | src/NzbDrone.Core/Indexers/RssParserBase.cs:145-160 | SizeOfMatch for the leftmost match: the comma-stripped value is a decimal, the unit starts with 'm' or 'g' in either case, and the value is scaled by 1024^2 or 1024^3 accordingly. |
| SizeParser.UnitCase | src/NzbDrone.Core/Indexers/RssParserBase.cs:150-160 | Every matched unit falls into the MB/MiB branch or the GB/GiB branch, decided by its first letter. |
| SizeParser.ExampleGigabytes | src/NzbDrone.Core/Indexers/RssParserBase.cs:139-171 | "1.5 GB" is 1610612736 bytes. |
| SizeParser.ExampleGroupedWithoutDecimals | src/NzbDrone.Core/Indexers/RssParserBase.cs:136 | "1,234 MB" is read as 234 MB: the comma alternative needs a decimal part, so the first match starts at "234". |
| SizeParser.ExampleNoMatchAtStart | src/NzbDrone.Core/Indexers/RssParserBase.cs:136 | In "1,234 MB", nothing matches at the "1" or at the comma. |
| Text.ParseNatToString | NzbDrone.Core.Test/ProviderTests/DownloadProviderFixture.cs:182-187 | Decimal rendering of an episode or season number reads back to the number. |
| Text.PadNatRoundTrip | NzbDrone.Core.Test/ProviderTests/DownloadProviderFixture.cs:228 | A zero-padded date field reads back to its number and has exactly the format's width when the number fits. |
| Text.NatToStringInjective | NzbDrone.Core.Test/ProviderTests/DownloadProviderFixture.cs:182-187 | Distinct numbers render differently. |
| DownloadTitle.TitleFrame | NzbDrone.Core.Test/ProviderTests/DownloadProviderFixture.cs:182-246 | GetDownloadTitle: every Layout starts with the series title and " - ", and the title ends with " [{Quality}]" plus " [Proper]" for a proper. |
| DownloadTitle.ProperAppendsSuffix | NzbDrone.Core.Test/ProviderTests/DownloadProviderFixture.cs:182-246 | In every layout, a proper's title is the same release's non-proper title plus " [Proper]". |
| DownloadTitle.FullSeasonIgnoresEpisodes | NzbDrone.Core.Test/ProviderTests/DownloadProviderFixture.cs:207-226 | A full-season title does not depend on the episode numbers or the episode title. |
| DownloadTitle.DailyIgnoresNumbers | NzbDrone.Core.Test/ProviderTests/DownloadProviderFixture.cs:228-246 | A daily title does not depend on the season, the episode numbers or the full-season flag. |
| DownloadTitle.EpisodeSpanInjective | NzbDrone.Core.Test/ProviderTests/DownloadProviderFixture.cs:182-187 | The "1x2-1x4" span determines the episode numbers it was built from. |
| DownloadTitle.StandardTitleIdentifiesEpisodes | NzbDrone.Core.Test/ProviderTests/DownloadProviderFixture.cs:182-205 | Two standard-layout releases that differ only in their episode numbers get different titles. |
| DownloadTitle.FormatDateReadsBack | NzbDrone.Core.Test/ProviderTests/DownloadProviderFixture.cs:228 | In `yyyy-MM-dd`, the year, month and day read back from fixed positions separated by '-'. |
| DownloadTitle.DailyTitleIdentifiesDate | NzbDrone.Core.Test/ProviderTests/DownloadProviderFixture.cs:228-246 | Two daily releases that differ only in their air date get different titles. |
| DownloadTitle.ExampleSingleEpisode | NzbDrone.Core.Test/ProviderTests/DownloadProviderFixture.cs:182 | "My Series Name - 1x2 - My Episode Title [DVD]". |
| DownloadTitle.ExampleSingleEpisodeProper | NzbDrone.Core.Test/ProviderTests/DownloadProviderFixture.cs:183 | The same title with " [Proper]" appended. |
| DownloadTitle.ExampleEmptyEpisodeTitle | NzbDrone.Core.Test/ProviderTests/DownloadProviderFixture.cs:184 | "My Series Name - 1x2 -  [DVD] [Proper]": an empty episode title leaves two spaces. |
| DownloadTitle.ExampleMultiEpisode | NzbDrone.Core.Test/ProviderTests/DownloadProviderFixture.cs:185 | "My Series Name - 1x2-1x4 - My Episode Title [HDTV]". |
| DownloadTitle.ExampleMultiEpisodeProper | NzbDrone.Core.Test/ProviderTests/DownloadProviderFixture.cs:186 | "My Series Name - 1x2-1x4 - My Episode Title [HDTV] [Proper]". |
| DownloadTitle.ExampleMultiEpisodeEmptyTitle | NzbDrone.Core.Test/ProviderTests/DownloadProviderFixture.cs:187 | "My Series Name - 1x2-1x4 -  [HDTV] [Proper]". |
| DownloadTitle.ExampleFullSeason | NzbDrone.Core.Test/ProviderTests/DownloadProviderFixture.cs:207-226 | "My Series Name - Season 1 [Bluray720p]", and with " [Proper]". |
| DownloadTitle.ExampleDaily | NzbDrone.Core.Test/ProviderTests/DownloadProviderFixture.cs:229 | "My Series Name - 2011-12-01 - My Episode Title [Bluray720p]". |
| DownloadTitle.ExampleDailyProper | NzbDrone.Core.Test/ProviderTests/DownloadProviderFixture.cs:228 | The same daily title with " [Proper]". |
| DownloadProvider.ActiveClientRoundTrip | NzbDrone.Core.Test/ProviderTests/DownloadProviderFixture.cs:167-179 | GetActiveDownloadClient maps Sabnzbd to SabProvider and Blackhole to BlackholeProvider. Selection is a bijection between settings and clients. |
| DownloadProvider.HistoryFor | NzbDrone.Core.Test/ProviderTests/DownloadProviderFixture.cs:72-140 | A grab writes one history row per resolved episode, in order, each carrying that episode's EpisodeId and SeriesId. |
| DownloadProvider.OneHistoryEntryPerEpisode | NzbDrone.Core.Test/ProviderTests/DownloadProviderFixture.cs:95-99 | For distinct episodes, each gets exactly one history row and any other episode gets none. |
| DownloadProvider.RepeatedGrabDuplicatesHistory | NzbDrone.Core.Test/ProviderTests/DownloadProviderFixture.cs:72-105 | A second grab of the same release doubles every episode's history rows: the dispatch is not idempotent. |
| DownloadProvider.SubmissionCounts | NzbDrone.Core.Test/ProviderTests/DownloadProviderFixture.cs:86-90 | One submission adds one call to its own client's count and none to the other's. |
| DownloadProvider.DownloadProvider.DownloadReport | NzbDrone.Core.Test/ProviderTests/DownloadProviderFixture.cs:72-163 | Only the configured client is called, exactly once, with the formatted title. On acceptance, history gains one row per episode, every episode is marked fetched and OnGrab receives the title once. On rejection, history, fetched marks and notifications are unchanged. Every history row's episode stays marked fetched. |
| DownloadProvider.DownloadProvider.RecordEpisodes | NzbDrone.Core.Test/ProviderTests/DownloadProviderFixture.cs:95-105 | The per-episode loop appends exactly the rows of HistoryFor and marks exactly those episodes fetched. |
| DownloadProvider.DispatchTwice | NzbDrone.Core.Test/ProviderTests/DownloadProviderFixture.cs:72-105 | Two accepted dispatches of a single-episode release leave two history rows for that episode and two notifications. |
| XemService.SingleOrDefault | src/NzbDrone.Core/DataAugmentation/Xem/XemService.cs:108 | NotFound exactly when no episode has the mapping's TVDB season and episode. Found(i) names the only such episode. Ambiguous (the throw) exactly when two do. |
| XemService.LookupIgnoresSceneNumbers | src/NzbDrone.Core/DataAugmentation/Xem/XemService.cs:108-118 | Scene numbers written by earlier mappings do not change which episode a later mapping finds. |
| XemService.ApplyMappings | src/NzbDrone.Core/DataAugmentation/Xem/XemService.cs:104-120 | A completed loop keeps every episode's identity and TVDB numbering, and adds to episodesToUpdate only positions in the list. |
| XemService.StepEffect | src/NzbDrone.Core/DataAugmentation/Xem/XemService.cs:106-118 | One turn of the loop (Step) throws exactly when the lookup is ambiguous. Otherwise it writes the mapping's scene numbers onto the episodes it names and leaves every other episode as it was. |
| XemService.ApplyMappingsFails | src/NzbDrone.Core/DataAugmentation/Xem/XemService.cs:104-120 | The loop throws exactly when some mapping names more than one episode. |
| XemService.LaterMappingWins | src/NzbDrone.Core/DataAugmentation/Xem/XemService.cs:104-123 | After the loop, every episode has the AbsoluteEpisodeNumber, SceneSeasonNumber and SceneEpisodeNumber of the last mapping naming it, or is unchanged if none does. episodesToUpdate lists the found positions in mapping order. |
| XemService.HitsAreMatches | src/NzbDrone.Core/DataAugmentation/Xem/XemService.cs:104-120 | An episode is in episodesToUpdate exactly when some mapping names it. |
| XemService.BatchCarriesFinalNumbers | src/NzbDrone.Core/DataAugmentation/Xem/XemService.cs:104-123 | Batch, the list handed to UpdateEpisodes, holds entry by entry the found episodes with the scene numbers of the last mapping naming them. |
| XemService.OutcomeCommits | src/NzbDrone.Core/DataAugmentation/Xem/XemService.cs:87-134 | UpdateOutcome commits exactly when the mappings are non-empty and none is ambiguous. It then flags the series and stores only episodes of the fetched list. |
| XemService.EffectsWrites | src/NzbDrone.Core/DataAugmentation/Xem/XemService.cs:121-128 | Effects: an update writes nothing unless it committed, and its series write always follows the write of the episodes and stores the flagged series. |
| XemService.Wanted | src/NzbDrone.Core/DataAugmentation/Xem/XemService.cs:59 | A series is wanted exactly when it is in the catalogue and its TvdbId is among the fetched ids. |
| XemService.AllEffectsFlagsCommitted | src/NzbDrone.Core/DataAugmentation/Xem/XemService.cs:61-64 | A refresh stores a series with scene numbering switched on exactly when it ran on that series and the update committed. |
| XemService.AbortPersists | src/NzbDrone.Core/DataAugmentation/Xem/XemService.cs:104-133 | Once a lookup has thrown, later mappings do not resume the loop. |
| XemService.XemService.GetXemSeriesIds | src/NzbDrone.Core/DataAugmentation/Xem/XemService.cs:136-148 | The cache is emptied first. Afterwards it holds exactly the proxy's ids, or nothing when the proxy throws, and the ids are returned. |
| XemService.XemService.PerformUpdate | src/NzbDrone.Core/DataAugmentation/Xem/XemService.cs:87-134 | A proxy failure or an ambiguous lookup changes nothing. Empty mappings remove the series from the cache and write nothing. Otherwise the stores receive the touched episodes, then the series with UseSceneNumbering set. |
| XemService.XemService.UpdateSeriesMappings | src/NzbDrone.Core/DataAugmentation/Xem/XemService.cs:76-85 | A series whose TvdbId is not cached is left alone; any other is updated as PerformUpdate does. |
| XemService.XemService.UpdateAllMappings | src/NzbDrone.Core/DataAugmentation/Xem/XemService.cs:51-74 | The cache is refreshed, then exactly the catalogue series whose TvdbId the proxy listed are updated, in order. A proxy failure is reported (rethrown) with the cache left empty. A GetAllSeries failure is reported with the cache holding the fetched ids. Neither failure writes a store. |
| XemService.XemService.UpdateEach | src/NzbDrone.Core/DataAugmentation/Xem/XemService.cs:61-64 | PerformUpdate on each wanted series in turn: the store writes and the cache are those of AllEffects and CacheAfterAll. |

## Left out

- XML parsing (`XmlReader`, `XDocument.Load`, `Descendants`, `StripNameSpace`, `Title()`, `Links()`, `PublishDate()`) is library code not part of this model.
  - An item is a record of the fields these read. The namespace stripping is a function parameter.
  - A date that does not parse is `None` and makes `PublishDate()` throw.
  - `Title()` is total, so the catch block's `item.Title()` cannot throw.
- Hooks are modelled as pure functions of the item. Overrides with state or other effects are not captured, and neither is evaluating a hook more than once (the model reads GetSize and PostProcessor's answer again in its predicates, and `ProcessItem` re-reads GetNzbUrl and GetNzbInfoUrl on the raw item as the source does). For pure hooks, which of the leading reads throws first does not change the result; for effectful ones it may.
- `PreProcess` is an empty overridable hook. Only whether it throws is modelled (the `preProcess` parameter of `Process`): its arguments, and any other effect an override has, are not.
- The `CreateNewReleaseInfo` factory is not modelled. The record is built as a value, since the default factory returns a fresh record.
- Logging is not modelled; it does not affect results.
- The `Data` entry added to a caught exception is not modelled. `Data.Add` throws when the key is already present, for example when a hook rethrows one exception object for two items. That throw escapes the handler and aborts the whole call, which the model does not express.
- SizeParser.ConvertToBytes: the source computes in `double` (`Math.Pow`, `Convert.ToDouble`). The model uses exact arithmetic on the value in hundredths and rounds to nearest, an idealisation of the floating-point result. Values a double cannot hold exactly may round to a different integer, or cross the Int64 limit differently, than in the exact model. `Decimal.Parse` overflow is not distinguished from the Int64 overflow failure.
- SizeParser.ParseSize: character classes (`\d`, `\W`) and case folding are over ASCII. Unicode digits and culture-specific case rules are not modelled.
- DownloadProvider's implementation is not part of this model. Its behaviour is taken from its test fixture:
  - Backends are reduced to a yes/no answer to `DownloadNzb`.
  - History rows carry the episode and series ids, title, quality and date; the remaining columns are not modelled.
  - The title a history row carries is the formatted download title. The fixture checks only the ids, so this is the model's choice.
  - A failure of the history or episode store is not modelled.
- DownloadTitle.GetDownloadTitle renders only the quality tiers the fixture uses (DVD, HDTV, Bluray720p). Series titles are used verbatim. Season and episode numbers are natural numbers.
- Dates are rendered only in `yyyy-MM-dd`. Other `DateTime` formatting and the clock are out of scope; the grab time is a parameter.
- Daily series are checked before full seasons. The fixture does not pin this order, because no case is both.
- XemService: the entry points `Execute`, `Handle` and `HandleAsync` only dispatch to the modelled methods and are not modelled.
  - The proxy's answers and each series' episode list are parameters.
  - The cache manager's string-keyed `ICached<bool>` is the set of ids it holds.
  - A failure of the episode or series store inside `PerformUpdate` is not modelled. Such a failure is swallowed like the proxy failure.
  - A `GetAllSeries` failure is modelled (`allSeries` is `None`). It is rethrown after the cache was refreshed. Other failures of the series store outside `PerformUpdate` are not modelled.
- XemService.PerformUpdate returns the series with its new flag instead of updating the caller's object in place. Episodes are values, and episodesToUpdate is a list of positions, so an episode two mappings hit appears twice with its final numbers, as the shared object would.
