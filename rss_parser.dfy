/** The feed-normalisation engine (RssParserBase.Process and
    ParseFeedItem): every `item` of a feed becomes one ReleaseInfo through a
    set of per-dialect hooks, and an item whose processing throws is skipped
    without aborting the batch.

    XML parsing is not modelled: a loaded document is the sequence of its
    `item` elements, each a record of the fields the XML extensions read,
    and a malformed document is `None`. */
module RssParser {
  import opened Wrappers
  import ReleaseGroup

  /** One `item` element: what Title(), Links() and PublishDate() read, and
      the other child elements by name for the dialect hooks. A publication
      date that does not parse is `None` (PublishDate() throws). */
  datatype FeedItem = FeedItem(
    title: string,
    links: seq<string>,
    publishDate: Option<int>,
    elements: map<string, string>)

  /** The canonical release record. */
  datatype ReleaseInfo = ReleaseInfo(
    title: string,
    publishDate: int,
    releaseGroup: string,
    downloadUrl: string,
    infoUrl: string,
    size: int)

  /** What a call into a hook does: return a value or throw. */
  datatype Call<+T> = Returned(value: T) | Threw

  /** Why an item was skipped: any exception, or the SizeParsingException
      that wraps a failure of GetSize, carrying the title and feed url. */
  datatype ItemError = ItemException | SizeParsingException(title: string, url: string)

  /** Why Process fails as a whole: the PreProcess hook threw (it runs
      before, and outside, the per-item handler), or XDocument.Load failed
      on a malformed document. */
  datatype FeedError = PreProcessException | MalformedDocument

  /** The overridable members of RssParserBase. A PostProcessor that returns
      null is `Returned(None)`. */
  datatype Hooks = Hooks(
    getTitle: FeedItem -> Call<string>,
    getNzbUrl: FeedItem -> Call<string>,
    getNzbInfoUrl: FeedItem -> Call<string>,
    getSize: FeedItem -> Call<int>,
    postProcessor: (FeedItem, ReleaseInfo) -> Call<Option<ReleaseInfo>>)

  /** The default GetTitle: the item's title. */
  function DefaultGetTitle(item: FeedItem): Call<string> {
    Returned(item.title)
  }

  /** The default GetNzbUrl: the first link; First() throws without one. */
  function DefaultGetNzbUrl(item: FeedItem): Call<string> {
    if |item.links| == 0 then Threw else Returned(item.links[0])
  }

  /** The default GetNzbInfoUrl: the empty string. */
  function DefaultGetNzbInfoUrl(item: FeedItem): Call<string> {
    Returned("")
  }

  /** The default PostProcessor: the record unchanged. */
  function DefaultPostProcessor(item: FeedItem, info: ReleaseInfo): Call<Option<ReleaseInfo>> {
    Returned(Some(info))
  }

  /** A dialect that overrides only the abstract GetSize. */
  function DefaultHooks(getSize: FeedItem -> Call<int>): Hooks {
    Hooks(DefaultGetTitle, DefaultGetNzbUrl, DefaultGetNzbInfoUrl, getSize, DefaultPostProcessor)
  }

  /** Title(), PublishDate(), GetNzbUrl and GetNzbInfoUrl all return. */
  predicate LeadingHooksReturn(hooks: Hooks, item: FeedItem) {
    && hooks.getTitle(item).Returned? && item.publishDate.Some?
    && hooks.getNzbUrl(item).Returned? && hooks.getNzbInfoUrl(item).Returned?
  }

  /** The record ParseFeedItem hands to PostProcessor once every field was
      read: title, date, the group parsed from the title, both urls and the
      size. */
  function BuiltRecord(hooks: Hooks, item: FeedItem): ReleaseInfo
    requires LeadingHooksReturn(hooks, item) && hooks.getSize(item).Returned?
  {
    var title := hooks.getTitle(item).value;
    ReleaseInfo(title, item.publishDate.value, ReleaseGroup.ParseReleaseGroup(title),
                hooks.getNzbUrl(item).value, hooks.getNzbInfoUrl(item).value, hooks.getSize(item).value)
  }

  /** Every read and every hook, PostProcessor included, returns. */
  predicate AllHooksReturn(hooks: Hooks, item: FeedItem) {
    && LeadingHooksReturn(hooks, item) && hooks.getSize(item).Returned?
    && hooks.postProcessor(item, BuiltRecord(hooks, item)).Returned?
  }

  /** ParseFeedItem: Title(), PublishDate(), GetNzbUrl and GetNzbInfoUrl
      are read first (ParseReleaseGroup between them cannot throw), and a
      throw there is a plain exception; a throwing GetSize becomes a
      SizeParsingException; then PostProcessor sees the record built from
      the values read. Hooks have no side effects, so which of the first
      reads throws first does not change the result. */
  function ParseFeedItem(hooks: Hooks, item: FeedItem, url: string): (r: Result<Option<ReleaseInfo>, ItemError>)
    ensures r.Success? <==> AllHooksReturn(hooks, item)
    ensures r.Success? ==>
      AllHooksReturn(hooks, item) && hooks.postProcessor(item, BuiltRecord(hooks, item)) == Returned(r.value)
    ensures r.Failure? ==>
      (r.error.SizeParsingException? <==> LeadingHooksReturn(hooks, item) && hooks.getSize(item).Threw?)
    ensures r.Failure? && r.error.SizeParsingException? ==>
      hooks.getTitle(item).Returned? && r.error == SizeParsingException(hooks.getTitle(item).value, url)
  {
    if !LeadingHooksReturn(hooks, item) then Failure(ItemException)
    else
      match hooks.getSize(item)
      case Threw => Failure(SizeParsingException(hooks.getTitle(item).value, url))
      case Returned(_) =>
        match hooks.postProcessor(item, BuiltRecord(hooks, item))
        case Threw => Failure(ItemException)
        case Returned(result) => Success(result)
  }

  /** What the loop of Process does with one item. */
  datatype ItemOutcome = Kept(info: ReleaseInfo) | Dropped | Skipped(error: ItemError)

  /** One iteration of Process: ParseFeedItem on the namespace-stripped
      item, then, for a non-null record, the download and info urls read
      again from the item itself; any exception skips the item. */
  function ProcessItem(hooks: Hooks, stripNameSpace: FeedItem -> FeedItem, item: FeedItem, url: string): (r: ItemOutcome)
    ensures r.Kept? ==> hooks.getNzbUrl(item) == Returned(r.info.downloadUrl)
    ensures r.Kept? ==> hooks.getNzbInfoUrl(item) == Returned(r.info.infoUrl)
    ensures r.Dropped? <==> ParseFeedItem(hooks, stripNameSpace(item), url) == Success(None)
    ensures r.Kept? <==>
      && ParseFeedItem(hooks, stripNameSpace(item), url).Success?
      && ParseFeedItem(hooks, stripNameSpace(item), url).value.Some?
      && hooks.getNzbUrl(item).Returned? && hooks.getNzbInfoUrl(item).Returned?
  {
    match ParseFeedItem(hooks, stripNameSpace(item), url)
    case Failure(e) => Skipped(e)
    case Success(None) => Dropped
    case Success(Some(info)) =>
      match hooks.getNzbUrl(item)
      case Threw => Skipped(ItemException)
      case Returned(downloadUrl) =>
        match hooks.getNzbInfoUrl(item)
        case Threw => Skipped(ItemException)
        case Returned(infoUrl) => Kept(info.(downloadUrl := downloadUrl, infoUrl := infoUrl))
  }

  /** An item whose hooks all return, whose PostProcessor gives a record,
      and whose raw url hooks return, is kept: its record is the
      PostProcessor's, with the download and info urls read from the raw
      item. */
  lemma ItemKept(hooks: Hooks, stripNameSpace: FeedItem -> FeedItem, item: FeedItem, url: string, info: ReleaseInfo)
    requires AllHooksReturn(hooks, stripNameSpace(item))
    requires hooks.postProcessor(stripNameSpace(item), BuiltRecord(hooks, stripNameSpace(item))) == Returned(Some(info))
    requires hooks.getNzbUrl(item).Returned? && hooks.getNzbInfoUrl(item).Returned?
    ensures ProcessItem(hooks, stripNameSpace, item, url)
         == Kept(info.(downloadUrl := hooks.getNzbUrl(item).value, infoUrl := hooks.getNzbInfoUrl(item).value))
  {
  }

  /** An exception is never fatal to the batch: a failure of ParseFeedItem
      skips the item with that error, and so does a throwing url hook on
      the raw item; neither is kept. */
  lemma ThrowSkips(hooks: Hooks, stripNameSpace: FeedItem -> FeedItem, item: FeedItem, url: string)
    ensures var p := ParseFeedItem(hooks, stripNameSpace(item), url);
      p.Failure? ==> ProcessItem(hooks, stripNameSpace, item, url) == Skipped(p.error)
    ensures var p := ParseFeedItem(hooks, stripNameSpace(item), url);
      && p.Success? && p.value.Some?
      && (hooks.getNzbUrl(item).Threw? || hooks.getNzbInfoUrl(item).Threw?)
      ==> ProcessItem(hooks, stripNameSpace, item, url) == Skipped(ItemException)
    ensures !AllHooksReturn(hooks, stripNameSpace(item)) ==> ProcessItem(hooks, stripNameSpace, item, url).Skipped?
  {
  }

  /** The outcome of each item of a feed, position by position. */
  function Outcomes(hooks: Hooks, stripNameSpace: FeedItem -> FeedItem, items: seq<FeedItem>, url: string): (r: seq<ItemOutcome>)
    ensures |r| == |items|
    ensures forall k :: 0 <= k < |items| ==> r[k] == ProcessItem(hooks, stripNameSpace, items[k], url)
  {
    seq(|items|, k requires 0 <= k < |items| => ProcessItem(hooks, stripNameSpace, items[k], url))
  }

  /** The records that a run of item outcomes contributes, in order. */
  function Records(outcomes: seq<ItemOutcome>): seq<ReleaseInfo> {
    if |outcomes| == 0 then []
    else
      var rest := Records(outcomes[..|outcomes| - 1]);
      match outcomes[|outcomes| - 1]
      case Kept(info) => rest + [info]
      case _ => rest
  }

  /** The positions of the outcomes that keep a record. */
  function KeptPositions(outcomes: seq<ItemOutcome>): seq<nat> {
    if |outcomes| == 0 then []
    else
      var rest := KeptPositions(outcomes[..|outcomes| - 1]);
      if outcomes[|outcomes| - 1].Kept? then rest + [|outcomes| - 1] else rest
  }

  /** RssParserBase.Process: the PreProcess hook runs first (what it does on
      this call is `preProcess`: the default returns) and a throw fails the
      whole call, as does a malformed document; otherwise every item is
      processed in turn and the records of the items that were kept are
      returned in document order. */
  method Process(hooks: Hooks, stripNameSpace: FeedItem -> FeedItem, preProcess: Call<()>,
                 document: Option<seq<FeedItem>>, url: string)
    returns (r: Result<seq<ReleaseInfo>, FeedError>)
    ensures preProcess.Threw? ==> r == Failure(PreProcessException)
    ensures preProcess.Returned? && document.None? ==> r == Failure(MalformedDocument)
    ensures preProcess.Returned? && document.Some? ==>
      r == Success(Records(Outcomes(hooks, stripNameSpace, document.value, url)))
  {
    if preProcess.Threw? {
      return Failure(PreProcessException);
    }
    if document.None? {
      return Failure(MalformedDocument);
    }
    var items := document.value;
    ghost var outcomes := Outcomes(hooks, stripNameSpace, items, url);
    var result: seq<ReleaseInfo> := [];
    var i := 0;
    while i < |items|
      invariant 0 <= i <= |items|
      invariant result == Records(outcomes[..i])
    {
      var outcome := ProcessItem(hooks, stripNameSpace, items[i], url);
      assert outcomes[..i + 1][..i] == outcomes[..i];
      assert outcomes[..i + 1][i] == outcome;
      if outcome.Kept? {
        result := result + [outcome.info];
      }
      i := i + 1;
    }
    assert outcomes[..|items|] == outcomes;
    return Success(result);
  }

  /** Items are processed independently: the records of a concatenation are
      the records of its parts, in order. */
  lemma {:induction false} RecordsAppend(a: seq<ItemOutcome>, b: seq<ItemOutcome>)
    ensures Records(a + b) == Records(a) + Records(b)
  {
    if |b| == 0 {
      assert a + b == a;
    } else {
      var b' := b[..|b| - 1];
      assert (a + b)[..|a + b| - 1] == a + b';
      assert (a + b)[|a + b| - 1] == b[|b| - 1];
      RecordsAppend(a, b');
    }
  }

  /** A malformed item in an otherwise well-formed feed is simply omitted:
      the other items yield the records they would yield without it. */
  lemma ItemIsolation(hooks: Hooks, stripNameSpace: FeedItem -> FeedItem, a: seq<FeedItem>, bad: FeedItem, b: seq<FeedItem>, url: string)
    requires !ProcessItem(hooks, stripNameSpace, bad, url).Kept?
    ensures Records(Outcomes(hooks, stripNameSpace, a + [bad] + b, url))
         == Records(Outcomes(hooks, stripNameSpace, a + b, url))
  {
    var oa := Outcomes(hooks, stripNameSpace, a, url);
    var ob := Outcomes(hooks, stripNameSpace, b, url);
    var bo := ProcessItem(hooks, stripNameSpace, bad, url);
    OutcomesAppend(hooks, stripNameSpace, a + [bad], b, url);
    OutcomesAppend(hooks, stripNameSpace, a, [bad], url);
    OutcomesAppend(hooks, stripNameSpace, a, b, url);
    assert Outcomes(hooks, stripNameSpace, [bad], url) == [bo];
    RecordsAppend(oa + [bo], ob);
    RecordsAppend(oa, [bo]);
    RecordsAppend(oa, ob);
    assert [bo][..0] == [];
    assert Records([bo]) == [];
  }

  /** Outcomes are computed item by item. */
  lemma OutcomesAppend(hooks: Hooks, stripNameSpace: FeedItem -> FeedItem, a: seq<FeedItem>, b: seq<FeedItem>, url: string)
    ensures Outcomes(hooks, stripNameSpace, a + b, url)
         == Outcomes(hooks, stripNameSpace, a, url) + Outcomes(hooks, stripNameSpace, b, url)
  {
  }

  /** Process returns at most one record per item, in document order: the
      k-th record comes from the k-th kept position, those positions
      increase, and every outcome that keeps a record is among them. */
  lemma {:induction false} RecordsOrder(outcomes: seq<ItemOutcome>)
    ensures var out, idx := Records(outcomes), KeptPositions(outcomes);
      && |out| == |idx| <= |outcomes|
      && (forall k :: 0 <= k < |idx| ==> idx[k] < |outcomes| && outcomes[idx[k]] == Kept(out[k]))
      && (forall k, l :: 0 <= k < l < |idx| ==> idx[k] < idx[l])
      && (forall j :: 0 <= j < |outcomes| && outcomes[j].Kept? ==> j in idx)
  {
    if |outcomes| > 0 {
      var front := outcomes[..|outcomes| - 1];
      var n := |outcomes| - 1;
      RecordsOrder(front);
      assert forall j :: 0 <= j < |front| ==> outcomes[j] == front[j];
      if outcomes[n].Kept? {
        assert Records(outcomes) == Records(front) + [outcomes[n].info];
        assert KeptPositions(outcomes) == KeptPositions(front) + [n];
      } else {
        assert Records(outcomes) == Records(front);
        assert KeptPositions(outcomes) == KeptPositions(front);
      }
    }
  }

  /** With the default hooks, a kept record carries the item's title, the
      release group parsed from it, its first link as download url, an
      empty info url and the size GetSize reads. */
  lemma DefaultRecord(getSize: FeedItem -> Call<int>, stripNameSpace: FeedItem -> FeedItem, item: FeedItem, url: string)
    requires ProcessItem(DefaultHooks(getSize), stripNameSpace, item, url).Kept?
    ensures var info := ProcessItem(DefaultHooks(getSize), stripNameSpace, item, url).info;
      var stripped := stripNameSpace(item);
      && info.title == stripped.title
      && info.releaseGroup == ReleaseGroup.ParseReleaseGroup(stripped.title)
      && Some(info.publishDate) == stripped.publishDate
      && Returned(info.size) == getSize(stripped)
      && |item.links| > 0 && info.downloadUrl == item.links[0]
      && info.infoUrl == ""
  {
  }

  /** A GetSize that throws skips the item with a SizeParsingException that
      names the title and the feed url, once the earlier hooks succeeded. */
  lemma SizeFailureSkips(hooks: Hooks, stripNameSpace: FeedItem -> FeedItem, item: FeedItem, url: string)
    requires var stripped := stripNameSpace(item);
      && hooks.getTitle(stripped).Returned? && stripped.publishDate.Some?
      && hooks.getNzbUrl(stripped).Returned? && hooks.getNzbInfoUrl(stripped).Returned?
      && hooks.getSize(stripped).Threw?
    ensures ProcessItem(hooks, stripNameSpace, item, url)
         == Skipped(SizeParsingException(hooks.getTitle(stripNameSpace(item)).value, url))
  {
  }
}
