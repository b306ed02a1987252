/** DownloadProvider: hands a chosen release to the configured download
    client and, only when the client accepts it, records one history entry
    per episode, marks each episode fetched and sends one grab
    notification.

    The clients, the history and episode stores and the notification sink
    are collaborators: a client's answer is the `accepts` parameter, and
    the stores and the sink are the fields of the class, which record what
    was written to them. */
module DownloadProvider {
  import opened DownloadTitle

  /** The configured download client setting. */
  datatype DownloadClientType = Sabnzbd | Blackhole

  /** The download clients, each submitting a (title, url) pair. */
  datatype Client = SabProvider | BlackholeProvider

  /** GetActiveDownloadClient: the client the setting names. */
  function GetActiveDownloadClient(clientType: DownloadClientType): Client {
    match clientType
    case Sabnzbd => SabProvider
    case Blackhole => BlackholeProvider
  }

  /** The setting that selects a client. */
  function ClientTypeOf(client: Client): DownloadClientType {
    match client
    case SabProvider => Sabnzbd
    case BlackholeProvider => Blackhole
  }

  /** Each setting selects its own client, and each client is selected by
      exactly one setting. */
  lemma ActiveClientRoundTrip(clientType: DownloadClientType, client: Client)
    ensures ClientTypeOf(GetActiveDownloadClient(clientType)) == clientType
    ensures GetActiveDownloadClient(ClientTypeOf(client)) == client
    ensures GetActiveDownloadClient(clientType) == client <==> clientType == ClientTypeOf(client)
  {
  }

  /** An episode the release resolves to. */
  datatype Episode = Episode(episodeId: int, seriesId: int)

  /** One row of the grab history. That `nzbTitle` is the formatted
      download title is this model's choice: the fixture checks only the
      episode and series ids. */
  datatype HistoryEntry = HistoryEntry(episodeId: int, seriesId: int, nzbTitle: string, quality: Quality, date: int)

  /** One call of a client's DownloadNzb. */
  datatype Submission = Submission(client: Client, title: string, url: string)

  /** The history rows a successful grab adds, one per episode in order. */
  function HistoryFor(episodes: seq<Episode>, title: string, quality: Quality, date: int): (h: seq<HistoryEntry>)
    ensures |h| == |episodes|
    ensures forall k :: 0 <= k < |h| ==>
      h[k].episodeId == episodes[k].episodeId && h[k].seriesId == episodes[k].seriesId
  {
    if |episodes| == 0 then []
    else
      var e := episodes[|episodes| - 1];
      HistoryFor(episodes[..|episodes| - 1], title, quality, date)
        + [HistoryEntry(e.episodeId, e.seriesId, title, quality, date)]
  }

  function EpisodeIds(episodes: seq<Episode>): set<int> {
    set e | e in episodes :: e.episodeId
  }

  /** One more episode adds its row and its id. */
  lemma RecordStep(episodes: seq<Episode>, i: nat, title: string, quality: Quality, date: int)
    requires i < |episodes|
    ensures var e := episodes[i];
      && HistoryFor(episodes[..i + 1], title, quality, date)
         == HistoryFor(episodes[..i], title, quality, date) + [HistoryEntry(e.episodeId, e.seriesId, title, quality, date)]
      && EpisodeIds(episodes[..i + 1]) == EpisodeIds(episodes[..i]) + {e.episodeId}
  {
    var e := episodes[i];
    assert episodes[..i + 1] == episodes[..i] + [e];
    assert episodes[..i + 1][..i] == episodes[..i];
    EpisodeIdsSnoc(episodes[..i], e);
  }

  /** Every row a grab writes names one of its episodes. */
  lemma HistoryIdsFetched(episodes: seq<Episode>, title: string, quality: Quality, date: int)
    ensures forall h :: h in HistoryFor(episodes, title, quality, date) ==> h.episodeId in EpisodeIds(episodes)
  {
    var rows := HistoryFor(episodes, title, quality, date);
    forall h | h in rows ensures h.episodeId in EpisodeIds(episodes) {
      var k :| 0 <= k < |rows| && rows[k] == h;
      assert episodes[k] in episodes;
    }
  }

  lemma NotAmongIds(episodes: seq<Episode>, episodeId: int)
    requires forall k :: 0 <= k < |episodes| ==> episodes[k].episodeId != episodeId
    ensures episodeId !in EpisodeIds(episodes)
  {
  }

  lemma EpisodeIdsSnoc(front: seq<Episode>, last: Episode)
    ensures EpisodeIds(front + [last]) == EpisodeIds(front) + {last.episodeId}
  {
    assert forall e :: e in front + [last] <==> e in front || e == last;
  }

  /** How many history rows name an episode. */
  function CountEpisode(history: seq<HistoryEntry>, episodeId: int): nat {
    if |history| == 0 then 0
    else
      var rest := CountEpisode(history[..|history| - 1], episodeId);
      if history[|history| - 1].episodeId == episodeId then rest + 1 else rest
  }

  /** How many submissions went to a client. */
  function CountClient(submissions: seq<Submission>, client: Client): nat {
    if |submissions| == 0 then 0
    else
      var rest := CountClient(submissions[..|submissions| - 1], client);
      if submissions[|submissions| - 1].client == client then rest + 1 else rest
  }

  lemma {:induction false} CountEpisodeAppend(a: seq<HistoryEntry>, b: seq<HistoryEntry>, episodeId: int)
    ensures CountEpisode(a + b, episodeId) == CountEpisode(a, episodeId) + CountEpisode(b, episodeId)
  {
    if |b| == 0 {
      assert a + b == a;
    } else {
      assert (a + b)[..|a + b| - 1] == a + b[..|b| - 1];
      CountEpisodeAppend(a, b[..|b| - 1], episodeId);
    }
  }

  /** When the episodes are distinct, a successful grab writes exactly one
      history row for each of them and none for any other episode. */
  lemma {:induction false} OneHistoryEntryPerEpisode(episodes: seq<Episode>, title: string, quality: Quality, date: int, episodeId: int)
    requires forall i, j :: 0 <= i < j < |episodes| ==> episodes[i].episodeId != episodes[j].episodeId
    ensures CountEpisode(HistoryFor(episodes, title, quality, date), episodeId)
         == if episodeId in EpisodeIds(episodes) then 1 else 0
  {
    if |episodes| > 0 {
      var front := episodes[..|episodes| - 1];
      var last := episodes[|episodes| - 1];
      OneHistoryEntryPerEpisode(front, title, quality, date, episodeId);
      var h := HistoryFor(episodes, title, quality, date);
      assert h[..|h| - 1] == HistoryFor(front, title, quality, date);
      assert h[|h| - 1].episodeId == last.episodeId;
      assert CountEpisode(h, episodeId)
          == CountEpisode(HistoryFor(front, title, quality, date), episodeId) + (if last.episodeId == episodeId then 1 else 0);
      EpisodeIdsSnoc(front, last);
      if last.episodeId == episodeId {
        assert forall k :: 0 <= k < |front| ==> front[k].episodeId != episodeId by {
          forall k | 0 <= k < |front| ensures front[k].episodeId != episodeId {
            assert front[k] == episodes[k];
          }
        }
        NotAmongIds(front, episodeId);
      }
    }
  }

  /** A second successful grab of the same release writes every history
      row again: DownloadReport is not idempotent. */
  lemma RepeatedGrabDuplicatesHistory(episodes: seq<Episode>, title: string, quality: Quality, date: int, date': int, episodeId: int)
    ensures CountEpisode(HistoryFor(episodes, title, quality, date) + HistoryFor(episodes, title, quality, date'), episodeId)
         == 2 * CountEpisode(HistoryFor(episodes, title, quality, date), episodeId)
  {
    CountEpisodeAppend(HistoryFor(episodes, title, quality, date), HistoryFor(episodes, title, quality, date'), episodeId);
    SameEpisodesSameCount(episodes, title, quality, date, date', episodeId);
  }

  /** The date of a grab does not change which episodes its rows name. */
  lemma {:induction false} SameEpisodesSameCount(episodes: seq<Episode>, title: string, quality: Quality, date: int, date': int, episodeId: int)
    ensures CountEpisode(HistoryFor(episodes, title, quality, date), episodeId)
         == CountEpisode(HistoryFor(episodes, title, quality, date'), episodeId)
  {
    if |episodes| > 0 {
      SameEpisodesSameCount(episodes[..|episodes| - 1], title, quality, date, date', episodeId);
    }
  }

  /** One more submission counts once, for its own client only. */
  lemma SubmissionCounts(submissions: seq<Submission>, s: Submission, client: Client)
    ensures CountClient(submissions + [s], client)
         == CountClient(submissions, client) + (if s.client == client then 1 else 0)
  {
    assert (submissions + [s])[..|submissions|] == submissions;
  }

  class DownloadProvider {
    /** The configured client setting. */
    var clientType: DownloadClientType
    /** Every DownloadNzb call made on a client. */
    var submissions: seq<Submission>
    /** The rows added to the history store. */
    var history: seq<HistoryEntry>
    /** The episodes marked fetched. */
    var fetched: set<int>
    /** The titles passed to OnGrab. */
    var grabs: seq<string>

    /** Every episode with a history row is marked fetched. */
    ghost predicate Valid()
      reads this
    {
      forall h :: h in history ==> h.episodeId in fetched
    }

    constructor(clientType: DownloadClientType)
      ensures this.clientType == clientType
      ensures submissions == [] && history == [] && fetched == {} && grabs == []
      ensures Valid()
    {
      this.clientType := clientType;
      submissions := [];
      history := [];
      fetched := {};
      grabs := [];
    }

    /** DownloadReport: submits the formatted title and the release's url
        to the active client; on acceptance records every episode in the
        history and marks it fetched, then notifies once. A rejection
        changes nothing but the submission log. */
    method DownloadReport(parseResult: EpisodeParseResult, episodes: seq<Episode>,
                          accepts: (Client, string, string) -> bool, now: int)
      returns (ok: bool)
      requires Valid()
      modifies this
      ensures Valid()
      ensures clientType == old(clientType)
      ensures var client, title := GetActiveDownloadClient(clientType), GetDownloadTitle(parseResult);
        && ok == accepts(client, title, parseResult.nzbUrl)
        && submissions == old(submissions) + [Submission(client, title, parseResult.nzbUrl)]
        && CountClient(submissions, client) == CountClient(old(submissions), client) + 1
        && (forall other :: other != client ==> CountClient(submissions, other) == CountClient(old(submissions), other))
      ensures ok ==>
        && history == old(history) + HistoryFor(episodes, GetDownloadTitle(parseResult), parseResult.quality, now)
        && fetched == old(fetched) + EpisodeIds(episodes)
        && grabs == old(grabs) + [GetDownloadTitle(parseResult)]
      ensures !ok ==> history == old(history) && fetched == old(fetched) && grabs == old(grabs)
    {
      var title := GetDownloadTitle(parseResult);
      var client := GetActiveDownloadClient(clientType);
      var submission := Submission(client, title, parseResult.nzbUrl);
      forall other: Client ensures CountClient(submissions + [submission], other)
          == CountClient(submissions, other) + (if client == other then 1 else 0) {
        SubmissionCounts(submissions, submission, other);
      }
      submissions := submissions + [submission];
      ok := accepts(client, title, parseResult.nzbUrl);
      if !ok {
        return;
      }
      RecordEpisodes(episodes, title, parseResult.quality, now);
      grabs := grabs + [title];
    }

    /** The per-episode part of a successful grab: a history row, then a
        fetched mark, for each episode in turn. */
    method RecordEpisodes(episodes: seq<Episode>, title: string, quality: Quality, now: int)
      requires Valid()
      modifies this
      ensures Valid()
      ensures history == old(history) + HistoryFor(episodes, title, quality, now)
      ensures fetched == old(fetched) + EpisodeIds(episodes)
      ensures clientType == old(clientType) && submissions == old(submissions) && grabs == old(grabs)
    {
      var i := 0;
      while i < |episodes|
        invariant 0 <= i <= |episodes|
        invariant history == old(history) + HistoryFor(episodes[..i], title, quality, now)
        invariant fetched == old(fetched) + EpisodeIds(episodes[..i])
        invariant clientType == old(clientType) && submissions == old(submissions) && grabs == old(grabs)
      {
        var e := episodes[i];
        var row := HistoryEntry(e.episodeId, e.seriesId, title, quality, now);
        RecordStep(episodes, i, title, quality, now);
        history := history + [row];
        fetched := fetched + {e.episodeId};
        i := i + 1;
      }
      assert episodes[..|episodes|] == episodes;
      HistoryIdsFetched(episodes, title, quality, now);
      assert old(Valid());
    }
  }

  /** Grabbing the same release twice doubles its history rows: callers
      must avoid dispatching a release twice. */
  method DispatchTwice(provider: DownloadProvider, parseResult: EpisodeParseResult, episode: Episode,
                       accepts: (Client, string, string) -> bool, now: int)
    requires provider.Valid() && provider.history == []
    requires accepts(GetActiveDownloadClient(provider.clientType), GetDownloadTitle(parseResult), parseResult.nzbUrl)
    modifies provider
    ensures CountEpisode(provider.history, episode.episodeId) == 2
    ensures |provider.grabs| == |old(provider.grabs)| + 2
  {
    var first := provider.DownloadReport(parseResult, [episode], accepts, now);
    var second := provider.DownloadReport(parseResult, [episode], accepts, now);
    var entry := HistoryEntry(episode.episodeId, episode.seriesId, GetDownloadTitle(parseResult), parseResult.quality, now);
    assert HistoryFor([episode], GetDownloadTitle(parseResult), parseResult.quality, now) == [entry];
    assert provider.history == [entry, entry];
    assert [entry, entry][..1] == [entry];
    assert [entry][..0] == [];
    assert CountEpisode([entry], episode.episodeId) == 1;
  }
}
