/** XemService: keeps the set of series that have scene numbering on
    TheXEM, and copies XEM scene numbers onto a series' episodes.

    The XEM proxy, the episode and series stores and the cache manager are
    collaborators. What the proxy answers is a parameter (`None` when the
    call throws), the episodes of a series are a parameter, and the calls
    made to the stores are recorded in the `storeCalls` field. The cache of
    string keys to `true` is the set of ids it holds. */
module XemService {
  import opened Wrappers

  /** A season/episode/absolute triple, in either numbering. */
  datatype XemValues = XemValues(season: int, episode: int, absolute: int)

  /** One XEM mapping: a TVDB numbering and the scene numbering it maps to. */
  datatype XemMapping = XemMapping(tvdb: XemValues, scene: XemValues)

  datatype Episode = Episode(
    id: int,
    seriesId: int,
    seasonNumber: int,
    episodeNumber: int,
    absoluteEpisodeNumber: int,
    sceneSeasonNumber: int,
    sceneEpisodeNumber: int)

  datatype Series = Series(id: int, title: string, tvdbId: int, useSceneNumbering: bool)

  /** Whether a mapping's TVDB numbering names an episode. */
  predicate Matches(e: Episode, m: XemMapping) {
    e.seasonNumber == m.tvdb.season && e.episodeNumber == m.tvdb.episode
  }

  /** Two episodes are the same catalogue episode, whatever their scene
      numbers. */
  predicate SameEpisode(a: Episode, b: Episode) {
    a.id == b.id && a.seriesId == b.seriesId && a.seasonNumber == b.seasonNumber && a.episodeNumber == b.episodeNumber
  }

  /** The first position at or after `from` whose episode a mapping names. */
  function FindFrom(episodes: seq<Episode>, m: XemMapping, from: nat): (r: Option<nat>)
    requires from <= |episodes|
    ensures r.Some? ==> from <= r.value < |episodes| && Matches(episodes[r.value], m)
    ensures r.Some? ==> forall k :: from <= k < r.value ==> !Matches(episodes[k], m)
    ensures r.None? ==> forall k :: from <= k < |episodes| ==> !Matches(episodes[k], m)
    decreases |episodes| - from
  {
    if from == |episodes| then None
    else if Matches(episodes[from], m) then Some(from)
    else FindFrom(episodes, m, from + 1)
  }

  /** What SingleOrDefault does: no match gives null, one match gives that
      episode, and more than one throws. */
  datatype Lookup = NotFound | Found(index: nat) | Ambiguous

  function SingleOrDefault(episodes: seq<Episode>, m: XemMapping): (r: Lookup)
    ensures r.NotFound? <==> forall k :: 0 <= k < |episodes| ==> !Matches(episodes[k], m)
    ensures r.Found? ==> r.index < |episodes| && Matches(episodes[r.index], m)
    ensures r.Found? ==> forall k :: 0 <= k < |episodes| && k != r.index ==> !Matches(episodes[k], m)
    ensures r.Ambiguous? <==> exists i, j :: 0 <= i < j < |episodes| && Matches(episodes[i], m) && Matches(episodes[j], m)
  {
    match FindFrom(episodes, m, 0)
    case None => NotFound
    case Some(first) =>
      match FindFrom(episodes, m, first + 1)
      case None => Found(first)
      case Some(second) => Ambiguous
  }

  /** The lookup only reads the TVDB numbering, so scene numbers written
      by earlier mappings do not change it. */
  lemma LookupIgnoresSceneNumbers(xs: seq<Episode>, ys: seq<Episode>, m: XemMapping)
    requires |xs| == |ys|
    requires forall k :: 0 <= k < |xs| ==> SameEpisode(xs[k], ys[k])
    ensures SingleOrDefault(xs, m) == SingleOrDefault(ys, m)
  {
    assert forall k :: 0 <= k < |xs| ==> (Matches(xs[k], m) <==> Matches(ys[k], m));
  }

  /** The scene numbers of a mapping written onto an episode. */
  function ApplyMapping(e: Episode, m: XemMapping): Episode {
    e.(absoluteEpisodeNumber := m.scene.absolute,
       sceneSeasonNumber := m.scene.season,
       sceneEpisodeNumber := m.scene.episode)
  }

  /** The episodes after the mapping loop, and the positions in the
      episodesToUpdate list, in the order they were added. A position that
      two mappings hit appears twice, as the same episode object does in
      the list. */
  datatype Applied = Applied(episodes: seq<Episode>, toUpdate: seq<nat>)

  /** One turn of the mapping loop: look the mapping up in the episodes as
      they stand, and write its scene numbers onto the one episode found;
      `None` when the lookup throws. */
  function Step(a: Applied, m: XemMapping): Option<Applied> {
    match SingleOrDefault(a.episodes, m)
    case NotFound => Some(a)
    case Ambiguous => None
    case Found(i) => Some(Applied(a.episodes[i := ApplyMapping(a.episodes[i], m)], a.toUpdate + [i]))
  }

  /** One turn throws exactly when the lookup is ambiguous; otherwise it
      writes the mapping's scene numbers onto the episodes it names (at
      most one) and leaves every other episode as it was. */
  lemma StepEffect(a: Applied, m: XemMapping)
    ensures Step(a, m).None? <==> SingleOrDefault(a.episodes, m).Ambiguous?
    ensures Step(a, m).Some? ==>
      && |Step(a, m).value.episodes| == |a.episodes|
      && forall k :: 0 <= k < |a.episodes| ==>
           Step(a, m).value.episodes[k] == if Matches(a.episodes[k], m) then ApplyMapping(a.episodes[k], m) else a.episodes[k]
  {
    match SingleOrDefault(a.episodes, m)
    case NotFound =>
    case Ambiguous =>
    case Found(i) =>
      var es := Step(a, m).value.episodes;
      forall k | 0 <= k < |a.episodes|
        ensures es[k] == if Matches(a.episodes[k], m) then ApplyMapping(a.episodes[k], m) else a.episodes[k]
      {
        if k != i {
          assert !Matches(a.episodes[k], m);
        }
      }
  }

  /** The mapping loop of PerformUpdate, mapping by mapping; `None` when a
      lookup throws. */
  function ApplyMappings(episodes: seq<Episode>, mappings: seq<XemMapping>): (r: Option<Applied>)
    ensures r.Some? ==> |r.value.episodes| == |episodes|
    ensures r.Some? ==> forall k :: 0 <= k < |episodes| ==> SameEpisode(r.value.episodes[k], episodes[k])
    ensures r.Some? ==> forall k :: 0 <= k < |r.value.toUpdate| ==> r.value.toUpdate[k] < |episodes|
  {
    if |mappings| == 0 then Some(Applied(episodes, []))
    else
      var m := mappings[|mappings| - 1];
      match ApplyMappings(episodes, mappings[..|mappings| - 1])
      case None => None
      case Some(a) => Step(a, m)
  }

  /** The loop after one more mapping. */
  lemma ApplyMappingsSnoc(episodes: seq<Episode>, ms: seq<XemMapping>, i: nat)
    requires i < |ms|
    ensures ApplyMappings(episodes, ms[..i + 1])
         == if ApplyMappings(episodes, ms[..i]).None? then None else Step(ApplyMappings(episodes, ms[..i]).value, ms[i])
  {
    assert ms[..i + 1][..i] == ms[..i];
    assert ms[..i + 1][i] == ms[i];
  }

  /** The last of the mappings that names an episode. */
  function LastMatch(e: Episode, mappings: seq<XemMapping>): (r: Option<XemMapping>)
    ensures r.Some? ==> r.value in mappings && Matches(e, r.value)
    ensures r.None? ==> forall k :: 0 <= k < |mappings| ==> !Matches(e, mappings[k])
  {
    if |mappings| == 0 then None
    else if Matches(e, mappings[|mappings| - 1]) then Some(mappings[|mappings| - 1])
    else LastMatch(e, mappings[..|mappings| - 1])
  }

  /** An episode as the mappings leave it: with the scene numbers of the
      last mapping that names it, or unchanged. */
  function Mapped(e: Episode, mappings: seq<XemMapping>): Episode {
    match LastMatch(e, mappings)
    case None => e
    case Some(m) => ApplyMapping(e, m)
  }

  /** The positions the mappings find, in mapping order, each looked up in
      the episode list as it was fetched. */
  function Hits(episodes: seq<Episode>, mappings: seq<XemMapping>): seq<nat> {
    if |mappings| == 0 then []
    else
      var rest := Hits(episodes, mappings[..|mappings| - 1]);
      match SingleOrDefault(episodes, mappings[|mappings| - 1])
      case Found(i) => rest + [i]
      case _ => rest
  }

  /** The loop throws exactly when some mapping names more than one
      episode. */
  lemma {:induction false} ApplyMappingsFails(episodes: seq<Episode>, mappings: seq<XemMapping>)
    ensures ApplyMappings(episodes, mappings).None?
        <==> exists k :: 0 <= k < |mappings| && SingleOrDefault(episodes, mappings[k]).Ambiguous?
  {
    if |mappings| > 0 {
      var front := mappings[..|mappings| - 1];
      var m := mappings[|mappings| - 1];
      ApplyMappingsFails(episodes, front);
      match ApplyMappings(episodes, front)
      case None =>
        var k :| 0 <= k < |front| && SingleOrDefault(episodes, front[k]).Ambiguous?;
        assert mappings[k] == front[k];
      case Some(a) =>
        LookupIgnoresSceneNumbers(a.episodes, episodes, m);
        assert ApplyMappings(episodes, mappings) == Step(a, m);
        if SingleOrDefault(episodes, m).Ambiguous? {
          assert mappings[|mappings| - 1] == m;
        } else {
          assert ApplyMappings(episodes, mappings).Some?;
          forall k | 0 <= k < |mappings|
            ensures !SingleOrDefault(episodes, mappings[k]).Ambiguous?
          {
            if k < |front| {
              assert mappings[k] == front[k];
            }
          }
        }
    }
  }

  /** When the loop completes, every episode carries the scene numbers of
      the last mapping that names it (a later mapping wins), episodes no
      mapping names are unchanged, and episodesToUpdate lists the found
      positions in mapping order. */
  lemma {:induction false} LaterMappingWins(episodes: seq<Episode>, mappings: seq<XemMapping>)
    requires ApplyMappings(episodes, mappings).Some?
    ensures var a := ApplyMappings(episodes, mappings).value;
      && (forall k :: 0 <= k < |episodes| ==> a.episodes[k] == Mapped(episodes[k], mappings))
      && a.toUpdate == Hits(episodes, mappings)
  {
    if |mappings| > 0 {
      var front := mappings[..|mappings| - 1];
      var m := mappings[|mappings| - 1];
      LaterMappingWins(episodes, front);
      var a' := ApplyMappings(episodes, front).value;
      LookupIgnoresSceneNumbers(a'.episodes, episodes, m);
      var a := ApplyMappings(episodes, mappings).value;
      forall k | 0 <= k < |episodes|
        ensures a.episodes[k] == Mapped(episodes[k], mappings)
      {
        if Matches(episodes[k], m) {
          assert SingleOrDefault(episodes, m) == Found(k);
          assert LastMatch(episodes[k], mappings) == Some(m);
        } else {
          assert LastMatch(episodes[k], mappings) == LastMatch(episodes[k], front);
        }
      }
    }
  }

  /** An episode is in episodesToUpdate exactly when some mapping names it
      (once the loop completes). */
  lemma {:induction false} HitsAreMatches(episodes: seq<Episode>, mappings: seq<XemMapping>, i: nat)
    requires forall k :: 0 <= k < |mappings| ==> !SingleOrDefault(episodes, mappings[k]).Ambiguous?
    requires i < |episodes|
    ensures i in Hits(episodes, mappings) <==> LastMatch(episodes[i], mappings).Some?
  {
    if |mappings| > 0 {
      var front := mappings[..|mappings| - 1];
      var m := mappings[|mappings| - 1];
      assert forall k :: 0 <= k < |front| ==> front[k] == mappings[k];
      HitsAreMatches(episodes, front, i);
      assert !SingleOrDefault(episodes, m).Ambiguous?;
      if Matches(episodes[i], m) {
        assert SingleOrDefault(episodes, m) == Found(i);
      }
    }
  }

  /** The episodes handed to UpdateEpisodes: the list entries, each read
      after the loop. */
  function Batch(a: Applied): seq<Episode>
    requires forall k :: 0 <= k < |a.toUpdate| ==> a.toUpdate[k] < |a.episodes|
  {
    seq(|a.toUpdate|, k requires 0 <= k < |a.toUpdate| => a.episodes[a.toUpdate[k]])
  }

  /** The episodes handed to UpdateEpisodes after a completed loop are,
      list entry by list entry, the found episodes with the scene numbers
      of the last mapping that names them. */
  lemma BatchCarriesFinalNumbers(episodes: seq<Episode>, mappings: seq<XemMapping>)
    requires ApplyMappings(episodes, mappings).Some?
    ensures var a := ApplyMappings(episodes, mappings).value;
      var hits := Hits(episodes, mappings);
      && |Batch(a)| == |hits|
      && forall k :: 0 <= k < |hits| ==> hits[k] < |episodes| && Batch(a)[k] == Mapped(episodes[hits[k]], mappings)
  {
    LaterMappingWins(episodes, mappings);
  }

  /** How PerformUpdate ends for one series. */
  datatype Outcome =
    | ProxyFailed                 // GetSceneTvdbMappings threw; swallowed
    | NoMappings                  // no mappings: the series leaves the cache
    | Aborted                     // SingleOrDefault threw; swallowed
    | Committed(batch: seq<Episode>, series: Series)

  function UpdateOutcome(series: Series, mappings: Option<seq<XemMapping>>, episodes: seq<Episode>): Outcome {
    match mappings
    case None => ProxyFailed
    case Some(ms) =>
      if |ms| == 0 then NoMappings
      else
        match ApplyMappings(episodes, ms)
        case None => Aborted
        case Some(a) => Committed(Batch(a), series.(useSceneNumbering := true))
  }

  /** An update commits exactly when the proxy answered with mappings and
      none of them is ambiguous; it then flags the series and stores only
      episodes of the fetched list. */
  lemma OutcomeCommits(series: Series, mappings: Option<seq<XemMapping>>, episodes: seq<Episode>)
    ensures var r := UpdateOutcome(series, mappings, episodes);
      && (r.Committed? <==>
          && mappings.Some? && |mappings.value| > 0
          && forall k :: 0 <= k < |mappings.value| ==> !SingleOrDefault(episodes, mappings.value[k]).Ambiguous?)
      && (r.Committed? ==>
          && r.series.useSceneNumbering
          && r.series == series.(useSceneNumbering := true)
          && (forall e :: e in r.batch ==> exists k :: 0 <= k < |episodes| && SameEpisode(e, episodes[k])))
  {
    if mappings.Some? && |mappings.value| > 0 {
      ApplyMappingsFails(episodes, mappings.value);
      var r := UpdateOutcome(series, mappings, episodes);
      if r.Committed? {
        var a := ApplyMappings(episodes, mappings.value).value;
        forall e | e in r.batch
          ensures exists k :: 0 <= k < |episodes| && SameEpisode(e, episodes[k])
        {
          var j :| 0 <= j < |r.batch| && r.batch[j] == e;
          assert SameEpisode(e, episodes[a.toUpdate[j]]);
        }
      }
    }
  }

  /** A write to the episode or series store. */
  datatype StoreCall = UpdateEpisodes(batch: seq<Episode>) | UpdateSeries(series: Series)

  /** The store writes of one PerformUpdate: the episodes first, then the
      series with its flag set, and nothing unless the loop completed. */
  function Effects(o: Outcome): seq<StoreCall> {
    if o.Committed? then [UpdateEpisodes(o.batch), UpdateSeries(o.series)] else []
  }

  /** An update writes nothing unless it committed; the series write is
      always preceded by the write of the episodes, and it stores the
      flagged series. */
  lemma EffectsWrites(o: Outcome)
    ensures Effects(o) == [] <==> !o.Committed?
    ensures forall k :: 0 <= k < |Effects(o)| && Effects(o)[k].UpdateSeries? ==>
      k > 0 && Effects(o)[k - 1] == UpdateEpisodes(o.batch) && Effects(o)[k].series == o.series
  {
  }

  /** The cache after one PerformUpdate. */
  function CacheAfter(cache: set<int>, tvdbId: int, o: Outcome): set<int> {
    if o.NoMappings? then cache - {tvdbId} else cache
  }

  /** The series whose TVDB id is among the ids, in their order. */
  function Wanted(all: seq<Series>, ids: seq<int>): (r: seq<Series>)
    ensures forall s :: s in r <==> s in all && s.tvdbId in ids
  {
    if |all| == 0 then []
    else
      var rest := Wanted(all[..|all| - 1], ids);
      var s := all[|all| - 1];
      assert all == all[..|all| - 1] + [s];
      if s.tvdbId in ids then rest + [s] else rest
  }

  /** The store writes of PerformUpdate run over several series in turn. */
  function AllEffects(series: seq<Series>, mappingsOf: int -> Option<seq<XemMapping>>,
                      episodesOf: int -> seq<Episode>): seq<StoreCall>
  {
    if |series| == 0 then []
    else
      var s := series[|series| - 1];
      AllEffects(series[..|series| - 1], mappingsOf, episodesOf)
        + Effects(UpdateOutcome(s, mappingsOf(s.tvdbId), episodesOf(s.id)))
  }

  /** The cache after PerformUpdate over several series in turn. */
  function CacheAfterAll(cache: set<int>, series: seq<Series>, mappingsOf: int -> Option<seq<XemMapping>>,
                         episodesOf: int -> seq<Episode>): set<int>
  {
    if |series| == 0 then cache
    else
      var s := series[|series| - 1];
      CacheAfter(CacheAfterAll(cache, series[..|series| - 1], mappingsOf, episodesOf), s.tvdbId,
                 UpdateOutcome(s, mappingsOf(s.tvdbId), episodesOf(s.id)))
  }

  /** The writes and the cache after one more series. */
  lemma AllSnoc(series: seq<Series>, i: nat, cache: set<int>, mappingsOf: int -> Option<seq<XemMapping>>,
                episodesOf: int -> seq<Episode>)
    requires i < |series|
    ensures var s := series[i];
      var o := UpdateOutcome(s, mappingsOf(s.tvdbId), episodesOf(s.id));
      && AllEffects(series[..i + 1], mappingsOf, episodesOf) == AllEffects(series[..i], mappingsOf, episodesOf) + Effects(o)
      && CacheAfterAll(cache, series[..i + 1], mappingsOf, episodesOf)
         == CacheAfter(CacheAfterAll(cache, series[..i], mappingsOf, episodesOf), s.tvdbId, o)
  {
    assert series[..i + 1][..i] == series[..i];
    assert series[..i + 1][i] == series[i];
  }

  /** A refresh flags exactly the series it ran on whose update
      completed. */
  lemma {:induction false} AllEffectsFlagsCommitted(series: seq<Series>, mappingsOf: int -> Option<seq<XemMapping>>,
                                                    episodesOf: int -> seq<Episode>, flagged: Series)
    ensures UpdateSeries(flagged) in AllEffects(series, mappingsOf, episodesOf)
        <==> exists s :: s in series && UpdateOutcome(s, mappingsOf(s.tvdbId), episodesOf(s.id)).Committed?
                                     && UpdateOutcome(s, mappingsOf(s.tvdbId), episodesOf(s.id)).series == flagged
  {
    if |series| > 0 {
      var front := series[..|series| - 1];
      var s := series[|series| - 1];
      AllEffectsFlagsCommitted(front, mappingsOf, episodesOf, flagged);
      assert series == front + [s];
      var o := UpdateOutcome(s, mappingsOf(s.tvdbId), episodesOf(s.id));
      assert UpdateSeries(flagged) in Effects(o) <==> o.Committed? && o.series == flagged;
    }
  }

  class XemService {
    /** The TVDB ids known to have scene numbering. */
    var cache: set<int>
    /** Every write made to the episode and series stores. */
    var storeCalls: seq<StoreCall>

    constructor()
      ensures cache == {} && storeCalls == []
    {
      cache := {};
      storeCalls := [];
    }

    /** GetXemSeriesIds: empties the cache, then adds every id the proxy
        returns. When the proxy throws, the cache stays empty and the
        failure propagates (`None`). */
    method GetXemSeriesIds(proxyIds: Option<seq<int>>) returns (ids: Option<seq<int>>)
      modifies this
      ensures ids == proxyIds
      ensures proxyIds.None? ==> cache == {}
      ensures proxyIds.Some? ==> cache == set id | id in proxyIds.value
      ensures storeCalls == old(storeCalls)
    {
      cache := {};
      if proxyIds.None? {
        return None;
      }
      var list := proxyIds.value;
      var i := 0;
      while i < |list|
        invariant 0 <= i <= |list|
        invariant forall id :: id in cache <==> id in list[..i]
        invariant storeCalls == old(storeCalls)
      {
        assert list[..i + 1] == list[..i] + [list[i]];
        cache := cache + {list[i]};
        i := i + 1;
      }
      assert list[..|list|] == list;
      assert forall id :: id in cache <==> id in list;
      assert cache == set id | id in list;
      return proxyIds;
    }

    /** PerformUpdate: fetches the mappings (here `mappings`); none at all
        removes the series from the cache; otherwise every mapping that
        names exactly one episode writes its scene numbers onto it, the
        touched episodes are stored, and the series is stored with scene
        numbering switched on. A proxy failure or a lookup that finds two
        episodes ends the update without a store write. Returns the series
        as the caller's object ends up. */
    method PerformUpdate(series: Series, mappings: Option<seq<XemMapping>>, episodes: seq<Episode>)
      returns (updated: Series)
      modifies this
      ensures var o := UpdateOutcome(series, mappings, episodes);
        && cache == CacheAfter(old(cache), series.tvdbId, o)
        && storeCalls == old(storeCalls) + Effects(o)
        && updated == if o.Committed? then o.series else series
    {
      if mappings.None? {
        return series;
      }
      var ms := mappings.value;
      if |ms| == 0 {
        cache := cache - {series.tvdbId};
        return series;
      }
      var current := episodes;
      var toUpdate: seq<nat> := [];
      var i := 0;
      while i < |ms|
        invariant 0 <= i <= |ms|
        invariant ApplyMappings(episodes, ms[..i]) == Some(Applied(current, toUpdate))
        invariant cache == old(cache) && storeCalls == old(storeCalls)
      {
        var m := ms[i];
        ApplyMappingsSnoc(episodes, ms, i);
        match SingleOrDefault(current, m) {
          case Ambiguous =>
            AbortPersists(episodes, ms, i + 1);
            return series;
          case NotFound =>
          case Found(k) =>
            current := current[k := ApplyMapping(current[k], m)];
            toUpdate := toUpdate + [k];
        }
        i := i + 1;
      }
      assert ms[..|ms|] == ms;
      var batch := Batch(Applied(current, toUpdate));
      storeCalls := storeCalls + [UpdateEpisodes(batch)];
      updated := series.(useSceneNumbering := true);
      storeCalls := storeCalls + [UpdateSeries(updated)];
    }

    /** UpdateMappings(series): a series the cache does not list is left
        alone; any other is updated. */
    method UpdateSeriesMappings(series: Series, mappings: Option<seq<XemMapping>>, episodes: seq<Episode>)
      returns (updated: Series)
      modifies this
      ensures series.tvdbId !in old(cache) ==>
        cache == old(cache) && storeCalls == old(storeCalls) && updated == series
      ensures series.tvdbId in old(cache) ==>
        var o := UpdateOutcome(series, mappings, episodes);
        && cache == CacheAfter(old(cache), series.tvdbId, o)
        && storeCalls == old(storeCalls) + Effects(o)
        && updated == if o.Committed? then o.series else series
    {
      if series.tvdbId !in cache {
        return series;
      }
      updated := PerformUpdate(series, mappings, episodes);
    }

    /** UpdateMappings(): refreshes the cache from the proxy, then reads
        the catalogue (`None` when GetAllSeries throws) and updates every
        series whose TVDB id the proxy listed, in catalogue order. A failure
        of either call propagates (`false`): after a proxy failure the
        cache is empty, after a catalogue failure it holds the fetched ids;
        no store is written either way. */
    method UpdateAllMappings(proxyIds: Option<seq<int>>, allSeries: Option<seq<Series>>,
                             mappingsOf: int -> Option<seq<XemMapping>>, episodesOf: int -> seq<Episode>)
      returns (ok: bool)
      modifies this
      ensures ok <==> proxyIds.Some? && allSeries.Some?
      ensures proxyIds.None? ==> cache == {} && storeCalls == old(storeCalls)
      ensures proxyIds.Some? && allSeries.None? ==>
        cache == (set id | id in proxyIds.value) && storeCalls == old(storeCalls)
      ensures ok ==>
        var wanted := Wanted(allSeries.value, proxyIds.value);
        && storeCalls == old(storeCalls) + AllEffects(wanted, mappingsOf, episodesOf)
        && cache == CacheAfterAll((set id | id in proxyIds.value), wanted, mappingsOf, episodesOf)
    {
      var ids := GetXemSeriesIds(proxyIds);
      if ids.None? || allSeries.None? {
        return false;
      }
      var wanted := Wanted(allSeries.value, ids.value);
      UpdateEach(wanted, mappingsOf, episodesOf);
      return true;
    }

    /** The loop of UpdateMappings(): PerformUpdate on each wanted series
        in turn. */
    method UpdateEach(wanted: seq<Series>, mappingsOf: int -> Option<seq<XemMapping>>, episodesOf: int -> seq<Episode>)
      modifies this
      ensures storeCalls == old(storeCalls) + AllEffects(wanted, mappingsOf, episodesOf)
      ensures cache == CacheAfterAll(old(cache), wanted, mappingsOf, episodesOf)
    {
      ghost var cache0 := cache;
      ghost var calls0 := storeCalls;
      var i := 0;
      while i < |wanted|
        invariant 0 <= i <= |wanted|
        invariant storeCalls == calls0 + AllEffects(wanted[..i], mappingsOf, episodesOf)
        invariant cache == CacheAfterAll(cache0, wanted[..i], mappingsOf, episodesOf)
      {
        var s := wanted[i];
        AllSnoc(wanted, i, cache0, mappingsOf, episodesOf);
        var _ := PerformUpdate(s, mappingsOf(s.tvdbId), episodesOf(s.id));
        i := i + 1;
      }
      assert wanted[..|wanted|] == wanted;
    }
  }

  /** Once the loop has thrown, later mappings do not resume it. */
  lemma {:induction false} AbortPersists(episodes: seq<Episode>, mappings: seq<XemMapping>, n: nat)
    requires n <= |mappings|
    requires ApplyMappings(episodes, mappings[..n]).None?
    ensures ApplyMappings(episodes, mappings).None?
  {
    if n < |mappings| {
      var m := |mappings|;
      assert mappings[..m - 1][..n] == mappings[..n];
      AbortPersists(episodes, mappings[..m - 1], n);
    } else {
      assert mappings[..n] == mappings;
    }
  }
}
