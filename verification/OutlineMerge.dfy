/** Merging a provider's episode outline with the seasons and episodes a library holds. */
module OutlineMerge {
  import opened Decimals
  import opened Sequences
  import opened Sorting
  import opened Text
  import opened Wrappers

  datatype LocalEpisode = LocalEpisode(
    number: int, mediaItemId: int, hasFiles: bool, title: string, overview: Option<string>,
    poster: Option<string>, backdrop: Option<string>, introStart: Option<int>, introEnd: Option<int>)

  datatype LocalSeason = LocalSeason(
    number: int, seasonId: int, title: Option<string>, overview: Option<string>,
    poster: Option<string>, backdrop: Option<string>, introStart: Option<int>, introEnd: Option<int>,
    episodes: seq<LocalEpisode>)

  datatype RemoteEpisode = RemoteEpisode(
    number: int, title: Option<string>, overview: Option<string>, poster: Option<string>, backdrop: Option<string>)

  datatype RemoteSeason = RemoteSeason(
    number: int, title: Option<string>, year: Option<int>, overview: Option<string>,
    poster: Option<string>, backdrop: Option<string>, episodes: seq<RemoteEpisode>)

  datatype Progress = Progress(positionSeconds: int, isFinished: bool)

  type ProgressByItem = map<int, Progress>

  datatype OutlineEpisode = OutlineEpisode(
    number: int, title: string, overview: Option<string>, poster: Option<string>, backdrop: Option<string>,
    introStart: Option<int>, introEnd: Option<int>, mediaItemId: Option<int>, isAvailable: bool,
    progress: Option<Progress>)

  datatype OutlineSeason = OutlineSeason(
    number: int, seasonId: Option<int>, title: Option<string>, year: Option<int>, overview: Option<string>,
    poster: Option<string>, backdrop: Option<string>, introStart: Option<int>, introEnd: Option<int>,
    episodes: seq<OutlineEpisode>)

  /** An ordered map: ascending and without repetition. */
  ghost predicate IsInventory(inventory: seq<LocalSeason>) {
    && (forall i, j | 0 <= i < j < |inventory| :: inventory[i].number < inventory[j].number)
    && forall i | 0 <= i < |inventory| :: HasOrderedEpisodes(inventory[i])
  }

  ghost predicate HasOrderedEpisodes(season: LocalSeason) {
    forall i, j | 0 <= i < j < |season.episodes| :: season.episodes[i].number < season.episodes[j].number
  }

  function EpisodeNumbered(episodes: seq<LocalEpisode>, n: int): (r: Option<LocalEpisode>)
    ensures r.Some? ==> r.value in episodes && r.value.number == n
    ensures r.None? ==> forall e | e in episodes :: e.number != n
  {
    if episodes == [] then None
    else if episodes[|episodes| - 1].number == n then Some(episodes[|episodes| - 1])
    else EpisodeNumbered(episodes[..|episodes| - 1], n)
  }

  function ProgressOf(progress: ProgressByItem, item: int): Option<Progress> {
    if item in progress then Some(progress[item]) else None
  }

  function FromLocal(e: LocalEpisode, progress: ProgressByItem): OutlineEpisode {
    OutlineEpisode(e.number, e.title, e.overview, e.poster, e.backdrop, e.introStart, e.introEnd,
                   Some(e.mediaItemId), e.hasFiles, ProgressOf(progress, e.mediaItemId))
  }

  function SeasonFromLocal(s: LocalSeason, progress: ProgressByItem): OutlineSeason {
    OutlineSeason(s.number, Some(s.seasonId), s.title, None, s.overview, s.poster, s.backdrop, s.introStart, s.introEnd,
                  LocalEpisodes(s.episodes, progress))
  }

  function LocalEpisodes(episodes: seq<LocalEpisode>, progress: ProgressByItem): seq<OutlineEpisode> {
    seq(|episodes|, i requires 0 <= i < |episodes| => FromLocal(episodes[i], progress))
  }

  function BuildLocalOutline(inventory: seq<LocalSeason>, progress: ProgressByItem): seq<OutlineSeason> {
    seq(|inventory|, i requires 0 <= i < |inventory| => SeasonFromLocal(inventory[i], progress))
  }

  function DefaultTitle(n: nat): string {
    "Episode " + Decimal(n)
  }

  /** The provider's words where it has any, the library's files and progress. */
  function FromRemote(r: RemoteEpisode, local: Option<LocalEpisode>, progress: ProgressByItem): OutlineEpisode
    requires r.number >= 1
  {
    var title := Or(Stated(r.title), if local.Some? then Some(local.value.title) else None);
    OutlineEpisode(
      r.number,
      if title.Some? then title.value else DefaultTitle(r.number),
      Or(r.overview, if local.Some? then local.value.overview else None),
      r.poster, r.backdrop,
      if local.Some? then local.value.introStart else None,
      if local.Some? then local.value.introEnd else None,
      if local.Some? then Some(local.value.mediaItemId) else None,
      local.Some? && local.value.hasFiles,
      if local.Some? then ProgressOf(progress, local.value.mediaItemId) else None)
  }

  function RemotePart(remote: seq<RemoteEpisode>, local: seq<LocalEpisode>,
                      progress: ProgressByItem): seq<OutlineEpisode> {
    if remote == [] then []
    else
      var last := remote[|remote| - 1];
      RemotePart(remote[..|remote| - 1], local, progress)
      + (if last.number < 1 then [] else [FromRemote(last, EpisodeNumbered(local, last.number), progress)])
  }

  predicate IsListed(remote: seq<RemoteEpisode>, n: int) {
    n >= 1 && exists i | 0 <= i < |remote| :: remote[i].number == n
  }

  /** Local episodes the provider does not list. */
  function LocalPart(local: seq<LocalEpisode>, remote: seq<RemoteEpisode>,
                     progress: ProgressByItem): seq<OutlineEpisode> {
    if local == [] then []
    else
      var last := local[|local| - 1];
      LocalPart(local[..|local| - 1], remote, progress)
      + (if IsListed(remote, last.number) then [] else [FromLocal(last, progress)])
  }

  predicate NumberLe(a: OutlineEpisode, b: OutlineEpisode) {
    a.number <= b.number
  }

  function MergedEpisodes(remote: seq<RemoteEpisode>, local: seq<LocalEpisode>, progress: ProgressByItem)
    : seq<OutlineEpisode>
  {
    SortBy(NumberLe, RemotePart(remote, local, progress) + LocalPart(local, remote, progress))
  }

  function MergedSeason(remote: RemoteSeason, local: LocalSeason, progress: ProgressByItem): OutlineSeason {
    OutlineSeason(local.number, Some(local.seasonId), Or(Stated(remote.title), local.title), remote.year,
                  Or(remote.overview, local.overview), remote.poster, remote.backdrop, local.introStart, local.introEnd,
                  MergedEpisodes(remote.episodes, local.episodes, progress))
  }

  /** The last season the provider lists under a number. */
  function LastNumbered(remote: seq<RemoteSeason>, n: int): Option<RemoteSeason> {
    if remote == [] || n < 1 then None
    else if remote[|remote| - 1].number == n then Some(remote[|remote| - 1])
    else LastNumbered(remote[..|remote| - 1], n)
  }

  function SeasonFor(remote: seq<RemoteSeason>, local: LocalSeason, progress: ProgressByItem): OutlineSeason {
    var season := LastNumbered(remote, local.number);
    if season.Some? then MergedSeason(season.value, local, progress) else SeasonFromLocal(local, progress)
  }

  function Merged(remote: seq<RemoteSeason>, inventory: seq<LocalSeason>,
                  progress: ProgressByItem): seq<OutlineSeason> {
    seq(|inventory|, i requires 0 <= i < |inventory| => SeasonFor(remote, inventory[i], progress))
  }

  // ---- the loops ----

  /** The provider's episodes, and the numbers they take. */
  method ListRemote(remote: seq<RemoteEpisode>, local: seq<LocalEpisode>, progress: ProgressByItem)
    returns (episodes: seq<OutlineEpisode>, seen: set<int>)
    ensures episodes == RemotePart(remote, local, progress)
    ensures forall n :: n in seen <==> IsListed(remote, n)
  {
    episodes, seen := [], {};
    for i := 0 to |remote|
      invariant episodes == RemotePart(remote[..i], local, progress)
      invariant forall n :: n in seen <==> IsListed(remote[..i], n)
    {
      assert remote[..i + 1] == remote[..i] + [remote[i]];
      var r := remote[i];
      forall n {
        ListedNext(remote[..i], r, n);
      }
      if r.number >= 1 {
        seen := seen + {r.number};
        episodes := episodes + [FromRemote(r, EpisodeNumbered(local, r.number), progress)];
      }
      assert remote[..i + 1][..i] == remote[..i];
    }
    assert remote[..|remote|] == remote;
  }

  lemma ListedNext(remote: seq<RemoteEpisode>, r: RemoteEpisode, n: int)
    ensures IsListed(remote + [r], n) <==> IsListed(remote, n) || (n >= 1 && r.number == n)
  {
    if IsListed(remote, n) {
      var k :| 0 <= k < |remote| && remote[k].number == n;
      assert (remote + [r])[k].number == n;
    }
    if n >= 1 && r.number == n {
      assert (remote + [r])[|remote|].number == n;
    }
  }

  method MergeEpisodes(remote: seq<RemoteEpisode>, local: seq<LocalEpisode>, progress: ProgressByItem)
    returns (episodes: seq<OutlineEpisode>)
    ensures episodes == MergedEpisodes(remote, local, progress)
  {
    var listed, seen := ListRemote(remote, local, progress);
    var unlisted: seq<OutlineEpisode> := [];
    for i := 0 to |local|
      invariant unlisted == LocalPart(local[..i], remote, progress)
    {
      assert local[..i + 1][..i] == local[..i];
      if local[i].number !in seen {
        unlisted := unlisted + [FromLocal(local[i], progress)];
      }
    }
    assert local[..|local|] == local;
    episodes := SortBy(NumberLe, listed + unlisted);
  }

  function SeasonNumbered(inventory: seq<LocalSeason>, n: int): (r: Option<LocalSeason>)
    ensures r.Some? ==> r.value in inventory && r.value.number == n
    ensures r.None? ==> forall s | s in inventory :: s.number != n
  {
    if inventory == [] then None
    else if inventory[0].number == n then Some(inventory[0])
    else SeasonNumbered(inventory[1..], n)
  }

  /** What the seasons merged so far are, by number. */
  ghost predicate HoldsMerged(merged: map<int, OutlineSeason>, remote: seq<RemoteSeason>, inventory: seq<LocalSeason>,
                              progress: ProgressByItem)
  {
    forall k | 0 <= k < |inventory| ::
      var n := inventory[k].number;
      && (n in merged <==> LastNumbered(remote, n).Some?)
      && (n in merged ==> merged[n] == SeasonFor(remote, inventory[k], progress))
  }

  method MergeSeasons(remote: seq<RemoteSeason>, inventory: seq<LocalSeason>, progress: ProgressByItem)
    returns (merged: map<int, OutlineSeason>)
    requires IsInventory(inventory)
    ensures HoldsMerged(merged, remote, inventory, progress)
  {
    merged := map[];
    for i := 0 to |remote|
      invariant HoldsMerged(merged, remote[..i], inventory, progress)
    {
      assert remote[..i + 1][..i] == remote[..i];
      var r := remote[i];
      var local := if r.number >= 1 then SeasonNumbered(inventory, r.number) else None;
      if local.Some? {
        var episodes := MergeEpisodes(r.episodes, local.value.episodes, progress);
        var season := OutlineSeason(
          local.value.number, Some(local.value.seasonId), Or(Stated(r.title), local.value.title), r.year,
          Or(r.overview, local.value.overview), r.poster, r.backdrop, local.value.introStart, local.value.introEnd,
              episodes);
        assert season == MergedSeason(r, local.value, progress);
        merged := merged[r.number := season];
      }
      forall k | 0 <= k < |inventory|
        ensures var n := inventory[k].number;
                && (n in merged <==> LastNumbered(remote[..i + 1], n).Some?)
                && (n in merged ==> merged[n] == SeasonFor(remote[..i + 1], inventory[k], progress))
      {
        assert inventory[k] in inventory;
      }
    }
    assert remote[..|remote|] == remote;
  }

  method MergeRemoteOutline(remote: seq<RemoteSeason>, inventory: seq<LocalSeason>, progress: ProgressByItem)
    returns (outline: seq<OutlineSeason>)
    requires IsInventory(inventory)
    ensures outline == Merged(remote, inventory, progress)
  {
    var merged := MergeSeasons(remote, inventory, progress);
    outline := [];
    for i := 0 to |inventory|
      invariant |outline| == i
      invariant forall k | 0 <= k < i :: outline[k] == SeasonFor(remote, inventory[k], progress)
    {
      var local := inventory[i];
      outline := outline + [if local.number in merged then merged[local.number] else SeasonFromLocal(local, progress)];
    }
  }

  // ---- what the merge conserves ----

  function ByNumber(n: int): OutlineEpisode -> bool {
    (e: OutlineEpisode) => e.number == n
  }

  function ByItem(item: int): OutlineEpisode -> bool {
    (e: OutlineEpisode) => e.mediaItemId == Some(item)
  }

  function ListedAs(n: int): RemoteEpisode -> bool {
    (r: RemoteEpisode) => r.number == n
  }

  /** How often the provider lists a number that can be an episode's. */
  function Listings(remote: seq<RemoteEpisode>, n: int): nat {
    if n < 1 then 0 else |Keep(remote, ListedAs(n))|
  }

  lemma {:induction false} RemotePartCounts(remote: seq<RemoteEpisode>, local: seq<LocalEpisode>,
                                            progress: ProgressByItem, n: int)
    ensures |Keep(RemotePart(remote, local, progress), ByNumber(n))| == Listings(remote, n)
  {
    if remote != [] {
      var init, last := remote[..|remote| - 1], remote[|remote| - 1];
      RemotePartCounts(init, local, progress, n);
      if last.number >= 1 {
        KeepNext(RemotePart(init, local, progress), ByNumber(n), FromRemote(last, EpisodeNumbered(local,
            last.number), progress));
      } else {
        assert RemotePart(remote, local, progress) == RemotePart(init, local, progress);
      }
    }
  }

  lemma {:induction false} LocalPartCounts(local: seq<LocalEpisode>, remote: seq<RemoteEpisode>,
                                           progress: ProgressByItem, n: int)
    requires forall i, j | 0 <= i < j < |local| :: local[i].number < local[j].number
    ensures |Keep(LocalPart(local, remote, progress), ByNumber(n))| ==
            if EpisodeNumbered(local, n).Some? && !IsListed(remote, n) then 1 else 0
  {
    if local != [] {
      var init, last := local[..|local| - 1], local[|local| - 1];
      LocalPartCounts(init, remote, progress, n);
      forall e | e in init
        ensures e.number != last.number
      {
        var i :| 0 <= i < |init| && init[i] == e;
        assert local[i].number < local[|local| - 1].number;
      }
      if !IsListed(remote, last.number) {
        KeepNext(LocalPart(init, remote, progress), ByNumber(n), FromLocal(last, progress));
      } else {
        assert LocalPart(local, remote, progress) == LocalPart(init, remote, progress);
      }
    }
  }

  lemma {:induction false} ListedIsCounted(remote: seq<RemoteEpisode>, n: int)
    ensures IsListed(remote, n) <==> Listings(remote, n) > 0
  {
    if n >= 1 {
      forall r
        ensures r in Keep(remote, ListedAs(n)) <==> r in remote && r.number == n
      {
        KeepMembers(remote, ListedAs(n), r);
      }
      if Keep(remote, ListedAs(n)) != [] {
        assert Keep(remote, ListedAs(n))[0] in Keep(remote, ListedAs(n));
      }
    }
  }

  /** A number the library holds appears once, or as often as the provider lists it; others as listed. */
  lemma EpisodesPerNumber(remote: seq<RemoteEpisode>, local: seq<LocalEpisode>, progress: ProgressByItem, n: int)
    requires forall i, j | 0 <= i < j < |local| :: local[i].number < local[j].number
    ensures |Keep(MergedEpisodes(remote, local, progress), ByNumber(n))| ==
            if Listings(remote, n) == 0 && EpisodeNumbered(local, n).Some? then 1 else Listings(remote, n)
  {
    var remotePart, localPart := RemotePart(remote, local, progress), LocalPart(local, remote, progress);
    RemotePartCounts(remote, local, progress, n);
    LocalPartCounts(local, remote, progress, n);
    ListedIsCounted(remote, n);
    KeepJoin(remotePart, localPart, ByNumber(n));
    SortByKeeps(NumberLe, remotePart + localPart);
    KeepPermutes(MergedEpisodes(remote, local, progress), remotePart + localPart, ByNumber(n));
    SameElements(Keep(MergedEpisodes(remote, local, progress), ByNumber(n)), Keep(remotePart + localPart, ByNumber(n)));
  }

  /** An outline episode belongs to the local episode of its number, and to nothing when there is none. */
  ghost predicate Belongs(e: OutlineEpisode, local: seq<LocalEpisode>) {
    var own := EpisodeNumbered(local, e.number);
    && e.mediaItemId == (if own.Some? then Some(own.value.mediaItemId) else None)
    && e.isAvailable == (own.Some? && own.value.hasFiles)
  }

  lemma {:induction false} RemotePartBelongs(remote: seq<RemoteEpisode>, local: seq<LocalEpisode>,
                                             progress: ProgressByItem)
    ensures forall e | e in RemotePart(remote, local, progress) :: Belongs(e, local)
  {
    if remote != [] {
      RemotePartBelongs(remote[..|remote| - 1], local, progress);
    }
  }

  lemma {:induction false} LocalPartIsLocal(local: seq<LocalEpisode>, remote: seq<RemoteEpisode>,
                                            progress: ProgressByItem)
    ensures forall e | e in LocalPart(local, remote, progress) :: exists i | 0 <= i < |local| ::
        e == FromLocal(local[i], progress)
  {
    if local != [] {
      var init, last := local[..|local| - 1], local[|local| - 1];
      LocalPartIsLocal(init, remote, progress);
      forall e | e in LocalPart(local, remote, progress)
        ensures exists i | 0 <= i < |local| :: e == FromLocal(local[i], progress)
      {
        if e in LocalPart(init, remote, progress) {
          var i :| 0 <= i < |init| && e == FromLocal(init[i], progress);
          assert e == FromLocal(local[i], progress);
        } else {
          assert e == FromLocal(local[|local| - 1], progress);
        }
      }
    }
  }

  lemma NumberedUniquely(local: seq<LocalEpisode>, i: nat)
    requires forall i, j | 0 <= i < j < |local| :: local[i].number < local[j].number
    requires i < |local|
    ensures EpisodeNumbered(local, local[i].number) == Some(local[i])
  {
    var found := EpisodeNumbered(local, local[i].number);
    assert local[i] in local;
    var j :| 0 <= j < |local| && local[j] == found.value;
  }

  lemma MergedBelongs(remote: seq<RemoteEpisode>, local: seq<LocalEpisode>, progress: ProgressByItem)
    requires forall i, j | 0 <= i < j < |local| :: local[i].number < local[j].number
    ensures forall e | e in MergedEpisodes(remote, local, progress) :: Belongs(e, local)
  {
    var remotePart, localPart := RemotePart(remote, local, progress), LocalPart(local, remote, progress);
    RemotePartBelongs(remote, local, progress);
    LocalPartIsLocal(local, remote, progress);
    SortByKeeps(NumberLe, remotePart + localPart);
    forall e | e in localPart
      ensures Belongs(e, local)
    {
      var i :| 0 <= i < |local| && e == FromLocal(local[i], progress);
      NumberedUniquely(local, i);
    }
  }

  lemma MergedAreSorted(remote: seq<RemoteEpisode>, local: seq<LocalEpisode>, progress: ProgressByItem)
    ensures Sorted(NumberLe, MergedEpisodes(remote, local, progress))
  {
    SortBySorts(NumberLe, RemotePart(remote, local, progress) + LocalPart(local, remote, progress));
  }

  /**
   * No local item is lost or shown under another number: it appears once, or as often as the provider lists its
   * number. So it appears exactly once exactly when the provider lists that number at most once.
   */
  lemma ItemsAreConserved(remote: seq<RemoteEpisode>, local: seq<LocalEpisode>, progress: ProgressByItem, i: nat)
    requires forall i, j | 0 <= i < j < |local| :: local[i].number < local[j].number
    requires forall i, j | 0 <= i < j < |local| :: local[i].mediaItemId != local[j].mediaItemId
    requires i < |local|
    ensures |Keep(MergedEpisodes(remote, local, progress), ByItem(local[i].mediaItemId))| ==
            if Listings(remote, local[i].number) == 0 then 1 else Listings(remote, local[i].number)
    ensures |Keep(MergedEpisodes(remote, local, progress), ByItem(local[i].mediaItemId))| == 1
            <==> Listings(remote, local[i].number) <= 1
  {
    var merged := MergedEpisodes(remote, local, progress);
    MergedBelongs(remote, local, progress);
    NumberedUniquely(local, i);
    forall e | e in merged
      ensures ByItem(local[i].mediaItemId)(e) == ByNumber(local[i].number)(e)
    {
      assert Belongs(e, local);
      var own := EpisodeNumbered(local, e.number);
      if own.Some? {
        var j :| 0 <= j < |local| && local[j] == own.value;
      }
    }
    SameKeep(merged, ByItem(local[i].mediaItemId), ByNumber(local[i].number));
    EpisodesPerNumber(remote, local, progress, local[i].number);
  }

  // ---- seasons ----

  /** Exactly the local seasons, in ascending order, each under its own id. */
  lemma SeasonsAreTheLocalOnes(remote: seq<RemoteSeason>, inventory: seq<LocalSeason>, progress: ProgressByItem)
    requires IsInventory(inventory)
    ensures var outline := Merged(remote, inventory, progress);
            && |outline| == |inventory|
            && (forall i | 0 <= i < |outline| ::
                  outline[i].number == inventory[i].number && outline[i].seasonId == Some(inventory[i].seasonId))
            && (forall i, j | 0 <= i < j < |outline| :: outline[i].number < outline[j].number)
  {
  }

  /** Provider seasons the library does not hold, and those numbered below one, change nothing. */
  lemma {:induction false} ForeignSeasonsChangeNothing(remote: seq<RemoteSeason>, inventory: seq<LocalSeason>,
                                                       progress: ProgressByItem)
    requires forall r | r in remote :: r.number < 1 || SeasonNumbered(inventory, r.number).None?
    ensures Merged(remote, inventory, progress) == BuildLocalOutline(inventory, progress)
  {
    forall i | 0 <= i < |inventory|
      ensures SeasonFor(remote, inventory[i], progress) == SeasonFromLocal(inventory[i], progress)
    {
      assert inventory[i] in inventory;
      NotNumbered(remote, inventory[i].number);
    }
  }

  lemma {:induction false} NotNumbered(remote: seq<RemoteSeason>, n: int)
    requires forall r | r in remote :: r.number < 1 || r.number != n
    ensures LastNumbered(remote, n) == None
  {
    if remote != [] {
      NotNumbered(remote[..|remote| - 1], n);
    }
  }

  /** Merging an empty outline shows the library as it is. */
  lemma EmptyOutlineIsLocal(inventory: seq<LocalSeason>, progress: ProgressByItem)
    ensures Merged([], inventory, progress) == BuildLocalOutline(inventory, progress)
  {
    ForeignSeasonsChangeNothing([], inventory, progress);
  }

  // ---- the whole outline ----

  /** The season of the provider that counts for a number is the last one listed under it. */
  lemma {:induction false} LastSeasonCounts(remote: seq<RemoteSeason>, n: int, k: nat)
    requires k < |remote|
    requires forall j | k < j < |remote| :: remote[j].number != n
    ensures n >= 1 && remote[k].number == n ==> LastNumbered(remote, n) == Some(remote[k])
    ensures remote[k].number != n ==> LastNumbered(remote, n) == LastNumbered(remote[..k], n)
  {
    if k < |remote| - 1 {
      var init := remote[..|remote| - 1];
      LastSeasonCounts(init, n, k);
      assert init[..k] == remote[..k];
    }
  }

  /** The provider's episodes for a local season, none when it lists no such season. */
  function RemoteEpisodesFor(remote: seq<RemoteSeason>, number: int): seq<RemoteEpisode> {
    var season := LastNumbered(remote, number);
    if season.Some? then season.value.episodes else []
  }

  lemma {:induction false} LocalPartAlone(local: seq<LocalEpisode>, progress: ProgressByItem)
    ensures LocalPart(local, [], progress) == LocalEpisodes(local, progress)
  {
    if local != [] {
      LocalPartAlone(local[..|local| - 1], progress);
    }
  }

  /** A local season shown as it is has the same episodes as one merged with nothing, up to sorting. */
  lemma SeasonMultiset(remote: seq<RemoteSeason>, local: LocalSeason, progress: ProgressByItem)
    ensures multiset(SeasonFor(remote, local, progress).episodes) ==
            multiset(MergedEpisodes(RemoteEpisodesFor(remote, local.number), local.episodes, progress))
  {
    if LastNumbered(remote, local.number).None? {
      LocalPartAlone(local.episodes, progress);
      assert RemotePart([], local.episodes, progress) + LocalPart(local.episodes, [], progress) ==
             LocalEpisodes(local.episodes, progress);
      SortByKeeps(NumberLe, LocalEpisodes(local.episodes, progress));
    }
  }

  lemma SeasonCounts(remote: seq<RemoteSeason>, local: LocalSeason, progress: ProgressByItem, p: OutlineEpisode -> bool)
    ensures |Keep(SeasonFor(remote, local, progress).episodes, p)| ==
            |Keep(MergedEpisodes(RemoteEpisodesFor(remote, local.number), local.episodes, progress), p)|
  {
    var shown := SeasonFor(remote, local, progress).episodes;
    var merged := MergedEpisodes(RemoteEpisodesFor(remote, local.number), local.episodes, progress);
    SeasonMultiset(remote, local, progress);
    KeepPermutes(shown, merged, p);
    SameElements(Keep(shown, p), Keep(merged, p));
  }

  lemma SeasonBelongs(remote: seq<RemoteSeason>, local: LocalSeason, progress: ProgressByItem)
    requires HasOrderedEpisodes(local)
    ensures forall e | e in SeasonFor(remote, local, progress).episodes :: Belongs(e, local.episodes)
  {
    var merged := MergedEpisodes(RemoteEpisodesFor(remote, local.number), local.episodes, progress);
    SeasonMultiset(remote, local, progress);
    SameElements(SeasonFor(remote, local, progress).episodes, merged);
    MergedBelongs(RemoteEpisodesFor(remote, local.number), local.episodes, progress);
  }

  lemma SeasonIsSorted(remote: seq<RemoteSeason>, local: LocalSeason, progress: ProgressByItem)
    requires HasOrderedEpisodes(local)
    ensures Sorted(NumberLe, SeasonFor(remote, local, progress).episodes)
  {
    if LastNumbered(remote, local.number).Some? {
      MergedAreSorted(RemoteEpisodesFor(remote, local.number), local.episodes, progress);
    }
  }

  /**
   * Every season of the outline: its episodes ascend, each belongs to the local episode of its number, and every number
   * appears as often as the provider's season in force lists it, or once if only the library has it.
   */
  lemma OutlineSeasonsHoldTheInventory(remote: seq<RemoteSeason>, inventory: seq<LocalSeason>, progress: ProgressByItem,
                                       t: nat, n: int)
    requires IsInventory(inventory) && t < |inventory|
    ensures |Merged(remote, inventory, progress)| == |inventory|
    ensures var shown := Merged(remote, inventory, progress)[t].episodes;
            var listings := Listings(RemoteEpisodesFor(remote, inventory[t].number), n);
            && Sorted(NumberLe, shown)
            && (forall e | e in shown :: Belongs(e, inventory[t].episodes))
            && |Keep(shown, ByNumber(n))| ==
               if listings == 0 && EpisodeNumbered(inventory[t].episodes, n).Some? then 1 else listings
  {
    assert HasOrderedEpisodes(inventory[t]);
    SeasonIsSorted(remote, inventory[t], progress);
    SeasonBelongs(remote, inventory[t], progress);
    SeasonCounts(remote, inventory[t], progress, ByNumber(n));
    EpisodesPerNumber(RemoteEpisodesFor(remote, inventory[t].number), inventory[t].episodes, progress, n);
  }

  /** One media item stands behind one episode of the library. */
  ghost predicate HasDistinctItems(inventory: seq<LocalSeason>) {
    forall s, i, t, j | 0 <= s < |inventory| && 0 <= i < |inventory[s].episodes|
                        && 0 <= t < |inventory| && 0 <= j < |inventory[t].episodes| && (s != t || i != j) ::
      inventory[s].episodes[i].mediaItemId != inventory[t].episodes[j].mediaItemId
  }

  function Showings(outline: seq<OutlineSeason>, item: int): nat {
    if outline == [] then 0
    else Showings(outline[..|outline| - 1], item) + |Keep(outline[|outline| - 1].episodes, ByItem(item))|
  }

  lemma NotShown(episodes: seq<OutlineEpisode>, local: seq<LocalEpisode>, item: int)
    requires forall e | e in episodes :: Belongs(e, local)
    requires forall e | e in local :: e.mediaItemId != item
    ensures Keep(episodes, ByItem(item)) == []
  {
    forall e | e in episodes
      ensures !ByItem(item)(e)
    {
      assert Belongs(e, local);
    }
    KeepsNone(episodes, ByItem(item));
  }

  /** How often the season at `s` shows its own item, and that no other season shows it. */
  lemma ShownInItsSeasonOnly(remote: seq<RemoteSeason>, inventory: seq<LocalSeason>, progress: ProgressByItem,
                             s: nat, i: nat, t: nat)
    requires IsInventory(inventory) && HasDistinctItems(inventory)
    requires s < |inventory| && i < |inventory[s].episodes| && t < |inventory|
    ensures var episode := inventory[s].episodes[i];
            var listings := Listings(RemoteEpisodesFor(remote, inventory[s].number), episode.number);
            |Keep(SeasonFor(remote, inventory[t], progress).episodes, ByItem(episode.mediaItemId))| ==
            if s != t then 0 else if listings == 0 then 1 else listings
  {
    var item := inventory[s].episodes[i].mediaItemId;
    assert HasOrderedEpisodes(inventory[t]);
    if s != t {
      SeasonBelongs(remote, inventory[t], progress);
      forall e | e in inventory[t].episodes
        ensures e.mediaItemId != item
      {
        var j :| 0 <= j < |inventory[t].episodes| && inventory[t].episodes[j] == e;
      }
      NotShown(SeasonFor(remote, inventory[t], progress).episodes, inventory[t].episodes, item);
    } else {
      SeasonCounts(remote, inventory[s], progress, ByItem(item));
      ItemsAreConserved(RemoteEpisodesFor(remote, inventory[s].number), inventory[s].episodes, progress, i);
    }
  }

  lemma {:induction false} ShowingsUpTo(remote: seq<RemoteSeason>, inventory: seq<LocalSeason>,
                                        progress: ProgressByItem,
                                        s: nat, i: nat, n: nat)
    requires IsInventory(inventory) && HasDistinctItems(inventory)
    requires s < |inventory| && i < |inventory[s].episodes| && n <= |inventory|
    ensures var episode := inventory[s].episodes[i];
            var listings := Listings(RemoteEpisodesFor(remote, inventory[s].number), episode.number);
            Showings(Merged(remote, inventory, progress)[..n], episode.mediaItemId) ==
            if n <= s then 0 else if listings == 0 then 1 else listings
    decreases n
  {
    if n > 0 {
      ShowingsUpTo(remote, inventory, progress, s, i, n - 1);
      ShownInItsSeasonOnly(remote, inventory, progress, s, i, n - 1);
      var outline := Merged(remote, inventory, progress);
      assert outline[..n][..n - 1] == outline[..n - 1];
    }
  }

  /**
   * The outline conserves the inventory: a local item is shown once, or as often as the provider's season in force
   * lists its number, and never in another season. So it is shown exactly once exactly when listed at most once.
   */
  lemma OutlineConservesItems(remote: seq<RemoteSeason>, inventory: seq<LocalSeason>, progress: ProgressByItem,
                              s: nat, i: nat)
    requires IsInventory(inventory) && HasDistinctItems(inventory)
    requires s < |inventory| && i < |inventory[s].episodes|
    ensures var item := inventory[s].episodes[i].mediaItemId;
            var listings := Listings(RemoteEpisodesFor(remote, inventory[s].number), inventory[s].episodes[i].number);
            var outline := Merged(remote, inventory, progress);
            && |outline| == |inventory|
            && (forall t | 0 <= t < |outline| :: |Keep(outline[t].episodes, ByItem(item))| ==
                  if s != t then 0 else if listings == 0 then 1 else listings)
            && Showings(outline, item) == (if listings == 0 then 1 else listings)
            && (Showings(outline, item) == 1 <==> listings <= 1)
  {
    var outline := Merged(remote, inventory, progress);
    forall t | 0 <= t < |outline|
      ensures |Keep(outline[t].episodes, ByItem(inventory[s].episodes[i].mediaItemId))| ==
              if s != t then 0
              else if Listings(RemoteEpisodesFor(remote, inventory[s].number), inventory[s].episodes[i].number) ==
                  0 then 1
              else Listings(RemoteEpisodesFor(remote, inventory[s].number), inventory[s].episodes[i].number)
    {
      ShownInItsSeasonOnly(remote, inventory, progress, s, i, t);
    }
    ShowingsUpTo(remote, inventory, progress, s, i, |inventory|);
    assert outline[..|inventory|] == outline;
  }

  // ---- what is shown of each episode and season ----

  /** The episode plays, and resumes, what the library holds under its number. */
  ghost predicate PlaysOwn(e: OutlineEpisode, own: Option<LocalEpisode>, progress: ProgressByItem) {
    if own.Some? then
      && e.introStart == own.value.introStart && e.introEnd == own.value.introEnd
      && e.mediaItemId == Some(own.value.mediaItemId) && e.isAvailable == own.value.hasFiles
      && (own.value.mediaItemId in progress ==> e.progress == Some(progress[own.value.mediaItemId]))
      && (own.value.mediaItemId !in progress ==> e.progress == None)
    else
      && e.introStart == None && e.introEnd == None
      && e.mediaItemId == None && !e.isAvailable && e.progress == None
  }

  /** The provider's words and pictures; the library's words where the provider has none. */
  ghost predicate TellsAs(e: OutlineEpisode, r: RemoteEpisode, own: Option<LocalEpisode>) {
    && e.number == r.number >= 1
    && e.title == (if Stated(r.title).Some? then Stated(r.title).value
                   else if own.Some? then own.value.title else "Episode " + Decimal(r.number))
    && e.overview == (if r.overview.Some? then r.overview else if own.Some? then own.value.overview else None)
    && e.poster == r.poster && e.backdrop == r.backdrop
  }

  ghost predicate TellsAsLibrary(e: OutlineEpisode, own: LocalEpisode) {
    && e.number == own.number && e.title == own.title && e.overview == own.overview
    && e.poster == own.poster && e.backdrop == own.backdrop
  }

  /** Everything an outline episode shows. */
  ghost predicate Shows(e: OutlineEpisode, remote: seq<RemoteEpisode>, local: seq<LocalEpisode>,
                        progress: ProgressByItem) {
    var own := EpisodeNumbered(local, e.number);
    && PlaysOwn(e, own, progress)
    && (|| (exists r | r in remote :: TellsAs(e, r, own))
        || (own.Some? && !IsListed(remote, e.number) && TellsAsLibrary(e, own.value)))
  }

  lemma {:induction false} RemotePartShows(remote: seq<RemoteEpisode>, local: seq<LocalEpisode>,
                                           progress: ProgressByItem, e: OutlineEpisode)
    requires e in RemotePart(remote, local, progress)
    ensures PlaysOwn(e, EpisodeNumbered(local, e.number), progress)
    ensures exists r | r in remote :: TellsAs(e, r, EpisodeNumbered(local, e.number))
  {
    var init, last := remote[..|remote| - 1], remote[|remote| - 1];
    assert remote == init + [last];
    if e in RemotePart(init, local, progress) {
      RemotePartShows(init, local, progress, e);
      var r :| r in init && TellsAs(e, r, EpisodeNumbered(local, e.number));
      assert r in remote;
    } else {
      assert e == FromRemote(last, EpisodeNumbered(local, last.number), progress);
      assert TellsAs(e, last, EpisodeNumbered(local, e.number));
    }
  }

  lemma {:induction false} LocalPartShows(local: seq<LocalEpisode>, remote: seq<RemoteEpisode>,
                                          progress: ProgressByItem, e: OutlineEpisode)
    requires e in LocalPart(local, remote, progress)
    ensures exists own | own in local ::
              !IsListed(remote, own.number) && TellsAsLibrary(e, own) && PlaysOwn(e, Some(own), progress)
  {
    var init, last := local[..|local| - 1], local[|local| - 1];
    assert local == init + [last];
    if e in LocalPart(init, remote, progress) {
      LocalPartShows(init, remote, progress, e);
      var own :| own in init && !IsListed(remote, own.number) && TellsAsLibrary(e, own)
                 && PlaysOwn(e, Some(own), progress);
      assert own in local;
    } else {
      assert e == FromLocal(last, progress);
      assert last in local;
    }
  }

  lemma MergedShows(remote: seq<RemoteEpisode>, local: seq<LocalEpisode>, progress: ProgressByItem, e: OutlineEpisode)
    requires forall i, j | 0 <= i < j < |local| :: local[i].number < local[j].number
    requires e in MergedEpisodes(remote, local, progress)
    ensures Shows(e, remote, local, progress)
  {
    SortByKeeps(NumberLe, RemotePart(remote, local, progress) + LocalPart(local, remote, progress));
    if e in RemotePart(remote, local, progress) {
      RemotePartShows(remote, local, progress, e);
    } else {
      LocalPartShows(local, remote, progress, e);
      var own :| own in local && !IsListed(remote, own.number) && TellsAsLibrary(e, own)
                 && PlaysOwn(e, Some(own), progress);
      var i :| 0 <= i < |local| && local[i] == own;
      NumberedUniquely(local, i);
    }
  }

  /** What the season shows of itself: the provider's word where there is one, the library's files and intro. */
  ghost predicate SeasonShows(shown: OutlineSeason, remote: Option<RemoteSeason>, local: LocalSeason) {
    && shown.number == local.number && shown.seasonId == Some(local.seasonId)
    && shown.introStart == local.introStart && shown.introEnd == local.introEnd
    && if remote.Some? then
         var r := remote.value;
         && shown.title == (if Stated(r.title).Some? then Stated(r.title) else local.title)
         && shown.overview == (if r.overview.Some? then r.overview else local.overview)
         && shown.year == r.year && shown.poster == r.poster && shown.backdrop == r.backdrop
       else
         && shown.title == local.title && shown.overview == local.overview && shown.year == None
         && shown.poster == local.poster && shown.backdrop == local.backdrop
  }

  /** Every season and every episode of the outline shows what the two sources say about it. */
  lemma OutlineShows(remote: seq<RemoteSeason>, inventory: seq<LocalSeason>, progress: ProgressByItem, t: nat)
    requires IsInventory(inventory) && t < |inventory|
    ensures |Merged(remote, inventory, progress)| == |inventory|
    ensures var shown := Merged(remote, inventory, progress)[t];
            && SeasonShows(shown, LastNumbered(remote, inventory[t].number), inventory[t])
            && forall e | e in shown.episodes ::
                 Shows(e, RemoteEpisodesFor(remote, inventory[t].number), inventory[t].episodes, progress)
  {
    var local, listed := inventory[t], RemoteEpisodesFor(remote, inventory[t].number);
    assert HasOrderedEpisodes(local);
    SeasonMultiset(remote, local, progress);
    SameElements(SeasonFor(remote, local, progress).episodes, MergedEpisodes(listed, local.episodes, progress));
    forall e | e in SeasonFor(remote, local, progress).episodes
      ensures Shows(e, listed, local.episodes, progress)
    {
      MergedShows(listed, local.episodes, progress, e);
    }
  }
}
