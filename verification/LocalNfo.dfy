/** Local metadata documents, the files they describe, and the fields they own. */
module LocalNfo {
  import opened Text
  import opened TmdbIds
  import opened Wrappers

  /** The components of a document's canonical path. */
  type NfoPath = seq<string>

  datatype NfoKind = MovieNfo | TvShowNfo | EpisodeNfo

  datatype NamedSeason = NamedSeason(
    number: int, title: Option<string>, overview: Option<string>, posters: seq<string>, backdrops: seq<string>)

  datatype Nfo = Nfo(
    kind: NfoKind, sourcePath: NfoPath, uniqueIds: seq<ProviderId>, suppressed: bool,
    title: Option<string>, originalTitle: Option<string>, sortTitle: Option<string>, year: Option<int>,
    countries: seq<string>, genres: seq<string>, studios: seq<string>,
    overview: Option<string>, outline: Option<string>, tagline: Option<string>,
    premiered: Option<string>, aired: Option<string>, contentRating: Option<string>,
    season: Option<int>, episode: Option<int>, namedSeasons: seq<NamedSeason>,
    posters: seq<string>, backdrops: seq<string>, logos: seq<string>, thumbnails: seq<string>)

  datatype Field =
    | Title | SourceTitle | OriginalTitle | SortTitle | Country | Genres | Studio | Overview | Tagline
    | PremiereDate | ContentRating
    | SeasonTitle | SeasonOverview | SeasonPoster | SeasonBackdrop
    | SeriesPoster | SeriesBackdrop | SeriesLogo
    | Poster | Backdrop | Logo
    | EpisodeTitle | EpisodeOriginalTitle | EpisodeSortTitle | EpisodeOverview | EpisodeTagline
    | EpisodePremiereDate | EpisodeContentRating

  /** A field that is not in the map has no value. */
  type Fields = map<Field, string>

  datatype MediaFile = MediaFile(
    path: NfoPath, provider: Option<string>, providerItem: Option<string>,
    season: Option<int>, episode: Option<int>,
    nfo: Option<Nfo>, seriesNfo: Option<Nfo>, nfoSelected: bool, seriesNfoSelected: bool,
    fields: Fields, year: Option<int>, episodeYear: Option<int>)

  /** Conventional artwork found beside a series document, and which paths that convention owns. */
  datatype SeriesArtwork = SeriesArtwork(
    poster: Option<string>, backdrop: Option<string>, logo: Option<string>, owns: (Field, string) -> bool)

  type Assignments = seq<(Field, Option<string>)>

  function First(values: seq<string>): Option<string> {
    if values == [] then None else Some(values[0])
  }

  function Concatenated(values: seq<string>): string
    requires values != []
  {
    if |values| == 1 then values[0] else values[0] + " \U{00B7} " + Concatenated(values[1..])
  }

  function Joined(values: seq<string>): Option<string> {
    if values == [] then None else Some(Concatenated(values))
  }

  function SeasonNamed(seasons: seq<NamedSeason>, number: int): Option<NamedSeason> {
    if seasons == [] then None
    else if seasons[0].number == number then Some(seasons[0])
    else SeasonNamed(seasons[1..], number)
  }

  /** What a movie or series document says about a file, in the order it is written. */
  function ParentValues(nfo: Nfo, season: Option<int>, isSeries: bool): Assignments {
    CommonValues(nfo) + ScopedValues(nfo, season, isSeries)
  }

  function CommonValues(nfo: Nfo): Assignments {
    [(Title, nfo.title), (SourceTitle, nfo.title), (OriginalTitle, nfo.originalTitle), (SortTitle, nfo.sortTitle),
     (Country, Joined(nfo.countries)), (Genres, Joined(nfo.genres)), (Studio, Joined(nfo.studios)),
     (Overview, Or(nfo.overview, nfo.outline)), (Tagline, nfo.tagline),
     (PremiereDate, Or(nfo.premiered, nfo.aired)), (ContentRating, nfo.contentRating)]
  }

  /** A series document speaks for the season and the series, a movie document for the file. */
  function ScopedValues(nfo: Nfo, season: Option<int>, isSeries: bool): Assignments {
    if isSeries then
      SeasonValues(nfo, season)
      + [(SeriesPoster, First(nfo.posters)), (SeriesBackdrop, First(nfo.backdrops)), (SeriesLogo, First(nfo.logos))]
    else [(Poster, First(nfo.posters)), (Backdrop, First(nfo.backdrops)), (Logo, First(nfo.logos))]
  }

  function SeasonValues(nfo: Nfo, season: Option<int>): Assignments {
    var named := if season.Some? then SeasonNamed(nfo.namedSeasons, season.value) else None;
    if named.None? then []
    else [(SeasonTitle, named.value.title), (SeasonOverview, named.value.overview),
          (SeasonPoster, First(named.value.posters)), (SeasonBackdrop, First(named.value.backdrops))]
  }

  function EpisodeValues(nfo: Nfo): Assignments {
    [(EpisodeTitle, nfo.title), (EpisodeOriginalTitle, nfo.originalTitle), (EpisodeSortTitle, nfo.sortTitle),
     (EpisodeOverview, Or(nfo.overview, nfo.outline)), (EpisodeTagline, nfo.tagline),
     (EpisodePremiereDate, Or(nfo.aired, nfo.premiered)), (EpisodeContentRating, nfo.contentRating),
     (Poster, Or(First(nfo.thumbnails), First(nfo.posters))), (Backdrop, First(nfo.backdrops))]
  }

  function ArtworkValues(artwork: SeriesArtwork): Assignments {
    [(SeriesPoster, artwork.poster), (SeriesBackdrop, artwork.backdrop), (SeriesLogo, artwork.logo)]
  }

  function Project(fields: Fields, values: Assignments): Fields {
    if values == [] then fields
    else
      var (f, value) := values[|values| - 1];
      var before := Project(fields, values[..|values| - 1]);
      if Stated(value).Some? then before[f := Stated(value).value] else before
  }

  /** The value a field ends up with, if any assignment states one. */
  function Declared(values: Assignments, f: Field): Option<string> {
    if values == [] then None
    else
      var last := values[|values| - 1];
      if last.0 == f && Stated(last.1).Some? then Stated(last.1) else Declared(values[..|values| - 1], f)
  }

  function At(fields: Fields, f: Field): Option<string> {
    if f in fields then Some(fields[f]) else None
  }

  lemma {:induction false} ProjectAt(fields: Fields, values: Assignments, f: Field)
    ensures At(Project(fields, values), f) == Or(Declared(values, f), At(fields, f))
  {
    if values != [] {
      ProjectAt(fields, values[..|values| - 1], f);
    }
  }

  lemma SameFields(a: Fields, b: Fields)
    requires forall f :: At(a, f) == At(b, f)
    ensures a == b
  {
    forall f
      ensures f in a <==> f in b
      ensures f in a && f in b ==> a[f] == b[f]
    {
      assert At(a, f) == At(b, f);
    }
  }

  /** Writes each stated value over the field, in order; a blank one leaves the field as it is. */
  method ReplaceStated(fields: Fields, values: Assignments) returns (result: Fields)
    ensures result == Project(fields, values)
  {
    result := fields;
    for i := 0 to |values|
      invariant result == Project(fields, values[..i])
    {
      assert values[..i + 1][..i] == values[..i];
      var (f, value) := values[i];
      if value.Some? && Trim(value.value) != "" {
        result := result[f := Trim(value.value)];
      }
    }
    assert values[..|values|] == values;
  }

  function ArtworkFound(artwork: SeriesArtwork, f: Field): Option<string> {
    if f == SeriesPoster then artwork.poster
    else if f == SeriesBackdrop then artwork.backdrop
    else if f == SeriesLogo then artwork.logo
    else None
  }

  /** A value that the artwork convention owns while the file it names is gone. */
  predicate IsStale(artwork: SeriesArtwork, f: Field, value: string) {
    f in [SeriesPoster, SeriesBackdrop, SeriesLogo] && ArtworkFound(artwork, f).None? && artwork.owns(f, value)
  }

  function WithoutStale(fields: Fields, artwork: SeriesArtwork): Fields {
    map f | f in fields && !IsStale(artwork, f, fields[f]) :: fields[f]
  }

  method ClearMissing(fields: Fields, artwork: SeriesArtwork, f: Field) returns (result: Fields)
    ensures result == if f in fields && IsStale(artwork, f, fields[f]) then fields - {f} else fields
  {
    result := fields;
    if f in fields && f in [SeriesPoster, SeriesBackdrop, SeriesLogo] {
      if ArtworkFound(artwork, f).None? && artwork.owns(f, fields[f]) {
        result := fields - {f};
      }
    }
  }

  method ApplySeriesContainerArtwork(fields: Fields, artwork: SeriesArtwork) returns (result: Fields)
    ensures result == Project(WithoutStale(fields, artwork), ArtworkValues(artwork))
  {
    result := ClearMissing(fields, artwork, SeriesPoster);
    result := ClearMissing(result, artwork, SeriesBackdrop);
    result := ClearMissing(result, artwork, SeriesLogo);
    assert result == WithoutStale(fields, artwork);
    result := ReplaceStated(result, ArtworkValues(artwork));
  }

  // ---- which document owns which field ----

  lemma {:induction false} DeclaredIsAssigned(values: Assignments, f: Field)
    requires Declared(values, f).Some?
    ensures exists i | 0 <= i < |values| :: values[i].0 == f
  {
    if values[|values| - 1].0 != f {
      DeclaredIsAssigned(values[..|values| - 1], f);
      var i :| 0 <= i < |values| - 1 && values[..|values| - 1][i].0 == f;
      assert values[i].0 == f;
    }
  }

  lemma {:induction false} DeclaredOnce(values: Assignments, i: nat)
    requires i < |values| && forall j | 0 <= j < |values| && j != i :: values[j].0 != values[i].0
    ensures Declared(values, values[i].0) == Stated(values[i].1)
  {
    var init := values[..|values| - 1];
    if i == |values| - 1 {
      if Declared(init, values[i].0).Some? {
        DeclaredIsAssigned(init, values[i].0);
      }
    } else {
      DeclaredOnce(init, i);
    }
  }

  predicate IsEpisodeField(f: Field) {
    f in [EpisodeTitle, EpisodeOriginalTitle, EpisodeSortTitle, EpisodeOverview, EpisodeTagline,
          EpisodePremiereDate, EpisodeContentRating]
  }

  predicate IsSeriesField(f: Field) {
    f in [SeasonTitle, SeasonOverview, SeasonPoster, SeasonBackdrop, SeriesPoster, SeriesBackdrop, SeriesLogo]
  }

  predicate IsFileArtwork(f: Field) {
    f in [Poster, Backdrop, Logo]
  }

  lemma NotAssigned(values: Assignments, f: Field)
    requires forall i | 0 <= i < |values| :: values[i].0 != f
    ensures Declared(values, f) == None
  {
    if Declared(values, f).Some? {
      DeclaredIsAssigned(values, f);
    }
  }

  lemma CommonFields(nfo: Nfo, i: nat)
    requires i < |CommonValues(nfo)|
    ensures var f := CommonValues(nfo)[i].0;
            !IsEpisodeField(f) && !IsSeriesField(f) && !IsFileArtwork(f)
  {
  }

  lemma ScopedFields(nfo: Nfo, season: Option<int>, isSeries: bool, i: nat)
    requires i < |ScopedValues(nfo, season, isSeries)|
    ensures var f := ScopedValues(nfo, season, isSeries)[i].0;
            if isSeries then IsSeriesField(f) else IsFileArtwork(f)
  {
  }

  lemma ParentFields(nfo: Nfo, season: Option<int>, isSeries: bool, i: nat)
    requires i < |ParentValues(nfo, season, isSeries)|
    ensures var f := ParentValues(nfo, season, isSeries)[i].0;
            !IsEpisodeField(f) && !(isSeries && IsFileArtwork(f)) && !(!isSeries && IsSeriesField(f))
  {
    var common := |CommonValues(nfo)|;
    if i < common {
      CommonFields(nfo, i);
    } else {
      ScopedFields(nfo, season, isSeries, i - common);
    }
  }

  /** A parent never writes an episode's fields; a movie's never a series', and a series' never a file's artwork. */
  lemma ParentKeepsToItsFields(nfo: Nfo, season: Option<int>, isSeries: bool, f: Field)
    requires IsEpisodeField(f) || (isSeries && IsFileArtwork(f)) || (!isSeries && IsSeriesField(f))
    ensures Declared(ParentValues(nfo, season, isSeries), f) == None
  {
    forall i | 0 <= i < |ParentValues(nfo, season, isSeries)|
      ensures ParentValues(nfo, season, isSeries)[i].0 != f
    {
      ParentFields(nfo, season, isSeries, i);
    }
    NotAssigned(ParentValues(nfo, season, isSeries), f);
  }

  /** An episode's document writes nothing but the episode's fields and the file's poster and backdrop. */
  lemma EpisodeKeepsToItsFields(nfo: Nfo, f: Field)
    requires !IsEpisodeField(f) && f != Poster && f != Backdrop
    ensures Declared(EpisodeValues(nfo), f) == None
  {
    if Declared(EpisodeValues(nfo), f).Some? {
      DeclaredIsAssigned(EpisodeValues(nfo), f);
    }
  }

  lemma CommonAssignsOnce(nfo: Nfo, i: nat, j: nat)
    requires i < |CommonValues(nfo)| && j < |CommonValues(nfo)| && i != j
    ensures CommonValues(nfo)[i].0 != CommonValues(nfo)[j].0
  {
  }

  lemma CommonValueReaches(nfo: Nfo, season: Option<int>, isSeries: bool, i: nat, f: Field, value: Option<string>)
    requires i < |CommonValues(nfo)| && CommonValues(nfo)[i] == (f, value)
    ensures Declared(ParentValues(nfo, season, isSeries), f) == Stated(value)
  {
    var values, common := ParentValues(nfo, season, isSeries), |CommonValues(nfo)|;
    forall j | 0 <= j < |values| && j != i
      ensures values[j].0 != values[i].0
    {
      if j < common {
        CommonAssignsOnce(nfo, i, j);
      } else {
        CommonFields(nfo, i);
        ScopedFields(nfo, season, isSeries, j - common);
      }
    }
    DeclaredOnce(values, i);
  }

  lemma ScopedAssignsOnce(nfo: Nfo, season: Option<int>, isSeries: bool, i: nat, j: nat)
    requires i < |ScopedValues(nfo, season, isSeries)| && j < |ScopedValues(nfo, season, isSeries)| && i != j
    ensures ScopedValues(nfo, season, isSeries)[i].0 != ScopedValues(nfo, season, isSeries)[j].0
  {
  }

  lemma ScopedValueReaches(nfo: Nfo, season: Option<int>, isSeries: bool, i: nat, f: Field, value: Option<string>)
    requires i < |ScopedValues(nfo, season, isSeries)| && ScopedValues(nfo, season, isSeries)[i] == (f, value)
    ensures Declared(ParentValues(nfo, season, isSeries), f) == Stated(value)
  {
    var values, common := ParentValues(nfo, season, isSeries), |CommonValues(nfo)|;
    ScopedFields(nfo, season, isSeries, i);
    forall j | 0 <= j < |values| && j != common + i
      ensures values[j].0 != f
    {
      if j < common {
        CommonFields(nfo, j);
      } else {
        ScopedAssignsOnce(nfo, season, isSeries, i, j - common);
      }
    }
    DeclaredOnce(values, common + i);
  }

  // ---- what every document says, field by field ----

  /** Both titles come from the title; the outline stands in for the overview, the air date for the premiere. */
  lemma ParentTexts(nfo: Nfo, season: Option<int>, isSeries: bool)
    ensures Declared(ParentValues(nfo, season, isSeries), Title) == Stated(nfo.title)
    ensures Declared(ParentValues(nfo, season, isSeries), SourceTitle) == Stated(nfo.title)
    ensures Declared(ParentValues(nfo, season, isSeries), Overview)
         == Stated(if nfo.overview.Some? then nfo.overview else nfo.outline)
    ensures Declared(ParentValues(nfo, season, isSeries), PremiereDate)
         == Stated(if nfo.premiered.Some? then nfo.premiered else nfo.aired)
  {
    CommonValueReaches(nfo, season, isSeries, 0, Title, nfo.title);
    CommonValueReaches(nfo, season, isSeries, 1, SourceTitle, nfo.title);
    CommonValueReaches(nfo, season, isSeries, 7, Overview, Or(nfo.overview, nfo.outline));
    CommonValueReaches(nfo, season, isSeries, 9, PremiereDate, Or(nfo.premiered, nfo.aired));
  }

  /** The other fields of a movie or series, each from the element of its name. */
  lemma ParentDetails(nfo: Nfo, season: Option<int>, isSeries: bool)
    ensures Declared(ParentValues(nfo, season, isSeries), OriginalTitle) == Stated(nfo.originalTitle)
    ensures Declared(ParentValues(nfo, season, isSeries), SortTitle) == Stated(nfo.sortTitle)
    ensures Declared(ParentValues(nfo, season, isSeries), Tagline) == Stated(nfo.tagline)
    ensures Declared(ParentValues(nfo, season, isSeries), ContentRating) == Stated(nfo.contentRating)
  {
    CommonValueReaches(nfo, season, isSeries, 2, OriginalTitle, nfo.originalTitle);
    CommonValueReaches(nfo, season, isSeries, 3, SortTitle, nfo.sortTitle);
    CommonValueReaches(nfo, season, isSeries, 8, Tagline, nfo.tagline);
    CommonValueReaches(nfo, season, isSeries, 10, ContentRating, nfo.contentRating);
  }

  /** A text is the given values with a dot between any two. */
  ghost predicate IsList(text: string, values: seq<string>)
    requires values != []
    decreases |values|
  {
    var init, last := values[..|values| - 1], values[|values| - 1];
    if init == [] then text == last
    else exists before :: text == before + " \U{00B7} " + last && IsList(before, init)
  }

  lemma {:induction false} ConcatenatedAppend(values: seq<string>, last: string)
    requires values != []
    ensures Concatenated(values + [last]) == Concatenated(values) + " \U{00B7} " + last
  {
    var longer := values + [last];
    if |values| == 1 {
      assert longer[1..] == [last];
      assert Concatenated([last]) == last;
    } else {
      ConcatenatedAppend(values[1..], last);
      assert longer[1..] == values[1..] + [last];
    }
  }

  lemma {:induction false} ConcatenatedIsList(values: seq<string>)
    requires values != []
    ensures IsList(Concatenated(values), values)
    decreases |values|
  {
    var init, last := values[..|values| - 1], values[|values| - 1];
    if init != [] {
      ConcatenatedIsList(init);
      ConcatenatedAppend(init, last);
      assert values == init + [last];
    }
  }

  /** The value is the stated text of the list, and there is none for an empty list. */
  ghost predicate ListsAll(declared: Option<string>, values: seq<string>) {
    if values == [] then declared == None
    else exists text :: IsList(text, values) && declared == Stated(Some(text))
  }

  lemma JoinedListsAll(values: seq<string>)
    ensures ListsAll(Stated(Joined(values)), values)
  {
    if values != [] {
      ConcatenatedIsList(values);
    }
  }

  lemma ListReaches(nfo: Nfo, season: Option<int>, isSeries: bool, i: nat, f: Field, values: seq<string>)
    requires i < |CommonValues(nfo)| && CommonValues(nfo)[i] == (f, Joined(values))
    ensures ListsAll(Declared(ParentValues(nfo, season, isSeries), f), values)
  {
    CommonValueReaches(nfo, season, isSeries, i, f, Joined(values));
    JoinedListsAll(values);
  }

  lemma ParentCountries(nfo: Nfo, season: Option<int>, isSeries: bool)
    ensures ListsAll(Declared(ParentValues(nfo, season, isSeries), Country), nfo.countries)
  {
    assert CommonValues(nfo)[4] == (Country, Joined(nfo.countries));
    ListReaches(nfo, season, isSeries, 4, Country, nfo.countries);
  }

  lemma ParentGenres(nfo: Nfo, season: Option<int>, isSeries: bool)
    ensures ListsAll(Declared(ParentValues(nfo, season, isSeries), Genres), nfo.genres)
  {
    assert CommonValues(nfo)[5] == (Genres, Joined(nfo.genres));
    ListReaches(nfo, season, isSeries, 5, Genres, nfo.genres);
  }

  lemma ParentStudios(nfo: Nfo, season: Option<int>, isSeries: bool)
    ensures ListsAll(Declared(ParentValues(nfo, season, isSeries), Studio), nfo.studios)
  {
    assert CommonValues(nfo)[6] == (Studio, Joined(nfo.studios));
    ListReaches(nfo, season, isSeries, 6, Studio, nfo.studios);
  }

  /** Countries, genres and studios are listed, each in its own field. */
  lemma ParentLists(nfo: Nfo, season: Option<int>, isSeries: bool)
    ensures ListsAll(Declared(ParentValues(nfo, season, isSeries), Country), nfo.countries)
    ensures ListsAll(Declared(ParentValues(nfo, season, isSeries), Genres), nfo.genres)
    ensures ListsAll(Declared(ParentValues(nfo, season, isSeries), Studio), nfo.studios)
  {
    ParentCountries(nfo, season, isSeries);
    ParentGenres(nfo, season, isSeries);
    ParentStudios(nfo, season, isSeries);
  }

  /** The first picture of a kind, if there is one. */
  ghost predicate ShowsFirst(declared: Option<string>, pictures: seq<string>) {
    declared == if pictures == [] then None else Stated(Some(pictures[0]))
  }

  /** A movie's pictures go to the file. */
  lemma MovieArtwork(nfo: Nfo, season: Option<int>)
    ensures ShowsFirst(Declared(ParentValues(nfo, season, false), Poster), nfo.posters)
    ensures ShowsFirst(Declared(ParentValues(nfo, season, false), Backdrop), nfo.backdrops)
    ensures ShowsFirst(Declared(ParentValues(nfo, season, false), Logo), nfo.logos)
  {
    ScopedValueReaches(nfo, season, false, 0, Poster, First(nfo.posters));
    ScopedValueReaches(nfo, season, false, 1, Backdrop, First(nfo.backdrops));
    ScopedValueReaches(nfo, season, false, 2, Logo, First(nfo.logos));
  }

  /** A series' pictures go to the series. */
  lemma SeriesPictures(nfo: Nfo, season: Option<int>)
    ensures ShowsFirst(Declared(ParentValues(nfo, season, true), SeriesPoster), nfo.posters)
    ensures ShowsFirst(Declared(ParentValues(nfo, season, true), SeriesBackdrop), nfo.backdrops)
    ensures ShowsFirst(Declared(ParentValues(nfo, season, true), SeriesLogo), nfo.logos)
  {
    var named := |SeasonValues(nfo, season)|;
    ScopedValueReaches(nfo, season, true, named, SeriesPoster, First(nfo.posters));
    ScopedValueReaches(nfo, season, true, named + 1, SeriesBackdrop, First(nfo.backdrops));
    ScopedValueReaches(nfo, season, true, named + 2, SeriesLogo, First(nfo.logos));
  }

  lemma {:induction false} FirstSeasonNamed(seasons: seq<NamedSeason>, k: nat)
    requires k < |seasons| && forall j | 0 <= j < k :: seasons[j].number != seasons[k].number
    ensures SeasonNamed(seasons, seasons[k].number) == Some(seasons[k])
  {
    if k > 0 {
      FirstSeasonNamed(seasons[1..], k - 1);
    }
  }

  lemma {:induction false} NoSeasonNamed(seasons: seq<NamedSeason>, number: int)
    requires forall j | 0 <= j < |seasons| :: seasons[j].number != number
    ensures SeasonNamed(seasons, number) == None
  {
    if seasons != [] {
      NoSeasonNamed(seasons[1..], number);
    }
  }

  /** The season of the file is the first one named under its number. */
  lemma SeasonTexts(nfo: Nfo, season: int, k: nat)
    requires k < |nfo.namedSeasons| && nfo.namedSeasons[k].number == season
    requires forall j | 0 <= j < k :: nfo.namedSeasons[j].number != season
    ensures var named, values := nfo.namedSeasons[k], ParentValues(nfo, Some(season), true);
            && Declared(values, SeasonTitle) == Stated(named.title)
            && Declared(values, SeasonOverview) == Stated(named.overview)
            && ShowsFirst(Declared(values, SeasonPoster), named.posters)
            && ShowsFirst(Declared(values, SeasonBackdrop), named.backdrops)
  {
    FirstSeasonNamed(nfo.namedSeasons, k);
    var named := nfo.namedSeasons[k];
    ScopedValueReaches(nfo, Some(season), true, 0, SeasonTitle, named.title);
    ScopedValueReaches(nfo, Some(season), true, 1, SeasonOverview, named.overview);
    ScopedValueReaches(nfo, Some(season), true, 2, SeasonPoster, First(named.posters));
    ScopedValueReaches(nfo, Some(season), true, 3, SeasonBackdrop, First(named.backdrops));
  }

  /** A file without a number, or with one that no season is named under, gets no season from the document. */
  lemma UnnamedSeasonSaysNothing(nfo: Nfo, season: Option<int>, f: Field)
    requires season.Some? ==> forall j | 0 <= j < |nfo.namedSeasons| :: nfo.namedSeasons[j].number != season.value
    requires f in [SeasonTitle, SeasonOverview, SeasonPoster, SeasonBackdrop]
    ensures Declared(ParentValues(nfo, season, true), f) == None
  {
    if season.Some? {
      NoSeasonNamed(nfo.namedSeasons, season.value);
    }
    var values, common := ParentValues(nfo, season, true), |CommonValues(nfo)|;
    assert SeasonValues(nfo, season) == [];
    forall i | 0 <= i < |values|
      ensures values[i].0 != f
    {
      if i < common {
        CommonFields(nfo, i);
      }
    }
    NotAssigned(values, f);
  }

  lemma EpisodeAssignsOnce(nfo: Nfo, i: nat, j: nat)
    requires i < |EpisodeValues(nfo)| && j < |EpisodeValues(nfo)| && i != j
    ensures EpisodeValues(nfo)[i].0 != EpisodeValues(nfo)[j].0
  {
  }

  lemma EpisodeValueReaches(nfo: Nfo, i: nat, f: Field, value: Option<string>)
    requires i < |EpisodeValues(nfo)| && EpisodeValues(nfo)[i] == (f, value)
    ensures Declared(EpisodeValues(nfo), f) == Stated(value)
  {
    forall j | 0 <= j < |EpisodeValues(nfo)| && j != i
      ensures EpisodeValues(nfo)[j].0 != EpisodeValues(nfo)[i].0
    {
      EpisodeAssignsOnce(nfo, i, j);
    }
    DeclaredOnce(EpisodeValues(nfo), i);
  }

  /** The texts of an episode: its air date stands before the premiere, its overview before the outline. */
  lemma EpisodeTexts(nfo: Nfo)
    ensures Declared(EpisodeValues(nfo), EpisodeTitle) == Stated(nfo.title)
    ensures Declared(EpisodeValues(nfo), EpisodeOriginalTitle) == Stated(nfo.originalTitle)
    ensures Declared(EpisodeValues(nfo), EpisodeSortTitle) == Stated(nfo.sortTitle)
    ensures Declared(EpisodeValues(nfo), EpisodeOverview)
         == Stated(if nfo.overview.Some? then nfo.overview else nfo.outline)
  {
    EpisodeValueReaches(nfo, 0, EpisodeTitle, nfo.title);
    EpisodeValueReaches(nfo, 1, EpisodeOriginalTitle, nfo.originalTitle);
    EpisodeValueReaches(nfo, 2, EpisodeSortTitle, nfo.sortTitle);
    EpisodeValueReaches(nfo, 3, EpisodeOverview, Or(nfo.overview, nfo.outline));
  }

  lemma EpisodeDetails(nfo: Nfo)
    ensures Declared(EpisodeValues(nfo), EpisodeTagline) == Stated(nfo.tagline)
    ensures Declared(EpisodeValues(nfo), EpisodePremiereDate)
         == Stated(if nfo.aired.Some? then nfo.aired else nfo.premiered)
    ensures Declared(EpisodeValues(nfo), EpisodeContentRating) == Stated(nfo.contentRating)
  {
    EpisodeValueReaches(nfo, 4, EpisodeTagline, nfo.tagline);
    EpisodeValueReaches(nfo, 5, EpisodePremiereDate, Or(nfo.aired, nfo.premiered));
    EpisodeValueReaches(nfo, 6, EpisodeContentRating, nfo.contentRating);
  }

  /** An episode's poster is its first thumbnail, or its first poster when it has none. */
  lemma EpisodePictures(nfo: Nfo)
    ensures ShowsFirst(Declared(EpisodeValues(nfo), Poster),
                       if nfo.thumbnails != [] then nfo.thumbnails else nfo.posters)
    ensures ShowsFirst(Declared(EpisodeValues(nfo), Backdrop), nfo.backdrops)
  {
    EpisodeValueReaches(nfo, 7, Poster, Or(First(nfo.thumbnails), First(nfo.posters)));
    EpisodeValueReaches(nfo, 8, Backdrop, First(nfo.backdrops));
  }

  /** Artwork found by convention goes to the series, each kind to its own field. */
  lemma ConventionalArtwork(artwork: SeriesArtwork)
    ensures Declared(ArtworkValues(artwork), SeriesPoster) == Stated(artwork.poster)
    ensures Declared(ArtworkValues(artwork), SeriesBackdrop) == Stated(artwork.backdrop)
    ensures Declared(ArtworkValues(artwork), SeriesLogo) == Stated(artwork.logo)
    ensures forall f | Declared(ArtworkValues(artwork), f).Some? :: f in [SeriesPoster, SeriesBackdrop, SeriesLogo]
  {
    DeclaredOnce(ArtworkValues(artwork), 0);
    DeclaredOnce(ArtworkValues(artwork), 1);
    DeclaredOnce(ArtworkValues(artwork), 2);
    forall f | Declared(ArtworkValues(artwork), f).Some?
      ensures f in [SeriesPoster, SeriesBackdrop, SeriesLogo]
    {
      DeclaredIsAssigned(ArtworkValues(artwork), f);
    }
  }
}
