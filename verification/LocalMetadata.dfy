/** Applying local metadata to a group of files in place, before and after remote enrichment. */
module LocalMetadata {
  import opened EpisodeSelection
  import opened LocalNfo
  import opened ParentSelection
  import opened Text
  import opened TmdbIds
  import opened Wrappers

  datatype LocalSelection = LocalSelection(hint: Option<string>, conflict: bool)

  type Discover = Nfo -> SeriesArtwork

  function MergeLookupHints(existing: Option<string>, selection: LocalSelection): Option<string> {
    if selection.conflict then None
    else if existing.Some? && selection.hint.Some? && existing != selection.hint then None
    else Or(existing, selection.hint)
  }

  /** A merged hint never contradicts either side, and is lost only to a conflict. */
  lemma MergedHintContradictsNobody(existing: Option<string>, selection: LocalSelection)
    ensures var merged := MergeLookupHints(existing, selection);
            && (merged.Some? ==> !selection.conflict
                                 && (existing.Some? ==> merged == existing)
                                 && (selection.hint.Some? ==> merged == selection.hint))
            && (merged.None? <==>
                selection.conflict || (existing.None? && selection.hint.None?)
                || (existing.Some? && selection.hint.Some? && existing != selection.hint))
  {
  }

  // ---- one file ----

  function Unsuppressed(nfo: Option<Nfo>): Option<Nfo> {
    if nfo.None? then None else Some(nfo.value.(suppressed := false))
  }

  function ResetFile(file: MediaFile): MediaFile {
    file.(nfoSelected := false, seriesNfoSelected := false,
          nfo := Unsuppressed(file.nfo), seriesNfo := Unsuppressed(file.seriesNfo))
  }

  predicate IsFrom(nfo: Option<Nfo>, selected: Nfo) {
    nfo.Some? && nfo.value.sourcePath == selected.sourcePath
  }

  /** The file's own document learns whether it may project its TMDB identity. */
  function Marked(nfo: Option<Nfo>, suppressed: bool): Option<Nfo> {
    if nfo.None? then None else Some(nfo.value.(suppressed := suppressed))
  }

  function ParentFields(fields: Fields, season: Option<int>, selected: Nfo, isSeries: bool,
                        discover: Discover): Fields {
    if isSeries then
      var artwork := discover(selected);
      Project(Project(WithoutStale(fields, artwork), ArtworkValues(artwork)), ParentValues(selected, season, true))
    else Project(fields, ParentValues(selected, season, false))
  }

  function ParentApplied(file: MediaFile, choice: Choice, isSeries: bool, discover: Discover): MediaFile {
    if choice.selected.None? then file
    else
      var selected := choice.selected.value;
      var projected := file.(fields := ParentFields(file.fields, file.season, selected, isSeries, discover),
                             year := Or(selected.year, file.year));
      if isSeries then
        projected.(seriesNfoSelected := IsFrom(file.seriesNfo, selected),
                   seriesNfo := Marked(file.seriesNfo, IsFrom(file.seriesNfo, selected) && choice.conflict))
      else
        projected.(nfoSelected := IsFrom(file.nfo, selected),
                   nfo := Marked(file.nfo, IsFrom(file.nfo, selected) && choice.conflict))
  }

  function PickFor(files: seq<MediaFile>, file: MediaFile): Option<Pick> {
    if KeyOf(file).None? then None else PickFrom(DocumentsFor(files, KeyOf(file).value))
  }

  function EpisodeApplied(file: MediaFile, pick: Option<Pick>): MediaFile {
    if pick.None? then file
    else
      var selected := pick.value.selected.nfo;
      var isSelected := IsFrom(file.nfo, selected) && file.nfo.value.kind.EpisodeNfo?;
      file.(nfoSelected := isSelected,
            nfo := Marked(file.nfo, isSelected && pick.value.conflict),
            fields := Project(file.fields, EpisodeValues(selected)),
            episodeYear := Or(selected.year, file.episodeYear))
  }

  // ---- the group ----

  function ResetAll(files: seq<MediaFile>): seq<MediaFile> {
    seq(|files|, i requires 0 <= i < |files| => ResetFile(files[i]))
  }

  function ParentsApplied(files: seq<MediaFile>, choice: Choice, isSeries: bool, discover: Discover): seq<MediaFile> {
    seq(|files|, i requires 0 <= i < |files| => ParentApplied(files[i], choice, isSeries, discover))
  }

  function EpisodesApplied(files: seq<MediaFile>): seq<MediaFile> {
    seq(|files|, i requires 0 <= i < |files| => EpisodeApplied(files[i], PickFor(files, files[i])))
  }

  function ChoiceFor(files: seq<MediaFile>, isSeries: bool, sidecar: Sidecar): Choice {
    ChooseParent(ResetAll(files), isSeries, sidecar)
  }

  function Applied(files: seq<MediaFile>, isSeries: bool, sidecar: Sidecar, discover: Discover): seq<MediaFile> {
    EpisodesApplied(ParentsApplied(ResetAll(files), ChoiceFor(files, isSeries, sidecar), isSeries, discover))
  }

  method ApplyParentProjection(file: MediaFile, choice: Choice, isSeries: bool, discover: Discover)
    returns (projected: MediaFile)
    ensures projected == ParentApplied(file, choice, isSeries, discover)
  {
    projected := file;
    if choice.selected.Some? {
      var selected := choice.selected.value;
      var fields := file.fields;
      if isSeries {
        fields := ApplySeriesContainerArtwork(fields, discover(selected));
      }
      fields := ReplaceStated(fields, ParentValues(selected, file.season, isSeries));
      projected := file.(fields := fields, year := Or(selected.year, file.year));
      if isSeries {
        var isSelected := IsFrom(file.seriesNfo, selected);
        projected := projected.(seriesNfoSelected := isSelected,
                                seriesNfo := Marked(file.seriesNfo, isSelected && choice.conflict));
      } else {
        var isSelected := IsFrom(file.nfo, selected);
        projected := projected.(nfoSelected := isSelected, nfo := Marked(file.nfo, isSelected && choice.conflict));
      }
    }
  }

  method ApplyEpisodeProjection(file: MediaFile, pick: Pick) returns (projected: MediaFile)
    ensures projected == EpisodeApplied(file, Some(pick))
  {
    var selected := pick.selected.nfo;
    var isSelected := IsFrom(file.nfo, selected) && file.nfo.value.kind.EpisodeNfo?;
    var fields := ReplaceStated(file.fields, EpisodeValues(selected));
    projected := file.(nfoSelected := isSelected, nfo := Marked(file.nfo, isSelected && pick.conflict),
                       fields := fields, episodeYear := Or(selected.year, file.episodeYear));
  }

  method ApplyEpisodeTo(file: MediaFile, selections: map<EpisodeKey, Pick>, ghost files: seq<MediaFile>, ghost i: nat)
    returns (projected: MediaFile)
    requires i < |files| && file == files[i]
    requires forall key :: Picked(selections, key) == PickFrom(DocumentsFor(files, key))
    ensures projected == EpisodesApplied(files)[i]
  {
    projected := file;
    var key := KeyOf(file);
    if key.Some? {
      assert Picked(selections, key.value) == PickFor(files, file);
      if key.value in selections {
        projected := ApplyEpisodeProjection(file, selections[key.value]);
      }
    }
  }

  method ApplyEpisodeGroupProjection(files: array<MediaFile>)
    modifies files
    ensures files[..] == EpisodesApplied(old(files[..]))
  {
    var selections := SelectEpisodes(files[..]);
    ghost var was := files[..];
    ghost var goal := EpisodesApplied(was);
    for i := 0 to files.Length
      invariant forall k | 0 <= k < i :: files[k] == goal[k]
      invariant forall k | i <= k < files.Length :: files[k] == was[k]
    {
      files[i] := ApplyEpisodeTo(files[i], selections, was, i);
    }
    assert files[..] == goal;
  }

  method ResetMarks(files: array<MediaFile>)
    modifies files
    ensures files[..] == ResetAll(old(files[..]))
  {
    ghost var was := files[..];
    ghost var goal := ResetAll(was);
    for i := 0 to files.Length
      invariant forall k | 0 <= k < i :: files[k] == goal[k]
      invariant forall k | i <= k < files.Length :: files[k] == was[k]
    {
      files[i] := ResetFile(files[i]);
    }
    assert files[..] == goal;
  }

  method ApplyParentTo(file: MediaFile, choice: Choice, isSeries: bool, discover: Discover,
                       ghost files: seq<MediaFile>, ghost i: nat)
    returns (projected: MediaFile)
    requires i < |files| && file == files[i]
    ensures projected == ParentsApplied(files, choice, isSeries, discover)[i]
  {
    projected := ApplyParentProjection(file, choice, isSeries, discover);
  }

  method ApplyParentToAll(files: array<MediaFile>, choice: Choice, isSeries: bool, discover: Discover)
    modifies files
    ensures files[..] == ParentsApplied(old(files[..]), choice, isSeries, discover)
  {
    ghost var was := files[..];
    ghost var goal := ParentsApplied(was, choice, isSeries, discover);
    for i := 0 to files.Length
      invariant forall k | 0 <= k < i :: files[k] == goal[k]
      invariant forall k | i <= k < files.Length :: files[k] == was[k]
    {
      files[i] := ApplyParentTo(files[i], choice, isSeries, discover, was, i);
    }
    assert files[..] == goal;
  }

  method ApplyGroupLocalMetadata(files: array<MediaFile>, lookupType: string, sidecar: Sidecar, discover: Discover)
    returns (selection: LocalSelection)
    modifies files
    ensures var isSeries := EqualIgnoringAsciiCase(lookupType, "series");
            && files[..] == Applied(old(files[..]), isSeries, sidecar, discover)
            && selection == LocalSelection(ChoiceFor(old(files[..]), isSeries, sidecar).hint,
                                           ChoiceFor(old(files[..]), isSeries, sidecar).conflict)
  {
    ResetMarks(files);
    var isSeries := EqualIgnoringAsciiCase(lookupType, "series");
    var choice := ChooseParent(files[..], isSeries, sidecar);
    ApplyParentToAll(files, choice, isSeries, discover);
    ApplyEpisodeGroupProjection(files);
    selection := LocalSelection(choice.hint, choice.conflict);
  }

  // ---- the value of every field afterwards ----

  function EpisodeStates(pick: Option<Pick>, f: Field): Option<string> {
    if pick.None? then None else Declared(EpisodeValues(pick.value.selected.nfo), f)
  }

  function ParentStates(file: MediaFile, choice: Choice, isSeries: bool, f: Field): Option<string> {
    if choice.selected.None? then None else Declared(ParentValues(choice.selected.value, file.season, isSeries), f)
  }

  function ConventionStates(choice: Choice, isSeries: bool, discover: Discover, f: Field): Option<string> {
    if choice.selected.None? || !isSeries then None else Declared(ArtworkValues(discover(choice.selected.value)), f)
  }

  predicate ConventionClears(fields: Fields, choice: Choice, isSeries: bool, discover: Discover, f: Field) {
    choice.selected.Some? && isSeries && f in fields && IsStale(discover(choice.selected.value), f, fields[f])
  }

  /** An episode document comes first, then the parent, then artwork by convention; otherwise the field stays. */
  function FinalValue(file: MediaFile, choice: Choice, pick: Option<Pick>, isSeries: bool, discover: Discover, f: Field)
    : Option<string>
  {
    Or(EpisodeStates(pick, f), Or(ParentStates(file, choice, isSeries, f), Or(ConventionStates(choice, isSeries,
        discover, f),
       if ConventionClears(file.fields, choice, isSeries, discover, f) then None else At(file.fields, f))))
  }

  lemma ParentFieldsAt(file: MediaFile, choice: Choice, isSeries: bool, discover: Discover, f: Field)
    requires choice.selected.Some?
    ensures At(ParentFields(file.fields, file.season, choice.selected.value, isSeries, discover), f)
         == Or(ParentStates(file, choice, isSeries, f), Or(ConventionStates(choice, isSeries, discover, f),
            if ConventionClears(file.fields, choice, isSeries, discover, f) then None else At(file.fields, f)))
  {
    var selected := choice.selected.value;
    if isSeries {
      var artwork := discover(selected);
      var cleared := WithoutStale(file.fields, artwork);
      ProjectAt(cleared, ArtworkValues(artwork), f);
      ProjectAt(Project(cleared, ArtworkValues(artwork)), ParentValues(selected, file.season, true), f);
    } else {
      ProjectAt(file.fields, ParentValues(selected, file.season, false), f);
    }
  }

  lemma FieldOfFile(file: MediaFile, choice: Choice, pick: Option<Pick>, isSeries: bool, discover: Discover, f: Field)
    ensures At(EpisodeApplied(ParentApplied(file, choice, isSeries, discover), pick).fields, f)
         == FinalValue(file, choice, pick, isSeries, discover, f)
  {
    var parented := ParentApplied(file, choice, isSeries, discover);
    if choice.selected.Some? {
      ParentFieldsAt(file, choice, isSeries, discover, f);
    }
    if pick.Some? {
      ProjectAt(parented.fields, EpisodeValues(pick.value.selected.nfo), f);
    }
  }

  // ---- the marks afterwards ----

  ghost predicate Speaks(nfo: Option<Nfo>, selected: Option<Nfo>) {
    nfo.Some? && selected.Some? && nfo.value.sourcePath == selected.value.sourcePath
  }

  /** Nothing about the file but its fields, its years and the marks of its documents has changed. */
  ghost predicate SameFile(file: MediaFile, after: MediaFile) {
    && after.path == file.path && after.season == file.season && after.episode == file.episode
    && after.provider == file.provider && after.providerItem == file.providerItem
    && (after.nfo.Some? <==> file.nfo.Some?) && (after.seriesNfo.Some? <==> file.seriesNfo.Some?)
    && (file.nfo.Some? ==> after.nfo.value == file.nfo.value.(suppressed := after.nfo.value.suppressed))
    && (file.seriesNfo.Some? ==>
          after.seriesNfo.value == file.seriesNfo.value.(suppressed := after.seriesNfo.value.suppressed))
  }

  /** After the parent: its own document is selected in a movie group, its series document in a series group. */
  lemma ParentMarks(file: MediaFile, choice: Choice, isSeries: bool, discover: Discover)
    ensures var after := ParentApplied(ResetFile(file), choice, isSeries, discover);
            && SameFile(file, after)
            && (after.nfoSelected <==> !isSeries && Speaks(file.nfo, choice.selected))
            && (after.seriesNfoSelected <==> isSeries && Speaks(file.seriesNfo, choice.selected))
            && (file.nfo.Some? ==> after.nfo.value.suppressed == (after.nfoSelected && choice.conflict))
            && (file.seriesNfo.Some? ==>
                  after.seriesNfo.value.suppressed == (after.seriesNfoSelected && choice.conflict))
  {
  }

  /** After the episode: the marks of the file's own document are about the episode's pick, if there is one. */
  lemma EpisodeMarks(file: MediaFile, pick: Option<Pick>)
    ensures var after := EpisodeApplied(file, pick);
            && SameFile(file, after) && after.seriesNfo == file.seriesNfo
            && after.seriesNfoSelected == file.seriesNfoSelected
            && (pick.None? ==> after == file)
            && (pick.Some? ==>
                  && (after.nfoSelected <==>
                      Speaks(file.nfo, Some(pick.value.selected.nfo)) && file.nfo.value.kind == EpisodeNfo)
                  && (file.nfo.Some? ==> after.nfo.value.suppressed == (after.nfoSelected && pick.value.conflict)))
  {
  }

  /**
   * A file's own document is marked as selected when it is the one selected for its episode, or for its movie when no
   * document was; its series document when that speaks for the group. A selected document is suppressed exactly on
   * conflict, every other one is not, and nothing else about the file changes.
   */
  lemma MarksOfFile(file: MediaFile, choice: Choice, pick: Option<Pick>, isSeries: bool, discover: Discover)
    ensures var after := EpisodeApplied(ParentApplied(ResetFile(file), choice, isSeries, discover), pick);
            && SameFile(file, after)
            && (after.nfoSelected <==>
                if pick.Some? then Speaks(file.nfo, Some(pick.value.selected.nfo)) && file.nfo.value.kind == EpisodeNfo
                else !isSeries && Speaks(file.nfo, choice.selected))
            && (after.seriesNfoSelected <==> isSeries && Speaks(file.seriesNfo, choice.selected))
            && (file.nfo.Some? ==>
                  after.nfo.value.suppressed ==
                  (after.nfoSelected && if pick.Some? then pick.value.conflict else choice.conflict))
            && (file.seriesNfo.Some? ==>
                  after.seriesNfo.value.suppressed == (after.seriesNfoSelected && choice.conflict))
  {
    ParentMarks(file, choice, isSeries, discover);
    EpisodeMarks(ParentApplied(ResetFile(file), choice, isSeries, discover), pick);
  }

  /** Only artwork that the convention owns and no longer finds is cleared, each kind by its own finding. */
  lemma ClearedExactlyWhen(fields: Fields, artwork: SeriesArtwork, f: Field)
    ensures At(WithoutStale(fields, artwork), f) ==
            if && f in fields && artwork.owns(f, fields[f])
               && (|| (f == SeriesPoster && artwork.poster.None?)
                   || (f == SeriesBackdrop && artwork.backdrop.None?)
                   || (f == SeriesLogo && artwork.logo.None?))
            then None else At(fields, f)
  {
  }
}
