/** Applying local metadata again: on its own result, and after enrichment has rewritten the fields. */
module LocalMetadataReapplication {
  import opened EpisodeSelection
  import opened LocalMetadata
  import opened LocalNfo
  import opened ParentSelection
  import opened Sequences
  import opened Wrappers

  /** The same file with the same documents, whatever its fields, marks and binding. */
  ghost predicate SameDocuments(a: MediaFile, b: MediaFile) {
    && a.path == b.path && a.season == b.season && a.episode == b.episode
    && Unsuppressed(a.nfo) == Unsuppressed(b.nfo)
    && Unsuppressed(a.seriesNfo) == Unsuppressed(b.seriesNfo)
  }

  ghost predicate SameGroup(files: seq<MediaFile>, after: seq<MediaFile>) {
    |files| == |after| && forall i | 0 <= i < |files| :: SameDocuments(files[i], after[i])
  }

  /** What one file becomes, given the group's choice and its episode's pick. */
  function AppliedTo(file: MediaFile, choice: Choice, pick: Option<Pick>, isSeries: bool,
                     discover: Discover): MediaFile {
    EpisodeApplied(ParentApplied(ResetFile(file), choice, isSeries, discover), pick)
  }

  function PickAt(files: seq<MediaFile>, i: nat, choice: Choice, isSeries: bool, discover: Discover): Option<Pick>
    requires i < |files|
  {
    var parented := ParentsApplied(ResetAll(files), choice, isSeries, discover);
    PickFor(parented, parented[i])
  }

  lemma AppliedAt(files: seq<MediaFile>, i: nat, isSeries: bool, sidecar: Sidecar, discover: Discover)
    requires i < |files|
    ensures |Applied(files, isSeries, sidecar, discover)| == |files|
    ensures var choice := ChoiceFor(files, isSeries, sidecar);
            Applied(files, isSeries, sidecar, discover)[i] ==
            AppliedTo(files[i], choice, PickAt(files, i, choice, isSeries, discover), isSeries, discover)
  {
  }

  // ---- the same documents give the same picks ----

  lemma SameContribution(a: MediaFile, b: MediaFile, choice: Choice, isSeries: bool, discover: Discover,
                         key: EpisodeKey)
    requires SameDocuments(a, b)
    ensures var x := ParentApplied(ResetFile(a), choice, isSeries, discover);
            var y := ParentApplied(ResetFile(b), choice, isSeries, discover);
            && KeyOf(x) == KeyOf(y) == KeyOf(a)
            && x.nfo == y.nfo
            && Contribution(x, key) == Contribution(y, key)
  {
  }

  lemma {:induction false} SameGather<A, B>(s: seq<A>, t: seq<A>, f: A -> seq<B>)
    requires |s| == |t| && forall i | 0 <= i < |s| :: f(s[i]) == f(t[i])
    ensures Gather(s, f) == Gather(t, f)
  {
    if s != [] {
      SameGather(s[..|s| - 1], t[..|t| - 1], f);
    }
  }

  lemma SamePick(files: seq<MediaFile>, after: seq<MediaFile>, i: nat, choice: Choice, isSeries: bool,
                 discover: Discover)
    requires SameGroup(files, after) && i < |files|
    ensures PickAt(files, i, choice, isSeries, discover) == PickAt(after, i, choice, isSeries, discover)
  {
    var xs := ParentsApplied(ResetAll(files), choice, isSeries, discover);
    var ys := ParentsApplied(ResetAll(after), choice, isSeries, discover);
    if KeyOf(xs[i]).Some? {
      var key := KeyOf(xs[i]).value;
      forall k | 0 <= k < |files|
        ensures ContributionTo(key)(xs[k]) == ContributionTo(key)(ys[k])
      {
        SameContribution(files[k], after[k], choice, isSeries, discover, key);
      }
      SameGather(xs, ys, ContributionTo(key));
    }
    SameContribution(files[i], after[i], choice, isSeries, discover, (0, 0));
  }

  // ---- enrichment in between ----

  /** What local metadata says about a field of a file: the episode's document, the parent, or artwork by convention. */
  function StatedValue(file: MediaFile, choice: Choice, pick: Option<Pick>, isSeries: bool, discover: Discover,
                       f: Field)
    : Option<string>
  {
    Or(EpisodeStates(pick, f), Or(ParentStates(file, choice, isSeries, f), ConventionStates(choice, isSeries,
        discover, f)))
  }

  lemma FieldAfter(files: seq<MediaFile>, i: nat, isSeries: bool, sidecar: Sidecar, discover: Discover, f: Field)
    requires i < |files|
    ensures |Applied(files, isSeries, sidecar, discover)| == |files|
    ensures var choice := ChoiceFor(files, isSeries, sidecar);
            At(Applied(files, isSeries, sidecar, discover)[i].fields, f) ==
            FinalValue(ResetFile(files[i]), choice, PickAt(files, i, choice, isSeries, discover), isSeries, discover, f)
  {
    var choice := ChoiceFor(files, isSeries, sidecar);
    AppliedAt(files, i, isSeries, sidecar, discover);
    FieldOfFile(ResetFile(files[i]), choice, PickAt(files, i, choice, isSeries, discover), isSeries, discover, f);
  }

  lemma FinalIsStated(file: MediaFile, choice: Choice, pick: Option<Pick>, isSeries: bool, discover: Discover, f: Field)
    ensures FinalValue(ResetFile(file), choice, pick, isSeries, discover, f) ==
            var stated := StatedValue(file, choice, pick, isSeries, discover, f);
            if stated.Some? then stated
            else if ConventionClears(file.fields, choice, isSeries, discover, f) then None
            else At(file.fields, f)
  {
  }

  lemma SameStated(a: MediaFile, b: MediaFile, choice: Choice, pick: Option<Pick>, isSeries: bool, discover: Discover,
                   f: Field)
    requires SameDocuments(a, b)
    ensures StatedValue(a, choice, pick, isSeries, discover, f) == StatedValue(b, choice, pick, isSeries, discover, f)
  {
  }

  /**
   * However enrichment rewrote the files, applying once more gives every field of every file the value that local
   * metadata now states for it, and leaves the others as enrichment wrote them, stale conventional artwork aside.
   */
  lemma ReapplicationRestores(after: seq<MediaFile>, i: nat, isSeries: bool, sidecar: Sidecar, discover: Discover,
                              f: Field)
    requires i < |after|
    ensures |Applied(after, isSeries, sidecar, discover)| == |after|
    ensures var choice := ChoiceFor(after, isSeries, sidecar);
            var pick := PickAt(after, i, choice, isSeries, discover);
            var stated := StatedValue(after[i], choice, pick, isSeries, discover, f);
            At(Applied(after, isSeries, sidecar, discover)[i].fields, f) ==
            if stated.Some? then stated
            else if ConventionClears(after[i].fields, choice, isSeries, discover, f) then None
            else At(after[i].fields, f)
  {
    var choice := ChoiceFor(after, isSeries, sidecar);
    FieldAfter(after, i, isSeries, sidecar, discover, f);
    FinalIsStated(after[i], choice, PickAt(after, i, choice, isSeries, discover), isSeries, discover, f);
  }

  function ParentYear(choice: Choice): Option<int> {
    if choice.selected.None? then None else choice.selected.value.year
  }

  function EpisodeYear(pick: Option<Pick>): Option<int> {
    if pick.None? then None else pick.value.selected.nfo.year
  }

  lemma YearsOfFile(file: MediaFile, choice: Choice, pick: Option<Pick>, isSeries: bool, discover: Discover)
    ensures AppliedTo(file, choice, pick, isSeries, discover).year == Or(ParentYear(choice), file.year)
    ensures AppliedTo(file, choice, pick, isSeries, discover).episodeYear == Or(EpisodeYear(pick), file.episodeYear)
  {
  }

  /** The same for the years of the movie or series and of the episode. */
  lemma ReapplicationRestoresYears(after: seq<MediaFile>, i: nat, isSeries: bool, sidecar: Sidecar, discover: Discover)
    requires i < |after|
    ensures |Applied(after, isSeries, sidecar, discover)| == |after|
    ensures var choice := ChoiceFor(after, isSeries, sidecar);
            var file := Applied(after, isSeries, sidecar, discover)[i];
            && file.year == Or(ParentYear(choice), after[i].year)
            && file.episodeYear == Or(EpisodeYear(PickAt(after, i, choice, isSeries, discover)), after[i].episodeYear)
  {
    var choice := ChoiceFor(after, isSeries, sidecar);
    AppliedAt(after, i, isSeries, sidecar, discover);
    YearsOfFile(after[i], choice, PickAt(after, i, choice, isSeries, discover), isSeries, discover);
  }

  lemma {:induction false} SameBindingsSameAcceptedId(files: seq<MediaFile>, after: seq<MediaFile>)
    requires |files| == |after| && forall i | 0 <= i < |files| :: BoundId(files[i]) == BoundId(after[i])
    ensures AcceptedId(files) == AcceptedId(after)
  {
    if files != [] {
      SameBindingsSameAcceptedId(files[1..], after[1..]);
    }
  }

  lemma SameOffer(a: MediaFile, b: MediaFile, isSeries: bool, sidecar: Sidecar)
    requires SameDocuments(a, b)
    ensures OfferOf(ResetFile(a), isSeries, sidecar) == OfferOf(ResetFile(b), isSeries, sidecar)
  {
  }

  /** The same documents and bindings, or a binding to the identity hinted at, keep the choice. */
  lemma SameChoice(files: seq<MediaFile>, after: seq<MediaFile>, isSeries: bool, sidecar: Sidecar)
    requires SameGroup(files, after)
    requires || AcceptedId(ResetAll(files)) == AcceptedId(ResetAll(after))
             || (ChoiceFor(files, isSeries, sidecar).hint.Some?
                 && AcceptedId(ResetAll(after)) == ChoiceFor(files, isSeries, sidecar).hint)
    ensures ChoiceFor(after, isSeries, sidecar) == ChoiceFor(files, isSeries, sidecar)
  {
    forall i | 0 <= i < |files|
      ensures OfferOf(ResetAll(files)[i], isSeries, sidecar) == OfferOf(ResetAll(after)[i], isSeries, sidecar)
    {
      SameOffer(files[i], after[i], isSeries, sidecar);
    }
    SameOffersSameCandidates(ResetAll(files), ResetAll(after), isSeries, sidecar);
    if AcceptedId(ResetAll(files)) != AcceptedId(ResetAll(after)) {
      HintedBindingKeepsTheDocument(ResetAll(files), ResetAll(after), isSeries, sidecar);
    }
  }

  /**
   * With unchanged documents, and bindings unchanged or set to the identity that was hinted at, what is restored is
   * what the first application wrote.
   */
  lemma ReapplicationRestoresTheSame(files: seq<MediaFile>, after: seq<MediaFile>, i: nat, isSeries: bool,
                                     sidecar: Sidecar, discover: Discover, f: Field)
    requires SameGroup(files, after) && i < |files|
    requires || AcceptedId(ResetAll(files)) == AcceptedId(ResetAll(after))
             || (ChoiceFor(files, isSeries, sidecar).hint.Some?
                 && AcceptedId(ResetAll(after)) == ChoiceFor(files, isSeries, sidecar).hint)
    ensures |Applied(files, isSeries, sidecar, discover)| == |Applied(after, isSeries, sidecar, discover)| == |files|
    ensures var choice := ChoiceFor(files, isSeries, sidecar);
            var pick := PickAt(files, i, choice, isSeries, discover);
            var stated := StatedValue(files[i], choice, pick, isSeries, discover, f);
            var first := Applied(files, isSeries, sidecar, discover)[i];
            var second := Applied(after, isSeries, sidecar, discover)[i];
            && (stated.Some? ==> At(second.fields, f) == At(first.fields, f) == stated)
            && (ParentYear(choice).Some? ==> second.year == first.year == ParentYear(choice))
            && (EpisodeYear(pick).Some? ==> second.episodeYear == first.episodeYear == EpisodeYear(pick))
  {
    var choice := ChoiceFor(files, isSeries, sidecar);
    var pick := PickAt(files, i, choice, isSeries, discover);
    SameChoice(files, after, isSeries, sidecar);
    SamePick(files, after, i, choice, isSeries, discover);
    SameStated(files[i], after[i], choice, pick, isSeries, discover, f);
    ReapplicationRestores(files, i, isSeries, sidecar, discover, f);
    ReapplicationRestores(after, i, isSeries, sidecar, discover, f);
    ReapplicationRestoresYears(files, i, isSeries, sidecar, discover);
    ReapplicationRestoresYears(after, i, isSeries, sidecar, discover);
  }

  // ---- applying twice ----

  lemma AppliedKeepsDocuments(file: MediaFile, choice: Choice, pick: Option<Pick>, isSeries: bool, discover: Discover)
    ensures SameDocuments(file, AppliedTo(file, choice, pick, isSeries, discover))
    ensures BoundId(ResetFile(AppliedTo(file, choice, pick, isSeries, discover))) == BoundId(ResetFile(file))
  {
  }

  lemma SeriesMarksTwice(file: MediaFile, choice: Choice, pick: Option<Pick>, isSeries: bool, discover: Discover)
    ensures var once := AppliedTo(file, choice, pick, isSeries, discover);
            var twice := AppliedTo(once, choice, pick, isSeries, discover);
            twice.seriesNfo == once.seriesNfo && twice.seriesNfoSelected == once.seriesNfoSelected
  {
  }

  lemma OwnMarksTwice(file: MediaFile, choice: Choice, pick: Option<Pick>, isSeries: bool, discover: Discover)
    ensures var once := AppliedTo(file, choice, pick, isSeries, discover);
            var twice := AppliedTo(once, choice, pick, isSeries, discover);
            twice.nfo == once.nfo && twice.nfoSelected == once.nfoSelected
  {
  }

  lemma RestTwice(file: MediaFile, choice: Choice, pick: Option<Pick>, isSeries: bool, discover: Discover)
    ensures var once := AppliedTo(file, choice, pick, isSeries, discover);
            var twice := AppliedTo(once, choice, pick, isSeries, discover);
            && twice.path == once.path && twice.provider == once.provider && twice.providerItem == once.providerItem
            && twice.season == once.season && twice.episode == once.episode
            && twice.year == once.year && twice.episodeYear == once.episodeYear
  {
  }

  lemma FieldTwice(file: MediaFile, choice: Choice, pick: Option<Pick>, isSeries: bool, discover: Discover, f: Field)
    ensures var once := AppliedTo(file, choice, pick, isSeries, discover);
            At(AppliedTo(once, choice, pick, isSeries, discover).fields, f) == At(once.fields, f)
  {
    var once := AppliedTo(file, choice, pick, isSeries, discover);
    FieldOfFile(ResetFile(file), choice, pick, isSeries, discover, f);
    FieldOfFile(ResetFile(once), choice, pick, isSeries, discover, f);
    assert once.season == file.season;
  }

  lemma FileTwice(file: MediaFile, choice: Choice, pick: Option<Pick>, isSeries: bool, discover: Discover)
    ensures var once := AppliedTo(file, choice, pick, isSeries, discover);
            AppliedTo(once, choice, pick, isSeries, discover) == once
  {
    var once := AppliedTo(file, choice, pick, isSeries, discover);
    forall f
      ensures At(AppliedTo(once, choice, pick, isSeries, discover).fields, f) == At(once.fields, f)
    {
      FieldTwice(file, choice, pick, isSeries, discover, f);
    }
    SameFields(AppliedTo(once, choice, pick, isSeries, discover).fields, once.fields);
    SeriesMarksTwice(file, choice, pick, isSeries, discover);
    OwnMarksTwice(file, choice, pick, isSeries, discover);
    RestTwice(file, choice, pick, isSeries, discover);
  }

  lemma AppliedKeepsGroup(files: seq<MediaFile>, isSeries: bool, sidecar: Sidecar, discover: Discover)
    ensures SameGroup(files, Applied(files, isSeries, sidecar, discover))
    ensures AcceptedId(ResetAll(Applied(files, isSeries, sidecar, discover))) == AcceptedId(ResetAll(files))
  {
    var after := Applied(files, isSeries, sidecar, discover);
    var choice := ChoiceFor(files, isSeries, sidecar);
    forall i | 0 <= i < |files|
      ensures |after| == |files| && SameDocuments(files[i], after[i])
      ensures BoundId(ResetAll(after)[i]) == BoundId(ResetAll(files)[i])
    {
      AppliedAt(files, i, isSeries, sidecar, discover);
      AppliedKeepsDocuments(files[i], choice, PickAt(files, i, choice, isSeries, discover), isSeries, discover);
    }
    SameBindingsSameAcceptedId(ResetAll(after), ResetAll(files));
  }

  /** On unchanged documents, applying local metadata twice is applying it once. */
  lemma ApplyingTwiceIsApplyingOnce(files: seq<MediaFile>, isSeries: bool, sidecar: Sidecar, discover: Discover)
    ensures Applied(Applied(files, isSeries, sidecar, discover), isSeries, sidecar, discover)
         == Applied(files, isSeries, sidecar, discover)
  {
    var once := Applied(files, isSeries, sidecar, discover);
    var twice := Applied(once, isSeries, sidecar, discover);
    var choice := ChoiceFor(files, isSeries, sidecar);
    AppliedKeepsGroup(files, isSeries, sidecar, discover);
    SameChoice(files, once, isSeries, sidecar);
    forall i | 0 <= i < |files|
      ensures |twice| == |once| == |files| && twice[i] == once[i]
    {
      AppliedAt(files, i, isSeries, sidecar, discover);
      AppliedAt(once, i, isSeries, sidecar, discover);
      SamePick(files, once, i, choice, isSeries, discover);
      FileTwice(files[i], choice, PickAt(files, i, choice, isSeries, discover), isSeries, discover);
    }
  }
}
