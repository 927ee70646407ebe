/** Which document speaks for a whole group of files, and which TMDB identity it hints at. */
module ParentSelection {
  import opened LocalNfo
  import opened Ordering
  import opened Sequences
  import opened Sorting
  import opened Text
  import opened TmdbIds
  import opened Wrappers

  datatype Candidate = Candidate(index: nat, nfo: Nfo, fileSpecific: bool)

  /** A document of the group and whether it is named after one file. */
  datatype Offer = Offer(nfo: Nfo, fileSpecific: bool)

  /** `Sidecar(file, document)`: the document's path is the file's with the extension replaced. */
  type Sidecar = (NfoPath, NfoPath) -> bool

  function OfferOf(file: MediaFile, isSeries: bool, sidecar: Sidecar): Option<Offer> {
    var nfo := if isSeries then file.seriesNfo else file.nfo;
    if nfo.None? || nfo.value.kind != (if isSeries then TvShowNfo else MovieNfo) then None
    else Some(Offer(nfo.value, !isSeries && sidecar(file.path, nfo.value.sourcePath)))
  }

  function CandidatesOf(files: seq<MediaFile>, isSeries: bool, sidecar: Sidecar): seq<Candidate> {
    if files == [] then []
    else
      var n := |files| - 1;
      var offer := OfferOf(files[n], isSeries, sidecar);
      CandidatesOf(files[..n], isSeries, sidecar)
      + (if offer.None? then [] else [Candidate(n, offer.value.nfo, offer.value.fileSpecific)])
  }

  predicate CandidateLe(a: Candidate, b: Candidate) {
    if a.fileSpecific != b.fileSpecific then a.fileSpecific
    else if a.nfo.sourcePath != b.nfo.sourcePath then PathLe(a.nfo.sourcePath, b.nfo.sourcePath)
    else a.index <= b.index
  }

  /** Drops an element whose document path is that of the last one kept. */
  function Dedup(s: seq<Candidate>): seq<Candidate> {
    if s == [] then []
    else
      var kept := Dedup(s[..|s| - 1]);
      var last := s[|s| - 1];
      if kept != [] && kept[|kept| - 1].nfo.sourcePath == last.nfo.sourcePath then kept else kept + [last]
  }

  function Ranked(files: seq<MediaFile>, isSeries: bool, sidecar: Sidecar): seq<Candidate> {
    Dedup(SortBy(CandidateLe, CandidatesOf(files, isSeries, sidecar)))
  }

  function FirstThat(s: seq<Candidate>, p: Nfo -> bool): Option<Candidate> {
    if s == [] then None else if p(s[0].nfo) then Some(s[0]) else FirstThat(s[1..], p)
  }

  function IdentityIn(nfo: Nfo): Identity {
    IdentityOf(nfo.uniqueIds)
  }

  function BoundId(file: MediaFile): Option<string> {
    if file.provider.None? || !EqualIgnoringAsciiCase(file.provider.value, TMDB) || file.providerItem.None? then None
    else NormalizeTmdbId(file.providerItem.value)
  }

  /** The first TMDB id the files are bound to. */
  function AcceptedId(files: seq<MediaFile>): Option<string> {
    if files == [] then None else if BoundId(files[0]).Some? then BoundId(files[0]) else AcceptedId(files[1..])
  }

  datatype Choice = Choice(selected: Option<Nfo>, hint: Option<string>, conflict: bool)

  function Preferred(ranked: seq<Candidate>, accepted: Option<string>): Option<Candidate> {
    if accepted.Some? then
      Or(FirstThat(ranked, nfo => IdentityIn(nfo) ==
          Id(accepted.value)), FirstThat(ranked, nfo => IdentityIn(nfo).NoId?))
    else FirstThat(ranked, nfo => !IdentityIn(nfo).Conflicting?)
  }

  predicate IdentitiesClash(ranked: seq<Candidate>, accepted: Option<string>) {
    || (exists c | c in ranked :: IdentityIn(c.nfo).Conflicting?)
    || (accepted.None? && exists c, d | c in ranked && d in ranked ::
          IdentityIn(c.nfo).Id? && IdentityIn(d.nfo).Id? && IdentityIn(c.nfo) != IdentityIn(d.nfo))
  }

  function ChooseFor(ranked: seq<Candidate>, accepted: Option<string>): Choice {
    var selected := Preferred(ranked, accepted);
    var conflict := IdentitiesClash(ranked, accepted);
    Choice(
      if selected.Some? then Some(selected.value.nfo) else None,
      if !conflict && selected.Some? && IdentityIn(selected.value.nfo).Id? then Some(IdentityIn(selected.value.nfo).id)
      else None,
      conflict)
  }

  function ChooseParent(files: seq<MediaFile>, isSeries: bool, sidecar: Sidecar): Choice {
    ChooseFor(Ranked(files, isSeries, sidecar), AcceptedId(files))
  }

  // ---- which documents and bindings count ----

  /** A file offers its series document to a series and its own to a movie, when the document is of that kind. */
  lemma OfferIs(file: MediaFile, isSeries: bool, sidecar: Sidecar, offer: Offer)
    ensures OfferOf(file, isSeries, sidecar) == Some(offer) <==>
            if isSeries then
              file.seriesNfo == Some(offer.nfo) && offer.nfo.kind == TvShowNfo && !offer.fileSpecific
            else
              file.nfo == Some(offer.nfo) && offer.nfo.kind == MovieNfo
              && offer.fileSpecific == sidecar(file.path, offer.nfo.sourcePath)
  {
  }

  /** A file is bound by a TMDB item that spells a number, whatever the case of the provider's name. */
  lemma BoundBy(file: MediaFile, id: string)
    ensures BoundId(file) == Some(id) <==>
            && file.provider.Some? && file.providerItem.Some?
            && |file.provider.value| == 4
            && (forall i | 0 <= i < 4 :: LowerAscii(file.provider.value[i]) == "tmdb"[i])
            && NormalizeTmdbId(file.providerItem.value) == Some(id)
  {
    assert forall i | 0 <= i < 4 :: LowerAscii("tmdb"[i]) == "tmdb"[i];
  }

  /** The binding of a group is that of its first bound file. */
  lemma {:induction false} FirstBindingCounts(files: seq<MediaFile>, k: nat)
    requires k < |files| && BoundId(files[k]).Some?
    requires forall j | 0 <= j < k :: BoundId(files[j]).None?
    ensures AcceptedId(files) == BoundId(files[k])
  {
    if k > 0 {
      FirstBindingCounts(files[1..], k - 1);
    }
  }

  // ---- what ranking keeps ----

  ghost predicate Offered(files: seq<MediaFile>, isSeries: bool, sidecar: Sidecar, offer: Offer) {
    exists file | file in files :: OfferOf(file, isSeries, sidecar) == Some(offer)
  }

  /** Equal paths mean one document, as reading a file system once gives. */
  ghost predicate PathsDetermineDocuments(files: seq<MediaFile>, isSeries: bool, sidecar: Sidecar) {
    forall a, b | Offered(files, isSeries, sidecar, a) && Offered(files, isSeries, sidecar, b) ::
      a.nfo.sourcePath == b.nfo.sourcePath ==> a.nfo == b.nfo
  }

  ghost predicate Carried(candidates: seq<Candidate>, offer: Offer) {
    exists c | c in candidates :: Offer(c.nfo, c.fileSpecific) == offer
  }

  lemma OfferedByOneMore(files: seq<MediaFile>, last: MediaFile, isSeries: bool, sidecar: Sidecar, offer: Offer)
    ensures Offered(files + [last], isSeries, sidecar, offer) <==>
            Offered(files, isSeries, sidecar, offer) || OfferOf(last, isSeries, sidecar) == Some(offer)
  {
    if OfferOf(last, isSeries, sidecar) == Some(offer) {
      assert last in files + [last];
    }
    if Offered(files, isSeries, sidecar, offer) {
      var file :| file in files && OfferOf(file, isSeries, sidecar) == Some(offer);
      assert file in files + [last];
    }
  }

  lemma CarriedByOneMore(candidates: seq<Candidate>, last: Candidate, offer: Offer)
    ensures Carried(candidates + [last], offer) <==>
            Carried(candidates, offer) || Offer(last.nfo, last.fileSpecific) == offer
  {
    if Offer(last.nfo, last.fileSpecific) == offer {
      assert last in candidates + [last];
    }
    if Carried(candidates, offer) {
      var c :| c in candidates && Offer(c.nfo, c.fileSpecific) == offer;
      assert c in candidates + [last];
    }
  }

  lemma {:induction false} CandidatesAreOffers(files: seq<MediaFile>, isSeries: bool, sidecar: Sidecar, offer: Offer)
    ensures Offered(files, isSeries, sidecar, offer) <==> Carried(CandidatesOf(files, isSeries, sidecar), offer)
  {
    if files != [] {
      var n := |files| - 1;
      var init, last := files[..n], files[n];
      CandidatesAreOffers(init, isSeries, sidecar, offer);
      OfferedByOneMore(init, last, isSeries, sidecar, offer);
      assert files == init + [last];
      var added := OfferOf(last, isSeries, sidecar);
      if added.Some? {
        var candidate := Candidate(n, added.value.nfo, added.value.fileSpecific);
        CarriedByOneMore(CandidatesOf(init, isSeries, sidecar), candidate, offer);
      }
    }
  }

  lemma CandidateOrder()
    ensures TotalPreorder(CandidateLe)
  {
    forall a, b
      ensures CandidateLe(a, b) || CandidateLe(b, a)
    {
      PathLeTotal(a.nfo.sourcePath, b.nfo.sourcePath);
    }
    forall a, b, c | CandidateLe(a, b) && CandidateLe(b, c)
      ensures CandidateLe(a, c)
    {
      if a.nfo.sourcePath != b.nfo.sourcePath && b.nfo.sourcePath != c.nfo.sourcePath
         && a.fileSpecific == b.fileSpecific == c.fileSpecific
      {
        PathLeTransitive(a.nfo.sourcePath, b.nfo.sourcePath, c.nfo.sourcePath);
        if a.nfo.sourcePath == c.nfo.sourcePath {
          PathLeAntisymmetric(a.nfo.sourcePath, b.nfo.sourcePath);
        }
      }
    }
  }

  lemma {:induction false} DedupKeepsOrder(s: seq<Candidate>)
    requires Sorted(CandidateLe, s)
    ensures Sorted(CandidateLe, Dedup(s))
    ensures forall c | c in Dedup(s) :: c in s
  {
    if s != [] {
      var init, last := s[..|s| - 1], s[|s| - 1];
      DedupKeepsOrder(init);
      forall i | 0 <= i < |Dedup(init)|
        ensures CandidateLe(Dedup(init)[i], last)
      {
        assert Dedup(init)[i] in init;
      }
    }
  }

  /** What is dropped leaves an equal path that is at least as preferred. */
  lemma {:induction false} DedupCovers(s: seq<Candidate>, c: Candidate)
    requires Sorted(CandidateLe, s) && c in s
    ensures exists d | d in Dedup(s) :: d.nfo.sourcePath == c.nfo.sourcePath && CandidateLe(d, c)
  {
    var init, last := s[..|s| - 1], s[|s| - 1];
    var kept := Dedup(init);
    DedupKeepsOrder(init);
    if c in init {
      DedupCovers(init, c);
      var d :| d in kept && d.nfo.sourcePath == c.nfo.sourcePath && CandidateLe(d, c);
      assert d in Dedup(s);
    } else if kept != [] && kept[|kept| - 1].nfo.sourcePath == last.nfo.sourcePath {
      var d := kept[|kept| - 1];
      assert d in init;
      assert CandidateLe(d, last);
      assert d in Dedup(s);
    } else {
      assert last in Dedup(s);
    }
  }

  lemma RankedIsOffered(files: seq<MediaFile>, isSeries: bool, sidecar: Sidecar, c: Candidate)
    requires c in Ranked(files, isSeries, sidecar)
    ensures Offered(files, isSeries, sidecar, Offer(c.nfo, c.fileSpecific))
  {
    var candidates := CandidatesOf(files, isSeries, sidecar);
    CandidateOrder();
    SortBySorts(CandidateLe, candidates);
    SortByKeeps(CandidateLe, candidates);
    DedupKeepsOrder(SortBy(CandidateLe, candidates));
    CandidatesAreOffers(files, isSeries, sidecar, Offer(c.nfo, c.fileSpecific));
  }

  /** Preference among documents: those named after a file first, then by path. */
  predicate OfferLe(a: Offer, b: Offer) {
    if a.fileSpecific != b.fileSpecific then a.fileSpecific
    else PathLe(a.nfo.sourcePath, b.nfo.sourcePath)
  }

  lemma PathLeReflexive(a: seq<string>)
    ensures PathLe(a, a)
  {
    PathLeTotal(a, a);
  }

  lemma OfferedIsRanked(files: seq<MediaFile>, isSeries: bool, sidecar: Sidecar, offer: Offer) returns (d: Candidate)
    requires PathsDetermineDocuments(files, isSeries, sidecar)
    requires Offered(files, isSeries, sidecar, offer)
    ensures d in Ranked(files, isSeries, sidecar) && d.nfo == offer.nfo
    ensures OfferLe(Offer(d.nfo, d.fileSpecific), offer)
  {
    var candidates := CandidatesOf(files, isSeries, sidecar);
    CandidatesAreOffers(files, isSeries, sidecar, offer);
    var c :| c in candidates && Offer(c.nfo, c.fileSpecific) == offer;
    CandidateOrder();
    SortBySorts(CandidateLe, candidates);
    SortByKeeps(CandidateLe, candidates);
    DedupCovers(SortBy(CandidateLe, candidates), c);
    d :| d in Ranked(files, isSeries, sidecar) && d.nfo.sourcePath == c.nfo.sourcePath && CandidateLe(d, c);
    RankedIsOffered(files, isSeries, sidecar, d);
    PathLeReflexive(c.nfo.sourcePath);
  }

  // ---- the document that is found ----

  lemma {:induction false} FirstThatIsLeast(s: seq<Candidate>, p: Nfo -> bool)
    requires Sorted(CandidateLe, s)
    ensures var r := FirstThat(s, p);
            && (r.Some? ==> r.value in s && p(r.value.nfo))
            && (forall c | c in s && p(c.nfo) :: r.Some? && (r.value == c || CandidateLe(r.value, c)))
  {
    if s != [] && !p(s[0].nfo) {
      FirstThatIsLeast(s[1..], p);
    }
  }

  /** The best of the documents that `p` allows. */
  ghost predicate IsBest(files: seq<MediaFile>, isSeries: bool, sidecar: Sidecar, p: Nfo -> bool, offer: Offer) {
    && Offered(files, isSeries, sidecar, offer) && p(offer.nfo)
    && forall other | Offered(files, isSeries, sidecar, other) && p(other.nfo) :: OfferLe(offer, other)
  }

  lemma FoundIsBest(files: seq<MediaFile>, isSeries: bool, sidecar: Sidecar, p: Nfo -> bool)
    requires PathsDetermineDocuments(files, isSeries, sidecar)
    ensures var r := FirstThat(Ranked(files, isSeries, sidecar), p);
            && (r.Some? ==> IsBest(files, isSeries, sidecar, p, Offer(r.value.nfo, r.value.fileSpecific)))
            && (r.None? ==> forall other | Offered(files, isSeries, sidecar, other) :: !p(other.nfo))
  {
    var candidates := CandidatesOf(files, isSeries, sidecar);
    var ranked := Ranked(files, isSeries, sidecar);
    CandidateOrder();
    SortBySorts(CandidateLe, candidates);
    DedupKeepsOrder(SortBy(CandidateLe, candidates));
    FirstThatIsLeast(ranked, p);
    var r := FirstThat(ranked, p);
    forall other | Offered(files, isSeries, sidecar, other) && p(other.nfo)
      ensures r.Some? && OfferLe(Offer(r.value.nfo, r.value.fileSpecific), other)
    {
      var d := OfferedIsRanked(files, isSeries, sidecar, other);
      BetterThanRanked(r.value, d, other);
    }
    if r.Some? {
      RankedIsOffered(files, isSeries, sidecar, r.value);
    }
  }

  lemma BetterThanRanked(r: Candidate, d: Candidate, other: Offer)
    requires r == d || CandidateLe(r, d)
    requires OfferLe(Offer(d.nfo, d.fileSpecific), other)
    ensures OfferLe(Offer(r.nfo, r.fileSpecific), other)
  {
    if r.nfo.sourcePath != d.nfo.sourcePath && r.fileSpecific == d.fileSpecific == other.fileSpecific {
      PathLeTransitive(r.nfo.sourcePath, d.nfo.sourcePath, other.nfo.sourcePath);
    }
  }

  lemma SameOffers(files: seq<MediaFile>, others: seq<MediaFile>, isSeries: bool, sidecar: Sidecar, offer: Offer)
    requires multiset(files) == multiset(others)
    ensures Offered(files, isSeries, sidecar, offer) <==> Offered(others, isSeries, sidecar, offer)
  {
    SameElements(files, others);
  }

  lemma BestIsUnique(files: seq<MediaFile>, isSeries: bool, sidecar: Sidecar, p: Nfo -> bool, a: Offer, b: Offer)
    requires PathsDetermineDocuments(files, isSeries, sidecar)
    requires IsBest(files, isSeries, sidecar, p, a) && IsBest(files, isSeries, sidecar, p, b)
    ensures a == b
  {
    assert OfferLe(a, b) && OfferLe(b, a);
    PathLeAntisymmetric(a.nfo.sourcePath, b.nfo.sourcePath);
  }

  function NfoOf(c: Option<Candidate>): Option<Nfo> {
    if c.Some? then Some(c.value.nfo) else None
  }

  lemma FoundIsOrderIndependent(files: seq<MediaFile>, others: seq<MediaFile>, isSeries: bool, sidecar: Sidecar,
                                p: Nfo -> bool)
    requires multiset(files) == multiset(others)
    requires PathsDetermineDocuments(files, isSeries, sidecar)
    ensures NfoOf(FirstThat(Ranked(files, isSeries, sidecar), p)) ==
        NfoOf(FirstThat(Ranked(others, isSeries, sidecar), p))
  {
    forall offer
      ensures Offered(files, isSeries, sidecar, offer) <==> Offered(others, isSeries, sidecar, offer)
    {
      SameOffers(files, others, isSeries, sidecar, offer);
    }
    FoundIsBest(files, isSeries, sidecar, p);
    FoundIsBest(others, isSeries, sidecar, p);
    var a, b := FirstThat(Ranked(files, isSeries, sidecar), p), FirstThat(Ranked(others, isSeries, sidecar), p);
    if a.Some? && b.Some? {
      BestIsUnique(files, isSeries, sidecar, p,
                   Offer(a.value.nfo, a.value.fileSpecific), Offer(b.value.nfo, b.value.fileSpecific));
    }
  }

  // ---- the choice ----

  /** Some document of the group satisfies `p`. */
  ghost predicate SomeDocument(files: seq<MediaFile>, isSeries: bool, sidecar: Sidecar, p: Nfo -> bool) {
    exists offer :: Offered(files, isSeries, sidecar, offer) && p(offer.nfo)
  }

  /** The identities clash exactly when a document contradicts itself, or two disagree and no binding settles it. */
  ghost predicate DocumentsClash(files: seq<MediaFile>, isSeries: bool, sidecar: Sidecar, accepted: Option<string>) {
    || (exists a :: Offered(files, isSeries, sidecar, a) && IdentityIn(a.nfo).Conflicting?)
    || (accepted.None? && exists a, b ::
          && Offered(files, isSeries, sidecar, a) && Offered(files, isSeries, sidecar, b)
          && IdentityIn(a.nfo).Id? && IdentityIn(b.nfo).Id? && IdentityIn(a.nfo) != IdentityIn(b.nfo))
  }

  lemma RankedClashIsOfDocuments(files: seq<MediaFile>, isSeries: bool, sidecar: Sidecar, accepted: Option<string>)
    requires IdentitiesClash(Ranked(files, isSeries, sidecar), accepted)
    ensures DocumentsClash(files, isSeries, sidecar, accepted)
  {
    var ranked := Ranked(files, isSeries, sidecar);
    if c :| c in ranked && IdentityIn(c.nfo).Conflicting? {
      RankedIsOffered(files, isSeries, sidecar, c);
    } else {
      var c, d :| c in ranked && d in ranked
                  && IdentityIn(c.nfo).Id? && IdentityIn(d.nfo).Id? && IdentityIn(c.nfo) != IdentityIn(d.nfo);
      RankedIsOffered(files, isSeries, sidecar, c);
      RankedIsOffered(files, isSeries, sidecar, d);
    }
  }

  lemma ClashOfDocumentsIsRanked(files: seq<MediaFile>, isSeries: bool, sidecar: Sidecar, accepted: Option<string>)
    requires PathsDetermineDocuments(files, isSeries, sidecar)
    requires DocumentsClash(files, isSeries, sidecar, accepted)
    ensures IdentitiesClash(Ranked(files, isSeries, sidecar), accepted)
  {
    if a :| Offered(files, isSeries, sidecar, a) && IdentityIn(a.nfo).Conflicting? {
      var c := OfferedIsRanked(files, isSeries, sidecar, a);
    } else {
      var a, b :| Offered(files, isSeries, sidecar, a) && Offered(files, isSeries, sidecar, b)
                  && IdentityIn(a.nfo).Id? && IdentityIn(b.nfo).Id? && IdentityIn(a.nfo) != IdentityIn(b.nfo);
      var c := OfferedIsRanked(files, isSeries, sidecar, a);
      var d := OfferedIsRanked(files, isSeries, sidecar, b);
    }
  }

  lemma ClashIsAmongDocuments(files: seq<MediaFile>, isSeries: bool, sidecar: Sidecar, accepted: Option<string>)
    requires PathsDetermineDocuments(files, isSeries, sidecar)
    ensures IdentitiesClash(Ranked(files, isSeries, sidecar), accepted) <==>
            DocumentsClash(files, isSeries, sidecar, accepted)
  {
    if IdentitiesClash(Ranked(files, isSeries, sidecar), accepted) {
      RankedClashIsOfDocuments(files, isSeries, sidecar, accepted);
    }
    if DocumentsClash(files, isSeries, sidecar, accepted) {
      ClashOfDocumentsIsRanked(files, isSeries, sidecar, accepted);
    }
  }

  lemma ClashIsOrderIndependent(files: seq<MediaFile>, others: seq<MediaFile>, isSeries: bool, sidecar: Sidecar,
                                accepted: Option<string>)
    requires multiset(files) == multiset(others)
    requires PathsDetermineDocuments(files, isSeries, sidecar)
    ensures PathsDetermineDocuments(others, isSeries, sidecar)
    ensures IdentitiesClash(Ranked(files, isSeries, sidecar), accepted)
        <==> IdentitiesClash(Ranked(others, isSeries, sidecar), accepted)
  {
    forall offer
      ensures Offered(files, isSeries, sidecar, offer) <==> Offered(others, isSeries, sidecar, offer)
    {
      SameOffers(files, others, isSeries, sidecar, offer);
    }
    ClashIsAmongDocuments(files, isSeries, sidecar, accepted);
    ClashIsAmongDocuments(others, isSeries, sidecar, accepted);
  }

  /** Once the binding is fixed, the order of the files decides nothing. */
  lemma ChoiceIsOrderIndependent(files: seq<MediaFile>, others: seq<MediaFile>, isSeries: bool, sidecar: Sidecar)
    requires multiset(files) == multiset(others) && AcceptedId(files) == AcceptedId(others)
    requires PathsDetermineDocuments(files, isSeries, sidecar)
    ensures ChooseParent(files, isSeries, sidecar) == ChooseParent(others, isSeries, sidecar)
  {
    var accepted := AcceptedId(files);
    ClashIsOrderIndependent(files, others, isSeries, sidecar, accepted);
    if accepted.Some? {
      FoundIsOrderIndependent(files, others, isSeries, sidecar, nfo => IdentityIn(nfo) == Id(accepted.value));
      FoundIsOrderIndependent(files, others, isSeries, sidecar, nfo => IdentityIn(nfo).NoId?);
    } else {
      FoundIsOrderIndependent(files, others, isSeries, sidecar, nfo => !IdentityIn(nfo).Conflicting?);
    }
  }

  // ---- the binding ----

  ghost predicate BindingsAgree(files: seq<MediaFile>) {
    forall a, b | a in files && b in files && BoundId(a).Some? && BoundId(b).Some? :: BoundId(a) == BoundId(b)
  }

  lemma {:induction false} AcceptedIsBound(files: seq<MediaFile>)
    ensures AcceptedId(files).Some? ==> exists a | a in files :: BoundId(a) == AcceptedId(files)
    ensures forall a | a in files && BoundId(a).Some? :: AcceptedId(files).Some?
  {
    if files != [] && BoundId(files[0]).None? {
      AcceptedIsBound(files[1..]);
      assert files == [files[0]] + files[1..];
    }
  }

  lemma AgreedBindingIsOrderIndependent(files: seq<MediaFile>, others: seq<MediaFile>)
    requires multiset(files) == multiset(others) && BindingsAgree(files)
    ensures AcceptedId(files) == AcceptedId(others)
  {
    SameElements(files, others);
    AcceptedIsBound(files);
    AcceptedIsBound(others);
  }

  /** The file at `i`, moved to the front, decides the binding. */
  lemma FrontDecides(files: seq<MediaFile>, i: nat) returns (others: seq<MediaFile>)
    requires i < |files| && BoundId(files[i]).Some?
    ensures multiset(others) == multiset(files) && AcceptedId(others) == BoundId(files[i])
  {
    others := [files[i]] + (files[..i] + files[i + 1..]);
    assert files == files[..i] + [files[i]] + files[i + 1..];
  }

  /** The binding is the same for every order of the files exactly when all bound files agree. */
  lemma BindingIsOrderIndependentIffAgreed(files: seq<MediaFile>)
    ensures BindingsAgree(files) <==>
            forall others | multiset(others) == multiset(files) :: AcceptedId(others) == AcceptedId(files)
  {
    if BindingsAgree(files) {
      forall others | multiset(others) == multiset(files)
        ensures AcceptedId(others) == AcceptedId(files)
      {
        AgreedBindingIsOrderIndependent(files, others);
      }
    } else {
      var a, b :| a in files && b in files && BoundId(a).Some? && BoundId(b).Some? && BoundId(a) != BoundId(b);
      var i :| 0 <= i < |files| && files[i] == a;
      var j :| 0 <= j < |files| && files[j] == b;
      var first := FrontDecides(files, i);
      var second := FrontDecides(files, j);
      assert AcceptedId(first) != AcceptedId(second);
    }
  }

  /** For files whose bindings agree, every order gives the same document, hint and conflict. */
  lemma ParentSelectionIsOrderIndependent(files: seq<MediaFile>, others: seq<MediaFile>, isSeries: bool,
                                          sidecar: Sidecar)
    requires multiset(files) == multiset(others)
    requires PathsDetermineDocuments(files, isSeries, sidecar) && BindingsAgree(files)
    ensures ChooseParent(files, isSeries, sidecar) == ChooseParent(others, isSeries, sidecar)
  {
    AgreedBindingIsOrderIndependent(files, others);
    ChoiceIsOrderIndependent(files, others, isSeries, sidecar);
  }

  // ---- what the choice means ----

  /** The document that speaks for the group: the bound identity first, then none, never a contradictory one. */
  lemma SelectedDocument(files: seq<MediaFile>, isSeries: bool, sidecar: Sidecar)
    requires PathsDetermineDocuments(files, isSeries, sidecar)
    ensures var accepted, selected := AcceptedId(files), ChooseParent(files, isSeries, sidecar).selected;
            && (selected.Some? ==> exists offer: Offer ::
                  && offer.nfo == selected.value
                  && (if accepted.None? then
                        IsBest(files, isSeries, sidecar, nfo => !IdentityIn(nfo).Conflicting?, offer)
                      else if SomeDocument(files, isSeries, sidecar, nfo => IdentityIn(nfo) == Id(accepted.value)) then
                        IsBest(files, isSeries, sidecar, nfo => IdentityIn(nfo) == Id(accepted.value), offer)
                      else IsBest(files, isSeries, sidecar, nfo => IdentityIn(nfo).NoId?, offer)))
            && (selected.None? ==> forall offer | Offered(files, isSeries, sidecar, offer) ::
                  IdentityIn(offer.nfo).Conflicting? || (accepted.Some? && IdentityIn(offer.nfo).Id?
                                                         && IdentityIn(offer.nfo).id != accepted.value))
  {
    var accepted := AcceptedId(files);
    var ranked := Ranked(files, isSeries, sidecar);
    if accepted.Some? {
      FoundIsBest(files, isSeries, sidecar, nfo => IdentityIn(nfo) == Id(accepted.value));
      FoundIsBest(files, isSeries, sidecar, nfo => IdentityIn(nfo).NoId?);
    } else {
      FoundIsBest(files, isSeries, sidecar, nfo => !IdentityIn(nfo).Conflicting?);
    }
    var r := Preferred(ranked, accepted);
    if r.Some? {
      var offer := Offer(r.value.nfo, r.value.fileSpecific);
      assert Offered(files, isSeries, sidecar, offer);
    }
  }

  // ---- choosing again ----

  lemma {:induction false} SameOffersSameCandidates(files: seq<MediaFile>, after: seq<MediaFile>, isSeries: bool,
                                                    sidecar: Sidecar)
    requires |files| == |after|
    requires forall i | 0 <= i < |files| :: OfferOf(files[i], isSeries, sidecar) == OfferOf(after[i], isSeries, sidecar)
    ensures CandidatesOf(files, isSeries, sidecar) == CandidatesOf(after, isSeries, sidecar)
  {
    if files != [] {
      SameOffersSameCandidates(files[..|files| - 1], after[..|files| - 1], isSeries, sidecar);
    }
  }

  lemma {:induction false} StricterFindsTheSame(s: seq<Candidate>, loose: Nfo -> bool, strict: Nfo -> bool)
    requires forall nfo | strict(nfo) :: loose(nfo)
    requires FirstThat(s, loose).Some? && strict(FirstThat(s, loose).value.nfo)
    ensures FirstThat(s, strict) == FirstThat(s, loose)
  {
    if !loose(s[0].nfo) {
      StricterFindsTheSame(s[1..], loose, strict);
    }
  }

  /** Once the files are bound to the identity that was hinted at, the same document keeps speaking for them. */
  lemma HintedBindingKeepsTheDocument(files: seq<MediaFile>, after: seq<MediaFile>, isSeries: bool, sidecar: Sidecar)
    requires |files| == |after|
    requires forall i | 0 <= i < |files| :: OfferOf(files[i], isSeries, sidecar) == OfferOf(after[i], isSeries, sidecar)
    requires ChooseParent(files, isSeries, sidecar).hint.Some?
    requires AcceptedId(after) == ChooseParent(files, isSeries, sidecar).hint
    ensures ChooseParent(after, isSeries, sidecar) == ChooseParent(files, isSeries, sidecar)
  {
    SameOffersSameCandidates(files, after, isSeries, sidecar);
    var ranked := Ranked(files, isSeries, sidecar);
    var id := AcceptedId(after).value;
    if AcceptedId(files).None? {
      StricterFindsTheSame(ranked, nfo => !IdentityIn(nfo).Conflicting?, nfo => IdentityIn(nfo) == Id(id));
    } else {
      FirstThatSatisfies(ranked, nfo => IdentityIn(nfo).NoId?);
      FirstThatSatisfies(ranked, nfo => IdentityIn(nfo) == Id(AcceptedId(files).value));
    }
  }

  lemma {:induction false} FirstThatSatisfies(s: seq<Candidate>, p: Nfo -> bool)
    ensures FirstThat(s, p).Some? ==> p(FirstThat(s, p).value.nfo)
  {
    if s != [] && !p(s[0].nfo) {
      FirstThatSatisfies(s[1..], p);
    }
  }
}
