/** One document per episode, and the flag for documents that disagree about the episode's identity. */
module EpisodeSelection {
  import opened LocalNfo
  import opened Ordering
  import opened Sequences
  import opened TmdbIds
  import opened Wrappers

  type EpisodeKey = (int, int)

  function KeyOf(file: MediaFile): Option<EpisodeKey> {
    if file.season.Some? && file.episode.Some? then Some((file.season.value, file.episode.value)) else None
  }

  /** A document with the TMDB identity it declares. */
  datatype Document = Document(nfo: Nfo, identity: Identity)

  /** The file's episode document, when it fits the file's numbers and does not contradict itself. */
  function EpisodeDocument(file: MediaFile): Option<Document> {
    if KeyOf(file).None? || file.nfo.None? || !file.nfo.value.kind.EpisodeNfo? then None
    else
      var nfo := file.nfo.value;
      if (nfo.season.Some? && nfo.season != file.season) || (nfo.episode.Some? && nfo.episode != file.episode) then None
      else if IdentityOf(nfo.uniqueIds).Conflicting? then None
      else Some(Document(nfo, IdentityOf(nfo.uniqueIds)))
  }

  /** What a file adds to the documents of an episode. */
  function Contribution(file: MediaFile, key: EpisodeKey): seq<Document> {
    if KeyOf(file) == Some(key) && EpisodeDocument(file).Some? then [EpisodeDocument(file).value] else []
  }

  function ContributionTo(key: EpisodeKey): MediaFile -> seq<Document> {
    (file: MediaFile) => Contribution(file, key)
  }

  /** The documents of one episode, in file order. */
  function DocumentsFor(files: seq<MediaFile>, key: EpisodeKey): seq<Document> {
    Gather(files, ContributionTo(key))
  }

  datatype Pick = Pick(selected: Document, conflict: bool)

  predicate Differ(a: Document, b: Document) {
    a.identity.Id? && b.identity.Id? && a.identity != b.identity
  }

  /** Each document is compared with the one selected so far. */
  function Offer(pick: Option<Pick>, d: Document): Pick {
    if pick.None? then Pick(d, false)
    else Pick(if PathLt(d.nfo.sourcePath, pick.value.selected.nfo.sourcePath) then d else pick.value.selected,
              pick.value.conflict || Differ(pick.value.selected, d))
  }

  function PickFrom(docs: seq<Document>): Option<Pick> {
    if docs == [] then None else Some(Offer(PickFrom(docs[..|docs| - 1]), docs[|docs| - 1]))
  }

  function Picked(selections: map<EpisodeKey, Pick>, key: EpisodeKey): Option<Pick> {
    if key in selections then Some(selections[key]) else None
  }

  lemma NextPick(docs: seq<Document>, d: Document)
    ensures PickFrom(docs + [d]) == Some(Offer(PickFrom(docs), d))
  {
    assert (docs + [d])[..|docs|] == docs;
  }

  lemma NextFile(files: seq<MediaFile>, file: MediaFile, key: EpisodeKey)
    ensures PickFrom(DocumentsFor(files + [file], key))
         == if Contribution(file, key) == [] then PickFrom(DocumentsFor(files, key))
            else Some(Offer(PickFrom(DocumentsFor(files, key)), Contribution(file, key)[0]))
  {
    var docs, more := DocumentsFor(files, key), Contribution(file, key);
    GatherNext(files, ContributionTo(key), file);
    if more == [] {
      assert docs + more == docs;
    } else {
      assert more == [more[0]];
      NextPick(docs, more[0]);
    }
  }

  method SelectEpisodes(files: seq<MediaFile>) returns (selections: map<EpisodeKey, Pick>)
    ensures forall key :: Picked(selections, key) == PickFrom(DocumentsFor(files, key))
  {
    selections := map[];
    for i := 0 to |files|
      invariant forall key :: Picked(selections, key) == PickFrom(DocumentsFor(files[..i], key))
    {
      assert files[..i + 1] == files[..i] + [files[i]];
      forall key {
        NextFile(files[..i], files[i], key);
      }
      var document := EpisodeDocument(files[i]);
      if document.Some? {
        var key := KeyOf(files[i]).value;
        selections := selections[key := Offer(Picked(selections, key), document.value)];
      }
    }
    assert files[..|files|] == files;
  }

  // ---- which documents count ----

  /** A document counts for a file when it is an episode's, names no other number, and declares no two identities. */
  ghost predicate Counts(file: MediaFile, key: EpisodeKey, d: Document) {
    && file.season == Some(key.0) && file.episode == Some(key.1)
    && file.nfo == Some(d.nfo) && d.nfo.kind == EpisodeNfo
    && (d.nfo.season.Some? ==> d.nfo.season == Some(key.0))
    && (d.nfo.episode.Some? ==> d.nfo.episode == Some(key.1))
    && d.identity == IdentityOf(d.nfo.uniqueIds) && d.identity != Conflicting
  }

  lemma ContributionIs(file: MediaFile, key: EpisodeKey, d: Document)
    ensures d in Contribution(file, key) <==> Counts(file, key, d)
    ensures |Contribution(file, key)| <= 1
  {
  }

  ghost predicate CountsForOne(files: seq<MediaFile>, key: EpisodeKey, d: Document) {
    exists file | file in files :: Counts(file, key, d)
  }

  lemma CountsForOneMore(files: seq<MediaFile>, last: MediaFile, key: EpisodeKey, d: Document)
    ensures CountsForOne(files + [last], key, d) <==> CountsForOne(files, key, d) || Counts(last, key, d)
  {
    if CountsForOne(files, key, d) {
      var file :| file in files && Counts(file, key, d);
      assert file in files + [last];
    }
    if Counts(last, key, d) {
      assert last in files + [last];
    }
  }

  lemma DocumentOfOneMore(files: seq<MediaFile>, last: MediaFile, key: EpisodeKey, d: Document)
    ensures d in DocumentsFor(files + [last], key) <==> d in DocumentsFor(files, key) || d in Contribution(last, key)
  {
    GatherNext(files, ContributionTo(key), last);
    assert DocumentsFor(files + [last], key) == DocumentsFor(files, key) + Contribution(last, key);
  }

  /** The documents of an episode are those that count for one of its files. */
  lemma {:induction false} DocumentsAre(files: seq<MediaFile>, key: EpisodeKey, d: Document)
    ensures d in DocumentsFor(files, key) <==> CountsForOne(files, key, d)
  {
    if files != [] {
      var init, last := files[..|files| - 1], files[|files| - 1];
      DocumentsAre(init, key, d);
      DocumentOfOneMore(init, last, key, d);
      ContributionIs(last, key, d);
      CountsForOneMore(init, last, key, d);
      assert files == init + [last];
    }
  }

  /** Without any document an episode is left alone; with one, it is not. */
  lemma PickedExactlyWhenDocumented(files: seq<MediaFile>, key: EpisodeKey)
    ensures PickFrom(DocumentsFor(files, key)).Some? <==> exists d :: CountsForOne(files, key, d)
  {
    var docs := DocumentsFor(files, key);
    if docs != [] {
      DocumentsAre(files, key, docs[0]);
    }
    if d :| CountsForOne(files, key, d) {
      DocumentsAre(files, key, d);
    }
  }

  // ---- the selected document ----

  ghost predicate PathsDetermine(docs: seq<Document>) {
    forall a, b | a in docs && b in docs && a.nfo.sourcePath == b.nfo.sourcePath :: a == b
  }

  lemma OfferIsSmaller(pick: Pick, d: Document)
    ensures var s := Offer(Some(pick), d).selected;
            && (s == d || s == pick.selected)
            && PathLe(s.nfo.sourcePath, d.nfo.sourcePath)
            && PathLe(s.nfo.sourcePath, pick.selected.nfo.sourcePath)
  {
    PathLeTotal(d.nfo.sourcePath, pick.selected.nfo.sourcePath);
    PathLeTotal(d.nfo.sourcePath, d.nfo.sourcePath);
    PathLeTotal(pick.selected.nfo.sourcePath, pick.selected.nfo.sourcePath);
  }

  lemma {:induction false} PickIsSmallest(docs: seq<Document>)
    requires docs != []
    ensures PickFrom(docs).value.selected in docs
    ensures forall d | d in docs :: PathLe(PickFrom(docs).value.selected.nfo.sourcePath, d.nfo.sourcePath)
  {
    var init, last := docs[..|docs| - 1], docs[|docs| - 1];
    assert docs == init + [last];
    var smallest := PickFrom(docs).value.selected.nfo.sourcePath;
    if init == [] {
      PathLeTotal(smallest, smallest);
    } else {
      PickIsSmallest(init);
      var kept := PickFrom(init).value;
      OfferIsSmaller(kept, last);
      forall d | d in init
        ensures PathLe(smallest, d.nfo.sourcePath)
      {
        PathLeTransitive(smallest, kept.selected.nfo.sourcePath, d.nfo.sourcePath);
      }
    }
  }

  /** Every order of an episode's documents selects the same one. */
  lemma SelectedDocumentIsOrderIndependent(docs: seq<Document>, others: seq<Document>)
    requires multiset(docs) == multiset(others) && docs != [] && PathsDetermine(docs)
    ensures others != [] && PickFrom(docs).value.selected == PickFrom(others).value.selected
  {
    SameElements(docs, others);
    PickIsSmallest(docs);
    PickIsSmallest(others);
    PathLeAntisymmetric(PickFrom(docs).value.selected.nfo.sourcePath, PickFrom(others).value.selected.nfo.sourcePath);
  }

  // ---- the conflict flag ----

  predicate Flagged(docs: seq<Document>) {
    docs != [] && PickFrom(docs).value.conflict
  }

  /** Both declare an identity, and not the same one. */
  ghost predicate Disagree(a: Document, b: Document) {
    a.identity.Id? && b.identity.Id? && a.identity.id != b.identity.id
  }

  lemma DifferIsDisagree(a: Document, b: Document)
    ensures Differ(a, b) <==> Disagree(a, b)
  {
  }

  ghost predicate Clash(docs: seq<Document>) {
    exists a, b | a in docs && b in docs :: Disagree(a, b)
  }

  /** Before every document without an identity. */
  ghost predicate IsForemost(docs: seq<Document>, d: Document) {
    d in docs && forall n | n in docs && n.identity.NoId? :: PathLt(d.nfo.sourcePath, n.nfo.sourcePath)
  }

  ghost predicate ForemostClash(docs: seq<Document>) {
    exists a, b | IsForemost(docs, a) && IsForemost(docs, b) :: Disagree(a, b)
  }

  lemma {:induction false} FlagNeedsClash(docs: seq<Document>)
    requires Flagged(docs)
    ensures Clash(docs)
  {
    var init, last := docs[..|docs| - 1], docs[|docs| - 1];
    assert docs == init + [last];
    if Flagged(init) {
      FlagNeedsClash(init);
    } else if init != [] {
      PickIsSmallest(init);
      assert Disagree(PickFrom(init).value.selected, last);
    }
  }

  /** Documents ahead of every one without an identity have an identity themselves. */
  lemma ForemostHasId(docs: seq<Document>, d: Document)
    requires IsForemost(docs, d) && !d.identity.Conflicting?
    ensures d.identity.Id?
  {
  }

  ghost predicate NoneConflicting(docs: seq<Document>) {
    forall d | d in docs :: !d.identity.Conflicting?
  }

  /** Anything at or before a foremost document is foremost. */
  lemma ForemostIsDownward(all: seq<Document>, d: Document, smaller: Document)
    requires IsForemost(all, d) && smaller in all && PathLe(smaller.nfo.sourcePath, d.nfo.sourcePath)
    ensures IsForemost(all, smaller)
  {
    forall n | n in all && n.identity.NoId?
      ensures PathLt(smaller.nfo.sourcePath, n.nfo.sourcePath)
    {
      PathLeTransitive(smaller.nfo.sourcePath, d.nfo.sourcePath, n.nfo.sourcePath);
      if smaller.nfo.sourcePath == n.nfo.sourcePath {
        PathLeAntisymmetric(d.nfo.sourcePath, n.nfo.sourcePath);
      }
    }
  }

  /** While nothing is flagged, the foremost documents met so far share the identity of the selected one. */
  lemma {:induction false} UnflaggedForemostAgree(all: seq<Document>, docs: seq<Document>, d: Document)
    requires NoneConflicting(all) && (forall x | x in docs :: x in all)
    requires !Flagged(docs) && d in docs && IsForemost(all, d)
    ensures PickFrom(docs).value.selected.identity == d.identity
    ensures IsForemost(all, PickFrom(docs).value.selected)
  {
    var init, last := docs[..|docs| - 1], docs[|docs| - 1];
    assert docs == init + [last];
    PickIsSmallest(docs);
    var selected := PickFrom(docs).value.selected;
    ForemostIsDownward(all, d, selected);
    if init != [] {
      PickIsSmallest(init);
      var kept := PickFrom(init).value.selected;
      assert !Disagree(kept, last);
      if d in init {
        UnflaggedForemostAgree(all, init, d);
      } else if selected == kept {
        assert IsForemost(all, kept) && IsForemost(all, last);
      }
    }
  }

  /** Foremost documents that differ raise the flag in every order. */
  lemma ForemostClashAlwaysFlags(docs: seq<Document>)
    requires NoneConflicting(docs) && ForemostClash(docs)
    ensures Flagged(docs)
  {
    if !Flagged(docs) {
      var a, b :| IsForemost(docs, a) && IsForemost(docs, b) && Disagree(a, b);
      DifferIsDisagree(a, b);
      UnflaggedForemostAgree(docs, docs, a);
      UnflaggedForemostAgree(docs, docs, b);
    }
  }

  lemma {:induction false} FlagStays(docs: seq<Document>, more: seq<Document>)
    requires Flagged(docs)
    ensures Flagged(docs + more)
  {
    if more == [] {
      assert docs + more == docs;
    } else {
      FlagStays(docs, more[..|more| - 1]);
      assert docs + more == docs + more[..|more| - 1] + [more[|more| - 1]];
      NextPick(docs + more[..|more| - 1], more[|more| - 1]);
    }
  }

  lemma ToFront(docs: seq<Document>, d: Document) returns (rest: seq<Document>)
    requires d in docs
    ensures multiset([d] + rest) == multiset(docs)
    ensures forall x | x in docs && x != d :: x in rest
    ensures forall x | x in rest :: x in docs
  {
    var i :| 0 <= i < |docs| && docs[i] == d;
    rest := docs[..i] + docs[i + 1..];
    assert docs == docs[..i] + [docs[i]] + docs[i + 1..];
    SameElements([d] + rest, docs);
  }

  /** Two documents that differ, read first, raise the flag. */
  lemma SomeOrderFlags(docs: seq<Document>) returns (others: seq<Document>)
    requires Clash(docs)
    ensures multiset(others) == multiset(docs) && Flagged(others)
  {
    var a, b :| a in docs && b in docs && Disagree(a, b);
    DifferIsDisagree(a, b);
    var rest := ToFront(docs, a);
    var tail := ToFront(rest, b);
    others := [a] + ([b] + tail);
    assert multiset(others) == multiset{a} + multiset([b] + tail);
    NextPick([], a);
    NextPick([a], b);
    assert [] + [a] == [a];
    FlagStays([a] + [b], tail);
    assert others == [a] + [b] + tail;
  }

  lemma {:induction false} QuietAfterIdless(least: Document, docs: seq<Document>)
    requires least.identity.NoId?
    requires forall d | d in docs :: PathLe(least.nfo.sourcePath, d.nfo.sourcePath)
    ensures PickFrom([least] + docs) == Some(Pick(least, false))
  {
    if docs == [] {
      assert [least] + docs == [] + [least];
      NextPick([], least);
    } else {
      var init, last := docs[..|docs| - 1], docs[|docs| - 1];
      QuietAfterIdless(least, init);
      assert [least] + docs == [least] + init + [last];
      NextPick([least] + init, last);
      if PathLt(last.nfo.sourcePath, least.nfo.sourcePath) {
        PathLeAntisymmetric(last.nfo.sourcePath, least.nfo.sourcePath);
      }
    }
  }

  lemma {:induction false} QuietWithOneId(start: seq<Document>, docs: seq<Document>, identity: Identity)
    requires PickFrom(start).Some? && !PickFrom(start).value.conflict
    requires PickFrom(start).value.selected.identity.NoId? || PickFrom(start).value.selected.identity == identity
    requires forall d | d in docs :: d.identity == identity
    ensures PickFrom(start + docs).Some? && !PickFrom(start + docs).value.conflict
    ensures PickFrom(start + docs).value.selected.identity.NoId?
        || PickFrom(start + docs).value.selected.identity == identity
  {
    if docs == [] {
      assert start + docs == start;
    } else {
      var init, last := docs[..|docs| - 1], docs[|docs| - 1];
      QuietWithOneId(start, init, identity);
      assert start + docs == start + init + [last];
      NextPick(start + init, last);
    }
  }

  /** The first of the documents without an identity. */
  lemma LeastWithoutId(docs: seq<Document>) returns (least: Document)
    requires exists n | n in docs :: n.identity.NoId?
    ensures least in docs && least.identity.NoId?
    ensures forall n | n in docs && n.identity.NoId? :: PathLe(least.nfo.sourcePath, n.nfo.sourcePath)
  {
    var idless := Keep(docs, (n: Document) => n.identity.NoId?);
    forall n
      ensures n in idless <==> n in docs && n.identity.NoId?
    {
      KeepMembers(docs, (n: Document) => n.identity.NoId?, n);
    }
    PickIsSmallest(idless);
    least := PickFrom(idless).value.selected;
  }

  lemma NotForemostIsAfter(docs: seq<Document>, least: Document, d: Document)
    requires d in docs && !IsForemost(docs, d)
    requires forall n | n in docs && n.identity.NoId? :: PathLe(least.nfo.sourcePath, n.nfo.sourcePath)
    ensures PathLe(least.nfo.sourcePath, d.nfo.sourcePath)
  {
    var n :| n in docs && n.identity.NoId? && !PathLt(d.nfo.sourcePath, n.nfo.sourcePath);
    PathLeTotal(d.nfo.sourcePath, n.nfo.sourcePath);
    PathLeTransitive(least.nfo.sourcePath, n.nfo.sourcePath, d.nfo.sourcePath);
  }

  /** Reading the foremost documents last, after one without an identity, keeps the flag down. */
  lemma SomeOrderDoesNotFlag(docs: seq<Document>) returns (others: seq<Document>)
    requires NoneConflicting(docs) && !ForemostClash(docs)
    requires exists n | n in docs :: n.identity.NoId?
    ensures multiset(others) == multiset(docs) && !Flagged(others)
  {
    var least := LeastWithoutId(docs);
    var rest := ToFront(docs, least);
    var foremost := (d: Document) => IsForemost(docs, d);
    var late, early := Discard(rest, foremost), Keep(rest, foremost);
    KeepAndDiscard(rest, foremost);
    others := [least] + late + early;
    assert multiset(others) == multiset{least} + multiset(rest);
    forall d | d in late
      ensures PathLe(least.nfo.sourcePath, d.nfo.sourcePath)
    {
      DiscardMembers(rest, foremost, d);
      NotForemostIsAfter(docs, least, d);
    }
    QuietAfterIdless(least, late);
    forall d | d in early
      ensures IsForemost(docs, d)
    {
      KeepMembers(rest, foremost, d);
    }
    var identity := if early == [] then NoId else early[0].identity;
    forall d | d in early
      ensures d.identity == identity
    {
      assert early[0] in early && !Disagree(d, early[0]);
      ForemostHasId(docs, d);
      ForemostHasId(docs, early[0]);
    }
    QuietWithOneId([least] + late, early, identity);
  }

  lemma ClashesAreOrderIndependent(docs: seq<Document>, others: seq<Document>)
    requires multiset(docs) == multiset(others)
    ensures Clash(docs) <==> Clash(others)
    ensures ForemostClash(docs) <==> ForemostClash(others)
    ensures NoneConflicting(docs) <==> NoneConflicting(others)
  {
    SameElements(docs, others);
    forall d
      ensures IsForemost(docs, d) <==> IsForemost(others, d)
    {
    }
  }

  ghost predicate FlagIsOrderIndependent(docs: seq<Document>) {
    forall others | multiset(others) == multiset(docs) :: Flagged(others) == Flagged(docs)
  }

  /**
   * The flag is the same for every order of an episode's documents exactly when no two documents differ, or two
   * differ that both come, by path, before every document without an identity.
   */
  lemma FlagIsOrderIndependentIff(docs: seq<Document>)
    requires NoneConflicting(docs)
    ensures FlagIsOrderIndependent(docs) <==> !Clash(docs) || ForemostClash(docs)
  {
    if !Clash(docs) || ForemostClash(docs) {
      forall others | multiset(others) == multiset(docs)
        ensures Flagged(others) == ForemostClash(docs)
      {
        ClashesAreOrderIndependent(docs, others);
        if ForemostClash(docs) {
          ForemostClashAlwaysFlags(others);
        } else if Flagged(others) {
          FlagNeedsClash(others);
        }
      }
    } else {
      var a, b :| a in docs && b in docs && Disagree(a, b);
      DifferIsDisagree(a, b);
      assert !IsForemost(docs, a) || !IsForemost(docs, b);
      var flagged := SomeOrderFlags(docs);
      var unflagged := SomeOrderDoesNotFlag(docs);
    }
  }

  lemma DocumentsNeverConflict(files: seq<MediaFile>, key: EpisodeKey)
    ensures NoneConflicting(DocumentsFor(files, key))
  {
    forall d | d in DocumentsFor(files, key)
      ensures !d.identity.Conflicting?
    {
      var i := ContributorOf(files, ContributionTo(key), d);
    }
  }

  predicate FlaggedFor(files: seq<MediaFile>, key: EpisodeKey) {
    Flagged(DocumentsFor(files, key))
  }

  ghost predicate FlagIsFileOrderIndependent(files: seq<MediaFile>, key: EpisodeKey) {
    forall others | multiset(others) == multiset(files) :: FlaggedFor(others, key) == FlaggedFor(files, key)
  }

  lemma ReorderedFilesReorderDocuments(files: seq<MediaFile>, others: seq<MediaFile>, key: EpisodeKey)
    requires multiset(others) == multiset(files)
    ensures multiset(DocumentsFor(others, key)) == multiset(DocumentsFor(files, key))
  {
    GatherFollows(others, files, ContributionTo(key));
  }

  lemma ReorderedDocumentsComeFromFiles(files: seq<MediaFile>, key: EpisodeKey, order: seq<Document>)
    returns (arranged: seq<MediaFile>)
    requires multiset(order) == multiset(DocumentsFor(files, key))
    ensures multiset(arranged) == multiset(files) && DocumentsFor(arranged, key) == order
  {
    arranged := Arrange(files, ContributionTo(key), order);
  }

  /** Every order of the files selects the same document for an episode: the smallest path that fits. */
  lemma EpisodeSelectionIsFileOrderIndependent(files: seq<MediaFile>, others: seq<MediaFile>, key: EpisodeKey)
    requires multiset(others) == multiset(files) && PathsDetermine(DocumentsFor(files, key))
    ensures var a, b := PickFrom(DocumentsFor(files, key)), PickFrom(DocumentsFor(others, key));
            (a.Some? <==> b.Some?) && (a.Some? && b.Some? ==> a.value.selected == b.value.selected)
  {
    ReorderedFilesReorderDocuments(files, others, key);
    SameElements(DocumentsFor(files, key), DocumentsFor(others, key));
    if DocumentsFor(files, key) != [] {
      SelectedDocumentIsOrderIndependent(DocumentsFor(files, key), DocumentsFor(others, key));
    }
  }

  lemma FileOrderIsDocumentOrder(files: seq<MediaFile>, key: EpisodeKey)
    ensures FlagIsFileOrderIndependent(files, key) <==> FlagIsOrderIndependent(DocumentsFor(files, key))
  {
    var docs := DocumentsFor(files, key);
    if FlagIsOrderIndependent(docs) {
      forall others | multiset(others) == multiset(files)
        ensures FlaggedFor(others, key) == FlaggedFor(files, key)
      {
        ReorderedFilesReorderDocuments(files, others, key);
      }
    } else {
      var order :| multiset(order) == multiset(docs) && Flagged(order) != Flagged(docs);
      var arranged := ReorderedDocumentsComeFromFiles(files, key, order);
      assert FlaggedFor(arranged, key) != FlaggedFor(files, key);
    }
  }

  /** The same for the files: their order decides the flag unless one of the two conditions holds. */
  lemma FlagIsFileOrderIndependentIff(files: seq<MediaFile>, key: EpisodeKey)
    ensures FlagIsFileOrderIndependent(files, key) <==>
            !Clash(DocumentsFor(files, key)) || ForemostClash(DocumentsFor(files, key))
  {
    DocumentsNeverConflict(files, key);
    FlagIsOrderIndependentIff(DocumentsFor(files, key));
    FileOrderIsDocumentOrder(files, key);
  }

  // Three documents of one episode: the first path has an identity, the second none, the third another identity.
  function DocumentAt(path: NfoPath, identity: Identity): Document {
    Document(
      Nfo(EpisodeNfo, path, [], false, None, None, None, None, [], [], [], None, None, None, None, None, None, None,
          None, [], [], [], [], []),
      identity)
  }

  function FirstDocument(): Document {
    DocumentAt(["a"], Id("1"))
  }

  function IdlessDocument(): Document {
    DocumentAt(["b"], NoId)
  }

  function LastDocument(): Document {
    DocumentAt(["c"], Id("2"))
  }

  lemma PickOfThree(x: Document, y: Document, z: Document)
    ensures PickFrom([x, y, z]) == Some(Offer(Some(Offer(Some(Pick(x, false)), y)), z))
  {
    assert [x, y, z] == [x, y] + [z] && [x, y] == [x] + [y] && [x] == [] + [x];
    NextPick([], x);
    NextPick([x], y);
    NextPick([x, y], z);
  }

  lemma LaterNamesAreNotLess()
    ensures PathLe(["a"], ["b"]) && PathLe(["b"], ["c"]) && PathLe(["a"], ["c"])
    ensures !PathLe(["c"], ["a"]) && !PathLe(["b"], ["a"]) && !PathLe(["c"], ["b"])
  {
    assert NameLe("a", "b") && NameLe("b", "c") && NameLe("a", "c");
    assert !NameLe("c", "a") && !NameLe("b", "a") && !NameLe("c", "b");
  }

  lemma FlaggedFirstToLast()
    ensures Flagged([FirstDocument(), LastDocument(), IdlessDocument()])
  {
    LaterNamesAreNotLess();
    PickOfThree(FirstDocument(), LastDocument(), IdlessDocument());
  }

  lemma NotFlaggedLastToFirst()
    ensures !Flagged([IdlessDocument(), LastDocument(), FirstDocument()])
  {
    LaterNamesAreNotLess();
    PickOfThree(IdlessDocument(), LastDocument(), FirstDocument());
  }

  /** The same three documents, with and without the flag: read last to first nothing is noticed. */
  lemma ThreeDocumentsInTwoOrders()
    ensures multiset([FirstDocument(), LastDocument(), IdlessDocument()]) ==
            multiset([IdlessDocument(), LastDocument(), FirstDocument()])
    ensures Flagged([FirstDocument(), LastDocument(), IdlessDocument()])
            && !Flagged([IdlessDocument(), LastDocument(), FirstDocument()])
  {
    FlaggedFirstToLast();
    NotFlaggedLastToFirst();
  }
}
