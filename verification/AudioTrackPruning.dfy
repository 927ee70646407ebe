/** Oldest-first eviction of one listing of the audio-track cache directory. */
module AudioTrackPruning {
  import opened Wrappers
  import opened Ordering
  import opened Sorting
  import opened Sums

  /** The components of a path. */
  type Path = seq<string>

  const U64_MAX: nat := 0xFFFF_FFFF_FFFF_FFFF

  datatype CacheEntry = CacheEntry(path: Path, size: nat, modified: int)

  datatype FileStat = FileStat(size: nat, modified: int)

  datatype PruneError = RemoveFailed(path: Path) | QuotaCannotBeSatisfied

  function SaturatingSub(a: nat, b: nat): nat {
    if b <= a then a - b else 0
  }

  function SumSizes(entries: seq<CacheEntry>): nat {
    if entries == [] then 0 else entries[0].size + SumSizes(entries[1..])
  }

  function SaturatingSum(entries: seq<CacheEntry>): nat {
    if SumSizes(entries) <= U64_MAX then SumSizes(entries) else U64_MAX
  }

  predicate EntryLe(a: CacheEntry, b: CacheEntry) {
    a.modified < b.modified || (a.modified == b.modified && PathLe(a.path, b.path))
  }

  function OldestFirst(entries: seq<CacheEntry>): seq<CacheEntry> {
    SortBy(EntryLe, entries)
  }

  lemma EntryLeIsTotal()
    ensures TotalPreorder(EntryLe)
  {
    forall a: CacheEntry, b: CacheEntry
      ensures EntryLe(a, b) || EntryLe(b, a)
    {
      PathLeTotal(a.path, b.path);
    }
    forall a: CacheEntry, b: CacheEntry, c: CacheEntry | EntryLe(a, b) && EntryLe(b, c)
      ensures EntryLe(a, c)
    {
      if a.modified == b.modified == c.modified {
        PathLeTransitive(a.path, b.path, c.path);
      }
    }
  }

  lemma {:induction false} SumSizesAppend(a: seq<CacheEntry>, b: seq<CacheEntry>)
    ensures SumSizes(a + b) == SumSizes(a) + SumSizes(b)
  {
    if a == [] {
      assert a + b == b;
    } else {
      SumSizesAppend(a[1..], b);
      assert (a + b)[1..] == a[1..] + b;
    }
  }

  lemma {:induction false} InsertSum(e: CacheEntry, entries: seq<CacheEntry>)
    ensures SumSizes(InsertBy(EntryLe, e, entries)) == e.size + SumSizes(entries)
  {
    if entries != [] && !EntryLe(e, entries[0]) {
      InsertSum(e, entries[1..]);
    }
  }

  /** Sorting the listing keeps every entry and hence the total. */
  lemma {:induction false} OldestFirstSorts(entries: seq<CacheEntry>)
    ensures Sorted(EntryLe, OldestFirst(entries))
    ensures multiset(OldestFirst(entries)) == multiset(entries)
    ensures SumSizes(OldestFirst(entries)) == SumSizes(entries)
  {
    EntryLeIsTotal();
    SortBySorts(EntryLe, entries);
    SortByKeeps(EntryLe, entries);
    OldestFirstSum(entries);
  }

  lemma {:induction false} OldestFirstSum(entries: seq<CacheEntry>)
    ensures SumSizes(OldestFirst(entries)) == SumSizes(entries)
  {
    if entries != [] {
      OldestFirstSum(entries[1..]);
      InsertSum(entries[0], OldestFirst(entries[1..]));
    }
  }

  ghost predicate Listed(entries: seq<CacheEntry>, path: Path, size: nat) {
    exists i | 0 <= i < |entries| :: entries[i].path == path && entries[i].size == size
  }

  // ---- The order in which one directory is evicted ----

  /** Exactly the unprotected files, each once, oldest first. */
  ghost predicate EvictionOrder(files: map<Path, FileStat>, protectedPaths: set<Path>, order: seq<CacheEntry>) {
    && Sorted(EntryLe, order)
    && (forall i, j | 0 <= i < j < |order| :: order[i].path != order[j].path)
    && (forall e | e in order :: IsEntry(files, protectedPaths, e))
    && (forall p | p in files && p !in protectedPaths :: EntryOf(files, p) in order)
  }

  ghost predicate IsEntry(files: map<Path, FileStat>, protectedPaths: set<Path>, e: CacheEntry) {
    e.path in files && e.path !in protectedPaths && e == EntryOf(files, e.path)
  }

  ghost function EntryOf(files: map<Path, FileStat>, p: Path): CacheEntry
    requires p in files
  {
    CacheEntry(p, files[p].size, files[p].modified)
  }

  lemma SortedHeads(files: map<Path, FileStat>, protectedPaths: set<Path>, a: seq<CacheEntry>, b: seq<CacheEntry>)
    requires EvictionOrder(files, protectedPaths, a) && EvictionOrder(files, protectedPaths, b)
    requires a != [] && b != []
    ensures a[0] == b[0]
  {
    assert a[0] in b && b[0] in a by {
      assert a[0] in a && b[0] in b;
      assert EntryOf(files, a[0].path) in b && EntryOf(files, b[0].path) in a;
    }
    if a[0] != b[0] {
      var i :| 0 <= i < |b| && b[i] == a[0];
      var j :| 0 <= j < |a| && a[j] == b[0];
      assert EntryLe(a[0], a[j]) && EntryLe(b[0], b[i]);
      PathLeAntisymmetric(a[0].path, b[0].path);
    }
  }

  /** The directory alone determines what is evicted first, whatever order the listing came in. */
  lemma {:induction false} EvictionOrderUnique(
    files: map<Path, FileStat>, protectedPaths: set<Path>, a: seq<CacheEntry>, b: seq<CacheEntry>)
    requires EvictionOrder(files, protectedPaths, a) && EvictionOrder(files, protectedPaths, b)
    ensures a == b
    decreases |a|
  {
    if b != [] {
      NonemptyTogether(files, protectedPaths, a, b);
    }
    if a != [] {
      NonemptyTogether(files, protectedPaths, b, a);
      SortedHeads(files, protectedPaths, a, b);
      var rest := protectedPaths + {a[0].path};
      DropHead(files, protectedPaths, a);
      DropHead(files, protectedPaths, b);
      EvictionOrderUnique(files, rest, a[1..], b[1..]);
      assert a == [a[0]] + a[1..] && b == [b[0]] + b[1..];
    }
  }

  lemma NonemptyTogether(files: map<Path, FileStat>, protectedPaths: set<Path>, a: seq<CacheEntry>, b: seq<CacheEntry>)
    requires EvictionOrder(files, protectedPaths, a) && EvictionOrder(files, protectedPaths, b) && b != []
    ensures a != []
  {
    assert b[0] in b;
    assert EntryOf(files, b[0].path) in a;
  }

  lemma DropHead(files: map<Path, FileStat>, protectedPaths: set<Path>, order: seq<CacheEntry>)
    requires EvictionOrder(files, protectedPaths, order) && order != []
    ensures EvictionOrder(files, protectedPaths + {order[0].path}, order[1..])
  {
    forall p | p in files && p !in protectedPaths + {order[0].path}
      ensures EntryOf(files, p) in order[1..]
    {
      assert EntryOf(files, p) in order;
      assert order == [order[0]] + order[1..];
    }
    forall e | e in order[1..]
      ensures IsEntry(files, protectedPaths + {order[0].path}, e)
    {
      var i :| 0 <= i < |order[1..]| && order[1..][i] == e;
      assert order[i + 1] == e && e in order;
    }
  }

  lemma {:induction false} ListedTotal(entries: seq<CacheEntry>, m: map<Path, nat>)
    requires forall p | p in m :: Listed(entries, p, m[p])
    ensures Total(m) <= SumSizes(entries)
    decreases |entries|
  {
    if entries == [] {
      assert m == map[];
    } else {
      var head := entries[0];
      var rest := if head.path in m && m[head.path] == head.size then m - {head.path} else m;
      forall p | p in rest
        ensures Listed(entries[1..], p, rest[p])
      {
        var i :| 0 <= i < |entries| && entries[i].path == p && entries[i].size == m[p];
        assert entries[1..][i - 1] == entries[i];
      }
      ListedTotal(entries[1..], rest);
      if rest != m {
        TotalRemove(m, head.path);
      }
    }
  }

  // ---- The cache directory ----

  ghost function UnprotectedSizes(files: map<Path, FileStat>, protectedPaths: set<Path>): map<Path, nat> {
    map p | p in files && p !in protectedPaths :: files[p].size
  }

  /** The entries of an eviction order add up to the unprotected bytes on disk. */
  lemma {:induction false} EvictionOrderTotal(files: map<Path, FileStat>, protectedPaths: set<Path>,
                                              order: seq<CacheEntry>)
    requires EvictionOrder(files, protectedPaths, order)
    ensures Total(UnprotectedSizes(files, protectedPaths)) == SumSizes(order)
    decreases |order|
  {
    var sizes := UnprotectedSizes(files, protectedPaths);
    if sizes != map[] {
      var p :| p in sizes;
      assert EntryOf(files, p) in order;
    }
    if order != [] {
      var head := order[0];
      assert head in order && IsEntry(files, protectedPaths, head);
      DropHead(files, protectedPaths, order);
      EvictionOrderTotal(files, protectedPaths + {head.path}, order[1..]);
      assert UnprotectedSizes(files, protectedPaths + {head.path}) == sizes - {head.path};
      TotalRemove(sizes, head.path);
    }
  }

  lemma {:induction false} EvictionRemainder(
    files: map<Path, FileStat>, protectedPaths: set<Path>, order: seq<CacheEntry>, n: nat)
    requires EvictionOrder(files, protectedPaths, order) && n <= |order|
    ensures Total(UnprotectedSizes(files - PathsOf(order[..n]), protectedPaths)) == SumSizes(order[n..])
    decreases n
  {
    if n == 0 {
      assert files - PathsOf(order[..0]) == files && order[0..] == order;
      EvictionOrderTotal(files, protectedPaths, order);
    } else {
      EvictionRemainder(files, protectedPaths, order, n - 1);
      EvictionStep(order, n - 1);
      RemainderStep(files, protectedPaths, order, n - 1);
    }
  }

  lemma RemainderStep(files: map<Path, FileStat>, protectedPaths: set<Path>, order: seq<CacheEntry>, n: nat)
    requires EvictionOrder(files, protectedPaths, order) && n < |order|
    ensures Total(UnprotectedSizes(files - PathsOf(order[..n]), protectedPaths))
         == order[n].size + Total(UnprotectedSizes(files - (PathsOf(order[..n]) + {order[n].path}), protectedPaths))
  {
    var evicted, path := PathsOf(order[..n]), order[n].path;
    assert order[n] in order && IsEntry(files, protectedPaths, order[n]);
    var sizes := UnprotectedSizes(files - evicted, protectedPaths);
    assert path !in evicted;
    TotalRemove(sizes, path);
    assert UnprotectedSizes(files - (evicted + {path}), protectedPaths) == sizes - {path};
  }

  ghost function PathsOf(entries: seq<CacheEntry>): set<Path> {
    set e | e in entries :: e.path
  }

  /** Every shorter prefix of the order would have left too much. */
  ghost predicate AboveLimitBefore(order: seq<CacheEntry>, n: nat, limit: nat)
    requires n <= |order|
  {
    forall m | 0 <= m < n :: SumSizes(order[m..]) > limit
  }

  lemma OrderedPathsExist(files: map<Path, FileStat>, protectedPaths: set<Path>, order: seq<CacheEntry>)
    requires EvictionOrder(files, protectedPaths, order)
    ensures forall i | 0 <= i < |order| :: order[i].path in files && order[i].path !in protectedPaths
  {
    forall i | 0 <= i < |order|
      ensures order[i].path in files && order[i].path !in protectedPaths
    {
      assert order[i] in order && IsEntry(files, protectedPaths, order[i]);
    }
  }

  lemma EvictionSparesProtected(
    files: map<Path, FileStat>, protectedPaths: set<Path>, order: seq<CacheEntry>, n: nat)
    requires EvictionOrder(files, protectedPaths, order) && n <= |order|
    ensures forall p | p in protectedPaths && p in files :: p in files - PathsOf(order[..n])
  {
    OrderedPathsExist(files, protectedPaths, order);
  }

  lemma EvictionStep(order: seq<CacheEntry>, n: nat)
    requires n < |order|
    ensures PathsOf(order[..n + 1]) == PathsOf(order[..n]) + {order[n].path}
    ensures SumSizes(order[n..]) == order[n].size + SumSizes(order[n + 1..])
  {
    assert order[..n + 1] == order[..n] + [order[n]];
    assert order[n..][1..] == order[n + 1..];
  }

  /**
   * What goes is older than what stays: an evicted file was modified before every unprotected file that is left, or
   * at the same time and its path comes first.
   */
  lemma OlderFilesGoFirst(files: map<Path, FileStat>, protectedPaths: set<Path>, order: seq<CacheEntry>, n: nat,
                          p: Path, q: Path)
    requires EvictionOrder(files, protectedPaths, order) && n <= |order| && p in PathsOf(order[..n])
    requires q in files && q !in protectedPaths && q !in PathsOf(order[..n])
    ensures p in files
    ensures files[p].modified < files[q].modified || (files[p].modified == files[q].modified && PathLe(p, q))
  {
    var e :| e in order[..n] && e.path == p;
    var i :| 0 <= i < n && order[i] == e;
    assert EntryOf(files, q) in order;
    var j :| 0 <= j < |order| && order[j] == EntryOf(files, q);
    assert forall k | 0 <= k < n :: order[..n][k] == order[k] && order[..n][k] in order[..n];
    assert order[i] in order && IsEntry(files, protectedPaths, order[i]);
    assert EntryLe(order[i], order[j]);
  }

  class CacheDirectory {
    var files: map<Path, FileStat>

    constructor (files: map<Path, FileStat>)
      ensures this.files == files
    {
      this.files := files;
    }

    method CollectEntries(protectedPaths: set<Path>) returns (entries: seq<CacheEntry>)
      ensures EvictionOrder(files, protectedPaths, OldestFirst(entries))
    {
      entries := [];
      var unseen := files.Keys;
      while unseen != {}
        invariant unseen <= files.Keys
        invariant forall i, j | 0 <= i < j < |entries| :: entries[i].path != entries[j].path
        invariant forall e | e in entries :: IsEntry(files, protectedPaths, e) && e.path !in unseen
        invariant forall p | p in files && p !in protectedPaths && p !in unseen :: EntryOf(files, p) in entries
        decreases unseen
      {
        var path :| path in unseen;
        unseen := unseen - {path};
        if path !in protectedPaths {
          entries := entries + [CacheEntry(path, files[path].size, files[path].modified)];
        }
      }
      ListingSorts(files, protectedPaths, entries);
    }

    /**
     * Evicts until the listed files fit `retainedLimit`. `failing` are the paths
     * whose removal fails and `vanished` the files that another task removes
     * after the listing; both are arbitrary.
     */
    method PruneToLimit(retainedLimit: nat, protectedPaths: set<Path>, failing: set<Path>, vanished: set<Path>)
      returns (r: Result<nat, PruneError>, evicted: nat, ghost order: seq<CacheEntry>)
      modifies this`files
      ensures EvictionOrder(old(files), protectedPaths, order) && evicted <= |order|
      ensures files == old(files) - vanished - PathsOf(order[..evicted])
      // The oldest go first; of files equally old, the first by path.
      ensures forall p, q | p in PathsOf(order[..evicted]) && p in old(files)
                            && q in old(files) && q !in protectedPaths && q !in PathsOf(order[..evicted]) ::
        || old(files)[p].modified < old(files)[q].modified
        || (old(files)[p].modified == old(files)[q].modified && PathLe(p, q))
      // A limit above the space left is never reported, not even when the total saturates.
      ensures r.Err? ==>
        && evicted < |order|
        && r == Err(RemoveFailed(order[evicted].path)) && order[evicted].path in failing - vanished
      ensures failing == {} ==> r.Ok?
      ensures r.Ok? ==> r.value <= retainedLimit
      ensures forall i | 0 <= i < evicted :: order[i].path !in failing - vanished
      ensures SumSizes(order) <= U64_MAX ==>
        && AboveLimitBefore(order, evicted, retainedLimit)
        && (r.Err? ==> SumSizes(order[evicted..]) > retainedLimit)
        && (r.Ok? ==> r.value == SumSizes(order[evicted..]))
    {
      var entries := CollectEntries(protectedPaths);
      OldestFirstSorts(entries);
      var retained := SaturatingSum(entries);
      entries := OldestFirst(entries);
      order := entries;
      files := files - vanished;
      r, evicted := EvictWhileAbove(entries, retained, retainedLimit, failing);
      OrderedPathsExist(old(files), protectedPaths, order);
      forall p, q | p in PathsOf(order[..evicted]) && p in old(files)
                    && q in old(files) && q !in protectedPaths && q !in PathsOf(order[..evicted])
        ensures || old(files)[p].modified < old(files)[q].modified
                || (old(files)[p].modified == old(files)[q].modified && PathLe(p, q))
      {
        OlderFilesGoFirst(old(files), protectedPaths, order, evicted, p, q);
      }
    }

    method EvictWhileAbove(entries: seq<CacheEntry>, total: nat, retainedLimit: nat, failing: set<Path>)
      returns (r: Result<nat, PruneError>, evicted: nat)
      requires forall i, j | 0 <= i < j < |entries| :: entries[i].path != entries[j].path
      requires total == SaturatingSum(entries)
      modifies this`files
      ensures evicted <= |entries| && files == old(files) - PathsOf(entries[..evicted])
      ensures r.Err? ==>
        && evicted < |entries| && r == Err(RemoveFailed(entries[evicted].path))
        && entries[evicted].path in failing && entries[evicted].path in old(files)
      ensures r.Ok? ==> r.value <= retainedLimit
      ensures forall i | 0 <= i < evicted :: entries[i].path !in failing || entries[i].path !in old(files)
      ensures SumSizes(entries) <= U64_MAX ==>
        && AboveLimitBefore(entries, evicted, retainedLimit)
        && (r.Err? ==> SumSizes(entries[evicted..]) > retainedLimit)
        && (r.Ok? ==> r.value == SumSizes(entries[evicted..]))
    {
      var retained: nat := total;
      evicted := 0;
      while evicted < |entries| && retained > retainedLimit
        invariant evicted <= |entries|
        invariant files == old(files) - PathsOf(entries[..evicted])
        invariant forall i | 0 <= i < evicted :: entries[i].path !in failing || entries[i].path !in old(files)
        invariant retained <= SumSizes(entries[evicted..])
        invariant SumSizes(entries) <= U64_MAX ==>
          retained == SumSizes(entries[evicted..]) && AboveLimitBefore(entries, evicted, retainedLimit)
        decreases |entries| - evicted
      {
        EvictionStep(entries, evicted);
        var entry := entries[evicted];
        if entry.path in files && entry.path in failing {
          return Err(RemoveFailed(entry.path)), evicted;
        }
        // A file that is already gone counts as removed.
        files := files - {entry.path};
        retained := SaturatingSub(retained, entry.size);
        evicted := evicted + 1;
      }
      r := if retained > retainedLimit then Err(QuotaCannotBeSatisfied) else Ok(retained);
    }
  }

  lemma ListingSorts(files: map<Path, FileStat>, protectedPaths: set<Path>, entries: seq<CacheEntry>)
    requires forall i, j | 0 <= i < j < |entries| :: entries[i].path != entries[j].path
    requires forall e | e in entries :: IsEntry(files, protectedPaths, e)
    requires forall p | p in files && p !in protectedPaths :: EntryOf(files, p) in entries
    ensures EvictionOrder(files, protectedPaths, OldestFirst(entries))
  {
    var order := OldestFirst(entries);
    OldestFirstSorts(entries);
    forall e ensures e in order <==> e in entries {
      assert e in multiset(order) <==> e in multiset(entries);
    }
    forall i, j | 0 <= i < j < |order|
      ensures order[i].path != order[j].path
    {
      if order[i].path == order[j].path {
        assert IsEntry(files, protectedPaths, order[i]) && IsEntry(files, protectedPaths, order[j]);
        TwiceInMultiset(order, i, j);
        OnceInMultiset(entries, order[i]);
      }
    }
  }

  lemma TwiceInMultiset(s: seq<CacheEntry>, i: nat, j: nat)
    requires i < j < |s| && s[i] == s[j]
    ensures multiset(s)[s[i]] >= 2
  {
    assert s == s[..i] + [s[i]] + s[i + 1..j] + [s[j]] + s[j + 1..];
  }

  lemma {:induction false} OnceInMultiset(s: seq<CacheEntry>, e: CacheEntry)
    requires forall i, j | 0 <= i < j < |s| :: s[i].path != s[j].path
    ensures multiset(s)[e] <= 1
  {
    if s != [] {
      OnceInMultiset(s[1..], e);
      assert s == [s[0]] + s[1..];
      if e == s[0] {
        assert e !in s[1..];
      }
    }
  }
}
