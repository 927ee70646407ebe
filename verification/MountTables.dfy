/** Which mount of a mount table holds a path, and which mounts lie below it. */
module MountTables {
  import opened Wrappers

  /** The names below "/", in order: "/" itself is the empty sequence, and an ancestor is a prefix. */
  type Path = seq<string>

  datatype MountEntry = MountEntry(mountPoint: Path, fsType: string, source: string) {
    predicate IsNetwork() {
      fsType in ["cifs", "smb3", "smbfs", "nfs", "nfs4", "fuse.rclone", "fuse.sshfs"]
    }

    predicate SameStorageAs(other: MountEntry) {
      fsType == other.fsType && source == other.source
    }
  }

  /** Later entries are mounted on top of earlier ones. */
  type MountTable = seq<MountEntry>

  function PointsOf(table: MountTable): set<Path> {
    set e | e in table :: e.mountPoint
  }

  /** The entry on top at `path`. */
  function EntryAt(table: MountTable, path: Path): (r: Option<MountEntry>)
    ensures r.Some? ==> r.value in table && r.value.mountPoint == path
    ensures r.Some? <==> path in PointsOf(table)
  {
    if table == [] then None
    else if table[|table| - 1].mountPoint == path then Some(table[|table| - 1])
    else EntryAt(table[..|table| - 1], path)
  }

  /** The deepest of `points` that is `path` or one of its ancestors. */
  function Deepest(points: set<Path>, path: Path): (r: Option<Path>)
    ensures r.Some? ==> r.value in points && r.value <= path
    ensures forall p | p in points && p <= path :: r.Some? && |p| <= |r.value|
    decreases |path|
  {
    if path in points then Some(path)
    else if path == [] then None
    else
      assert forall p | p in points && p <= path :: p <= path[..|path| - 1] by {
        forall p | p in points && p <= path
          ensures p <= path[..|path| - 1]
        {
          ProperPrefix(p, path);
        }
      }
      Deepest(points, path[..|path| - 1])
  }

  lemma ProperPrefix(p: Path, path: Path)
    requires p <= path && p != path
    ensures p <= path[..|path| - 1]
  {
    assert p == path[..|p|];
    assert |p| < |path|;
  }

  /** The clauses of `Deepest` leave one answer. */
  lemma DeepestIs(points: set<Path>, path: Path, point: Path)
    requires point in points && point <= path
    requires forall p | p in points && p <= path :: |p| <= |point|
    ensures Deepest(points, path) == Some(point)
  {
    var found := Deepest(points, path).value;
    assert |found| == |point|;
    assert found == path[..|found|] && point == path[..|point|];
  }

  lemma DeepestIsNone(points: set<Path>, path: Path)
    requires forall p | p in points :: !(p <= path)
    ensures Deepest(points, path) == None
  {
  }

  function HoldingPoint(table: MountTable, path: Path): Option<Path> {
    Deepest(PointsOf(table), path)
  }

  /** The mount that holds `path`. */
  function EntryHolding(table: MountTable, path: Path): Option<MountEntry> {
    var point := HoldingPoint(table, path);
    if point.Some? then EntryAt(table, point.value) else None
  }

  predicate StrictlyBelow(point: Path, path: Path) {
    point != path && path <= point
  }

  function PointsBelow(table: MountTable, path: Path): set<Path> {
    set p | p in PointsOf(table) && StrictlyBelow(p, path)
  }

  lemma EntryAtSuffix(table: MountTable, i: nat, path: Path)
    requires i < |table| && table[i].mountPoint == path
    requires forall j | i < j < |table| :: table[j].mountPoint != path
    ensures EntryAt(table, path) == Some(table[i])
  {
    if i < |table| - 1 {
      var init := table[..|table| - 1];
      EntryAtSuffix(init, i, path);
    }
  }

  /** Searches from the end, so the entry on top is found first. */
  method MountAt(table: MountTable, path: Path) returns (found: Option<MountEntry>)
    ensures found == EntryAt(table, path)
  {
    var i := |table|;
    while i > 0
      invariant 0 <= i <= |table|
      invariant forall j | i <= j < |table| :: table[j].mountPoint != path
    {
      i := i - 1;
      if table[i].mountPoint == path {
        EntryAtSuffix(table, i, path);
        return Some(table[i]);
      }
    }
    assert path !in PointsOf(table);
    return None;
  }

  /** The last entry for the deepest point, found by one pass from the end. */
  method MountHolding(table: MountTable, path: Path) returns (holding: Option<MountEntry>)
    ensures holding == EntryHolding(table, path)
  {
    holding := None;
    ghost var at := 0;
    var i := |table|;
    while i > 0
      invariant 0 <= i <= |table|
      invariant holding.None? ==> forall j | i <= j < |table| :: !(table[j].mountPoint <= path)
      invariant holding.Some? ==> i <= at < |table| && holding.value == table[at] && table[at].mountPoint <= path
      invariant holding.Some? ==> forall j | i <= j < |table| && table[j].mountPoint <= path ::
                                    |table[j].mountPoint| <= |table[at].mountPoint|
      invariant holding.Some? ==> forall j | at < j < |table| :: table[j].mountPoint != table[at].mountPoint
    {
      i := i - 1;
      if table[i].mountPoint <= path {
        if holding.None? || |table[i].mountPoint| > |holding.value.mountPoint| {
          assert forall j | i < j < |table| :: table[j].mountPoint != table[i].mountPoint;
          holding, at := Some(table[i]), i;
        }
      }
    }
    if holding.Some? {
      DeepestIs(PointsOf(table), path, table[at].mountPoint);
      EntryAtSuffix(table, at, table[at].mountPoint);
    } else {
      DeepestIsNone(PointsOf(table), path);
    }
  }

  /** One entry per mount point strictly below `path`. */
  method MountsBelow(table: MountTable, path: Path) returns (below: map<Path, MountEntry>)
    ensures below.Keys == PointsBelow(table, path)
    ensures forall p | p in below :: EntryAt(table, p) == Some(below[p])
  {
    below := map[];
    for i := 0 to |table|
      invariant forall p | p in below :: p in PointsBelow(table, path) && EntryAt(table, p) == Some(below[p])
      invariant forall j | 0 <= j < i && StrictlyBelow(table[j].mountPoint, path) :: table[j].mountPoint in below
    {
      var point := table[i].mountPoint;
      if StrictlyBelow(point, path) {
        var entry := MountAt(table, point);
        assert point in PointsOf(table);
        below := below[point := entry.value];
      }
    }
  }
}
