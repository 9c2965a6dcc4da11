/** The two-level spatial index that the ripple strategy builds once per
    relayed message (`MatrixBroadcast._init`, src/matrix/ripple.mb.ts).

    Every neighbour of the current node gets a `PointDetail`: its exact point
    id, a normalised distance score, a normalised angle score and the id of
    the coarse grid cell it falls in.  The neighbours are grouped by cell, each
    group is sorted by the 6:4 angle/distance comparator, one `MinPointDetail`
    is built per occupied cell, and the cells are sorted by the same
    comparator on their own scores.  The result is the ordered task list that
    the broadcast generator walks.

    The geometry (vectors, square roots, angles, the division by the grid
    diagonal and by pi, the quantisation into cells) is not modelled: the
    scores and the cell of each neighbour come from `placeOf`, and the scores
    of each cell from `cellPlaceOf`. */
module RippleIndex {
  import opened StableSort

  /** Exact identity of a point (a bigint in the source). */
  newtype PointId = int
  /** Identity of a coarse grid cell (a number in the source). */
  newtype CellId = int

  /** What the geometry provider says about one neighbour. */
  datatype Placement = Placement(distance: real, angle: real, minPointId: CellId)
  /** What the geometry provider says about one cell. */
  datatype CellPlacement = CellPlacement(minDistance: real, minAngle: real)

  datatype PointDetail = PointDetail(pointId: PointId, distance: real, angle: real, minPointId: CellId)
  datatype MinPointDetail = MinPointDetail(minPointId: CellId, minDistance: real, minAngle: real)

  /** One entry of `todoTasks`: a cell and its sorted neighbours. */
  datatype Task = Task(cell: MinPointDetail, points: seq<PointDetail>)

  ghost predicate NoDuplicates<T>(s: seq<T>) {
    forall i, j :: 0 <= i < j < |s| ==> s[i] != s[j]
  }

  // ---------------------------------------------------------------------
  // The comparators

  /** The scalar both sorts order by: angle weighs 6, distance 4. */
  function PointKey(d: PointDetail): real { 6.0 * d.angle + 4.0 * d.distance }

  function CellKey(c: MinPointDetail): real { 6.0 * c.minAngle + 4.0 * c.minDistance }

  /** The per-cell comparator as the source writes it; it is the difference
      of the keys, so sorting with it is sorting by `PointKey`. */
  function ComparePoints(a: PointDetail, b: PointDetail): (r: real)
    ensures r == PointKey(a) - PointKey(b)
    ensures r <= 0.0 <==> PointKey(a) <= PointKey(b)
  {
    (a.angle - b.angle) * 6.0 + (a.distance - b.distance) * 4.0
  }

  /** The cell comparator as the source writes it. */
  function CompareCells(a: MinPointDetail, b: MinPointDetail): (r: real)
    ensures r == CellKey(a) - CellKey(b)
    ensures r <= 0.0 <==> CellKey(a) <= CellKey(b)
  {
    (a.minAngle - b.minAngle) * 6.0 + (a.minDistance - b.minDistance) * 4.0
  }

  // ---------------------------------------------------------------------
  // The index, as functions of the neighbour list

  function DetailOf(p: PointId, placeOf: PointId -> Placement): PointDetail {
    var pl := placeOf(p);
    PointDetail(p, pl.distance, pl.angle, pl.minPointId)
  }

  /** The `PointDetail`s in the order the neighbours are visited. */
  function Details(ps: seq<PointId>, placeOf: PointId -> Placement): seq<PointDetail> {
    if ps == [] then []
    else Details(ps[..|ps| - 1], placeOf) + [DetailOf(ps[|ps| - 1], placeOf)]
  }

  /** `allPointDetailMap`: a later neighbour with the same id overwrites. */
  function PointDetailMap(ps: seq<PointId>, placeOf: PointId -> Placement): map<PointId, PointDetail> {
    if ps == [] then map[]
    else PointDetailMap(ps[..|ps| - 1], placeOf)[ps[|ps| - 1] := DetailOf(ps[|ps| - 1], placeOf)]
  }

  /** The neighbours pushed into the list of cell `c`, in push order. */
  function InCell(ds: seq<PointDetail>, c: CellId): seq<PointDetail> {
    if ds == [] then []
    else InCell(ds[..|ds| - 1], c) + (if ds[|ds| - 1].minPointId == c then [ds[|ds| - 1]] else [])
  }

  /** The keys of `groupedPointDetailList` in insertion order: each occupied
      cell once, in the order of its first neighbour. */
  function OccupiedCells(ds: seq<PointDetail>): seq<CellId> {
    if ds == [] then []
    else
      var before := OccupiedCells(ds[..|ds| - 1]);
      if ds[|ds| - 1].minPointId in before then before else before + [ds[|ds| - 1].minPointId]
  }

  function CellDetailOf(c: CellId, cellPlaceOf: CellId -> CellPlacement): MinPointDetail {
    MinPointDetail(c, cellPlaceOf(c).minDistance, cellPlaceOf(c).minAngle)
  }

  /** `allMinPointDetailList` before its sort. */
  function CellDetails(cs: seq<CellId>, cellPlaceOf: CellId -> CellPlacement): seq<MinPointDetail> {
    seq(|cs|, i requires 0 <= i < |cs| => CellDetailOf(cs[i], cellPlaceOf))
  }

  /** `allMinPointDetailList` after its sort. */
  function RankedCells(ds: seq<PointDetail>, cellPlaceOf: CellId -> CellPlacement): seq<MinPointDetail> {
    SortByKey(CellDetails(OccupiedCells(ds), cellPlaceOf), CellKey)
  }

  /** `allMinPointDetailMap`. */
  function CellDetailMap(cells: seq<MinPointDetail>): map<CellId, MinPointDetail> {
    if cells == [] then map[]
    else CellDetailMap(cells[..|cells| - 1])[cells[|cells| - 1].minPointId := cells[|cells| - 1]]
  }

  /** `todoTasks`: the ranked cells, each with its sorted neighbours. */
  function TodoTasks(ds: seq<PointDetail>, cellPlaceOf: CellId -> CellPlacement): seq<Task> {
    var ranked := RankedCells(ds, cellPlaceOf);
    seq(|ranked|, k requires 0 <= k < |ranked| =>
      Task(ranked[k], SortByKey(InCell(ds, ranked[k].minPointId), PointKey)))
  }

  /** What the broadcast generator relies on: distinct cells, and every
      neighbour listed under its own cell. */
  ghost predicate WellFormed(tasks: seq<Task>) {
    && (forall k1, k2 :: 0 <= k1 < k2 < |tasks| ==> tasks[k1].cell.minPointId != tasks[k2].cell.minPointId)
    && (forall k, m :: 0 <= k < |tasks| && 0 <= m < |tasks[k].points| ==>
          tasks[k].points[m].minPointId == tasks[k].cell.minPointId)
  }

  // ---------------------------------------------------------------------
  // Facts about sequences and multisets

  lemma {:induction false} DistinctCountsAtMostOne<T>(s: seq<T>, x: T)
    requires NoDuplicates(s)
    ensures multiset(s)[x] <= 1
    decreases |s|
  {
    if s != [] {
      var init := s[..|s| - 1];
      assert s == init + [s[|s| - 1]];
      DistinctCountsAtMostOne(init, x);
      if x == s[|s| - 1] {
        assert x !in init;
      }
    }
  }

  lemma RepeatCountsTwice<T>(s: seq<T>, i: nat, j: nat)
    requires i < j < |s| && s[i] == s[j]
    ensures multiset(s)[s[i]] >= 2
  {
    assert s == s[..j] + [s[j]] + s[j + 1..];
    assert s[i] in s[..j];
  }

  lemma PermutationKeepsDistinct<T>(a: seq<T>, b: seq<T>)
    requires multiset(a) == multiset(b) && NoDuplicates(a)
    ensures NoDuplicates(b)
  {
    forall i, j | 0 <= i < j < |b| ensures b[i] != b[j] {
      if b[i] == b[j] {
        RepeatCountsTwice(b, i, j);
        DistinctCountsAtMostOne(a, b[i]);
      }
    }
  }

  // ---------------------------------------------------------------------
  // Facts about the index

  /** Every neighbour gets exactly one `PointDetail`, at its own position. */
  lemma {:induction false} DetailsAt(ps: seq<PointId>, placeOf: PointId -> Placement)
    ensures |Details(ps, placeOf)| == |ps|
    ensures forall i :: 0 <= i < |ps| ==> Details(ps, placeOf)[i] == DetailOf(ps[i], placeOf)
    decreases |ps|
  {
    if ps != [] {
      DetailsAt(ps[..|ps| - 1], placeOf);
    }
  }

  /** Distinct neighbours give distinct details. */
  lemma DetailsDistinct(ps: seq<PointId>, placeOf: PointId -> Placement)
    requires NoDuplicates(ps)
    ensures NoDuplicates(Details(ps, placeOf))
  {
    DetailsAt(ps, placeOf);
  }

  /** `allPointDetailMap` indexes exactly the neighbours, each by its id. */
  lemma {:induction false} PointDetailMapSpec(ps: seq<PointId>, placeOf: PointId -> Placement, p: PointId)
    ensures p in PointDetailMap(ps, placeOf) <==> p in ps
    ensures p in PointDetailMap(ps, placeOf) ==>
              PointDetailMap(ps, placeOf)[p] == DetailOf(p, placeOf) && PointDetailMap(ps, placeOf)[p].pointId == p
    decreases |ps|
  {
    if ps != [] {
      PointDetailMapSpec(ps[..|ps| - 1], placeOf, p);
      assert ps == ps[..|ps| - 1] + [ps[|ps| - 1]];
    }
  }

  /** The list of cell `c` holds exactly the neighbours in `c`. */
  lemma {:induction false} InCellMembers(ds: seq<PointDetail>, c: CellId, d: PointDetail)
    ensures d in InCell(ds, c) <==> d in ds && d.minPointId == c
    decreases |ds|
  {
    if ds != [] {
      InCellMembers(ds[..|ds| - 1], c, d);
      assert ds == ds[..|ds| - 1] + [ds[|ds| - 1]];
    }
  }

  lemma {:induction false} InCellDistinct(ds: seq<PointDetail>, c: CellId)
    requires NoDuplicates(ds)
    ensures NoDuplicates(InCell(ds, c))
    decreases |ds|
  {
    if ds != [] {
      var init := ds[..|ds| - 1];
      InCellDistinct(init, c);
      InCellMembers(init, c, ds[|ds| - 1]);
    }
  }

  /** The cell keys: each occupied cell exactly once. */
  lemma {:induction false} OccupiedCellsSpec(ds: seq<PointDetail>)
    ensures NoDuplicates(OccupiedCells(ds))
    ensures forall c :: c in OccupiedCells(ds) <==> exists d :: d in ds && d.minPointId == c
    decreases |ds|
  {
    if ds != [] {
      var init := ds[..|ds| - 1];
      OccupiedCellsSpec(init);
      assert ds == init + [ds[|ds| - 1]];
      forall c ensures c in OccupiedCells(ds) <==> exists d :: d in ds && d.minPointId == c {
        if c in OccupiedCells(ds) && c != ds[|ds| - 1].minPointId {
          var d :| d in init && d.minPointId == c;
          assert d in ds;
        }
        if exists d :: d in ds && d.minPointId == c {
          var d :| d in ds && d.minPointId == c;
          if d != ds[|ds| - 1] {
            assert d in init;
          }
        }
      }
    }
  }

  /** Each ranked entry is an occupied cell with its own scores. */
  lemma RankedCellsMembers(ds: seq<PointDetail>, cellPlaceOf: CellId -> CellPlacement)
    ensures var r := RankedCells(ds, cellPlaceOf);
      forall i :: 0 <= i < |r| ==>
        r[i] == CellDetailOf(r[i].minPointId, cellPlaceOf) && r[i].minPointId in OccupiedCells(ds)
  {
    var oc := OccupiedCells(ds);
    var cl := CellDetails(oc, cellPlaceOf);
    var r := RankedCells(ds, cellPlaceOf);
    SortByKeyPermutes(cl, CellKey);
    forall i | 0 <= i < |r|
      ensures r[i] == CellDetailOf(r[i].minPointId, cellPlaceOf) && r[i].minPointId in oc
    {
      assert r[i] in multiset(cl);
      var m :| 0 <= m < |cl| && cl[m] == r[i];
    }
  }

  /** Every occupied cell is ranked. */
  lemma RankedCellsCover(ds: seq<PointDetail>, cellPlaceOf: CellId -> CellPlacement)
    ensures var r := RankedCells(ds, cellPlaceOf);
      forall c :: c in OccupiedCells(ds) ==> exists i :: 0 <= i < |r| && r[i].minPointId == c
  {
    var oc := OccupiedCells(ds);
    var cl := CellDetails(oc, cellPlaceOf);
    var r := RankedCells(ds, cellPlaceOf);
    SortByKeyPermutes(cl, CellKey);
    forall c | c in oc ensures exists i :: 0 <= i < |r| && r[i].minPointId == c {
      var m :| 0 <= m < |oc| && oc[m] == c;
      assert cl[m] in multiset(r);
      var i :| 0 <= i < |r| && r[i] == cl[m];
    }
  }

  /** No cell is ranked twice. */
  lemma RankedCellsDistinct(ds: seq<PointDetail>, cellPlaceOf: CellId -> CellPlacement)
    ensures var r := RankedCells(ds, cellPlaceOf);
      forall i, j :: 0 <= i < j < |r| ==> r[i].minPointId != r[j].minPointId
  {
    var oc := OccupiedCells(ds);
    var cl := CellDetails(oc, cellPlaceOf);
    var r := RankedCells(ds, cellPlaceOf);
    OccupiedCellsSpec(ds);
    assert NoDuplicates(cl) by {
      forall i, j | 0 <= i < j < |cl| ensures cl[i] != cl[j] {
        assert cl[i].minPointId == oc[i];
      }
    }
    SortByKeyPermutes(cl, CellKey);
    PermutationKeepsDistinct(cl, r);
    RankedCellsMembers(ds, cellPlaceOf);
  }

  /** The ranked cell list: one entry per occupied cell, each with its own
      scores, sorted by `CellKey`, ties in first-occurrence order. */
  lemma RankedCellsSpec(ds: seq<PointDetail>, cellPlaceOf: CellId -> CellPlacement)
    ensures var r := RankedCells(ds, cellPlaceOf);
      && SortedBy(r, CellKey)
      && (forall v :: WithKey(r, CellKey, v) == WithKey(CellDetails(OccupiedCells(ds), cellPlaceOf), CellKey, v))
      && (forall i :: 0 <= i < |r| ==> r[i] == CellDetailOf(r[i].minPointId, cellPlaceOf))
      && (forall i :: 0 <= i < |r| ==> r[i].minPointId in OccupiedCells(ds))
      && (forall c :: c in OccupiedCells(ds) ==> exists i :: 0 <= i < |r| && r[i].minPointId == c)
      && (forall i, j :: 0 <= i < j < |r| ==> r[i].minPointId != r[j].minPointId)
  {
    SortByKeySpec(CellDetails(OccupiedCells(ds), cellPlaceOf), CellKey);
    RankedCellsMembers(ds, cellPlaceOf);
    RankedCellsCover(ds, cellPlaceOf);
    RankedCellsDistinct(ds, cellPlaceOf);
  }

  /** Each list holds exactly the neighbours of its own cell. */
  lemma TodoTasksMembers(ds: seq<PointDetail>, cellPlaceOf: CellId -> CellPlacement)
    ensures var t := TodoTasks(ds, cellPlaceOf);
      forall k, d :: 0 <= k < |t| ==>
        (d in t[k].points <==> d in ds && d.minPointId == t[k].cell.minPointId)
  {
    var t := TodoTasks(ds, cellPlaceOf);
    forall k, d | 0 <= k < |t|
      ensures d in t[k].points <==> d in ds && d.minPointId == t[k].cell.minPointId
    {
      var c := t[k].cell.minPointId;
      SortByKeyPermutes(InCell(ds, c), PointKey);
      assert d in t[k].points <==> d in multiset(InCell(ds, c));
      InCellMembers(ds, c, d);
    }
  }

  /** The task list is well formed for any neighbour list. */
  lemma TodoTasksWellFormed(ds: seq<PointDetail>, cellPlaceOf: CellId -> CellPlacement)
    ensures WellFormed(TodoTasks(ds, cellPlaceOf))
  {
    var t := TodoTasks(ds, cellPlaceOf);
    RankedCellsDistinct(ds, cellPlaceOf);
    TodoTasksMembers(ds, cellPlaceOf);
    forall k, m | 0 <= k < |t| && 0 <= m < |t[k].points|
      ensures t[k].points[m].minPointId == t[k].cell.minPointId
    {
      assert t[k].points[m] in t[k].points;
    }
  }

  /** Every neighbour is in some list. */
  lemma TodoTasksCover(ds: seq<PointDetail>, cellPlaceOf: CellId -> CellPlacement)
    ensures var t := TodoTasks(ds, cellPlaceOf);
      forall d :: d in ds ==> exists k :: 0 <= k < |t| && d in t[k].points
  {
    var t := TodoTasks(ds, cellPlaceOf);
    var r := RankedCells(ds, cellPlaceOf);
    OccupiedCellsSpec(ds);
    RankedCellsCover(ds, cellPlaceOf);
    TodoTasksMembers(ds, cellPlaceOf);
    forall d | d in ds ensures exists k :: 0 <= k < |t| && d in t[k].points {
      assert d.minPointId in OccupiedCells(ds);
      var k :| 0 <= k < |r| && r[k].minPointId == d.minPointId;
      assert d in t[k].points;
    }
  }

  /** No list is empty, and none repeats an entry when the neighbours are
      distinct. */
  lemma TodoTasksListsDistinct(ps: seq<PointId>, placeOf: PointId -> Placement, cellPlaceOf: CellId -> CellPlacement)
    requires NoDuplicates(ps)
    ensures var t := TodoTasks(Details(ps, placeOf), cellPlaceOf);
      forall k :: 0 <= k < |t| ==> |t[k].points| > 0 && NoDuplicates(t[k].points)
  {
    var ds := Details(ps, placeOf);
    var t := TodoTasks(ds, cellPlaceOf);
    OccupiedCellsSpec(ds);
    RankedCellsMembers(ds, cellPlaceOf);
    TodoTasksMembers(ds, cellPlaceOf);
    DetailsDistinct(ps, placeOf);
    forall k | 0 <= k < |t| ensures |t[k].points| > 0 && NoDuplicates(t[k].points) {
      var c := t[k].cell.minPointId;
      assert c in OccupiedCells(ds);
      var d :| d in ds && d.minPointId == c;
      assert d in t[k].points;
      InCellDistinct(ds, c);
      SortByKeyPermutes(InCell(ds, c), PointKey);
      PermutationKeepsDistinct(InCell(ds, c), t[k].points);
    }
  }

  /** Partition: every list holds exactly the neighbours of its own cell, the
      cells are distinct, every neighbour is in some list (and so, by the
      first two facts, in exactly one), and no list is empty or repeats an
      entry. */
  lemma TodoTasksPartition(ps: seq<PointId>, placeOf: PointId -> Placement, cellPlaceOf: CellId -> CellPlacement)
    requires NoDuplicates(ps)
    ensures var ds := Details(ps, placeOf); var t := TodoTasks(ds, cellPlaceOf);
      && WellFormed(t)
      && (forall k, d :: 0 <= k < |t| ==>
            (d in t[k].points <==> d in ds && d.minPointId == t[k].cell.minPointId))
      && (forall d :: d in ds ==> exists k :: 0 <= k < |t| && d in t[k].points)
      && (forall k :: 0 <= k < |t| ==> |t[k].points| > 0 && NoDuplicates(t[k].points))
  {
    var ds := Details(ps, placeOf);
    TodoTasksWellFormed(ds, cellPlaceOf);
    TodoTasksMembers(ds, cellPlaceOf);
    TodoTasksCover(ds, cellPlaceOf);
    TodoTasksListsDistinct(ps, placeOf, cellPlaceOf);
  }

  /** Per-cell order: each list is its cell's neighbours sorted by `PointKey`,
      with neighbours of equal key in the order they were pushed. */
  lemma TodoTasksSorted(ds: seq<PointDetail>, cellPlaceOf: CellId -> CellPlacement, k: nat)
    requires k < |TodoTasks(ds, cellPlaceOf)|
    ensures var t := TodoTasks(ds, cellPlaceOf)[k]; var pushed := InCell(ds, t.cell.minPointId);
      && SortedBy(t.points, PointKey)
      && multiset(t.points) == multiset(pushed)
      && forall v :: WithKey(t.points, PointKey, v) == WithKey(pushed, PointKey, v)
  {
    var t := TodoTasks(ds, cellPlaceOf)[k];
    SortByKeySpec(InCell(ds, t.cell.minPointId), PointKey);
  }

  /** `allMinPointDetailMap` indexes exactly the occupied cells, each by its
      own id and with its own scores. */
  lemma {:induction false} CellDetailMapOf(cells: seq<MinPointDetail>, c: CellId)
    ensures c in CellDetailMap(cells) <==> exists i :: 0 <= i < |cells| && cells[i].minPointId == c
    ensures c in CellDetailMap(cells) ==> CellDetailMap(cells)[c] in cells && CellDetailMap(cells)[c].minPointId == c
    decreases |cells|
  {
    if cells != [] {
      var init := cells[..|cells| - 1];
      CellDetailMapOf(init, c);
      assert cells == init + [cells[|cells| - 1]];
      if exists i :: 0 <= i < |cells| && cells[i].minPointId == c {
        var i :| 0 <= i < |cells| && cells[i].minPointId == c;
        if i < |init| {
          assert init[i].minPointId == c;
        }
      }
    }
  }

  lemma CellMapSpec(ds: seq<PointDetail>, cellPlaceOf: CellId -> CellPlacement, c: CellId)
    ensures var m := CellDetailMap(RankedCells(ds, cellPlaceOf));
      && (c in m <==> c in OccupiedCells(ds))
      && (c in m ==> m[c] == CellDetailOf(c, cellPlaceOf))
  {
    RankedCellsSpec(ds, cellPlaceOf);
    CellDetailMapOf(RankedCells(ds, cellPlaceOf), c);
  }

  // ---------------------------------------------------------------------
  // The builder

  lemma UnoccupiedCellIsEmpty(ds: seq<PointDetail>, c: CellId)
    requires c !in OccupiedCells(ds)
    ensures InCell(ds, c) == []
  {
    OccupiedCellsSpec(ds);
    if InCell(ds, c) != [] {
      InCellMembers(ds, c, InCell(ds, c)[0]);
    }
  }

  lemma DetailsSnoc(ps: seq<PointId>, i: nat, placeOf: PointId -> Placement)
    requires i < |ps|
    ensures Details(ps[..i + 1], placeOf) == Details(ps[..i], placeOf) + [DetailOf(ps[i], placeOf)]
    ensures PointDetailMap(ps[..i + 1], placeOf) == PointDetailMap(ps[..i], placeOf)[ps[i] := DetailOf(ps[i], placeOf)]
  {
    assert ps[..i + 1][..i] == ps[..i];
  }

  lemma InCellSnoc(ds: seq<PointDetail>, d: PointDetail, c: CellId)
    ensures InCell(ds + [d], c) == InCell(ds, c) + (if d.minPointId == c then [d] else [])
    ensures OccupiedCells(ds + [d]) == if d.minPointId in OccupiedCells(ds) then OccupiedCells(ds) else OccupiedCells(ds) + [d.minPointId]
  {
    assert (ds + [d])[..|ds|] == ds;
  }

  /** Lines 72-77 of the loop: look up the cell's list, creating it (and so
      recording the cell as occupied) on first use, and push the detail. */
  method PushToCell(groups: map<CellId, seq<PointDetail>>, order: seq<CellId>, pd: PointDetail, ghost visited: seq<PointDetail>)
    returns (groups': map<CellId, seq<PointDetail>>, order': seq<CellId>)
    requires order == OccupiedCells(visited)
    requires forall c :: c in groups <==> c in order
    requires forall c :: c in groups ==> groups[c] == InCell(visited, c)
    ensures order' == OccupiedCells(visited + [pd])
    ensures forall c :: c in groups' <==> c in order'
    ensures forall c :: c in groups' ==> groups'[c] == InCell(visited + [pd], c)
  {
    InCellSnoc(visited, pd, pd.minPointId);
    groups', order' := groups, order;
    if pd.minPointId !in groups' {
      UnoccupiedCellIsEmpty(visited, pd.minPointId);
      groups' := groups'[pd.minPointId := []];
      order' := order' + [pd.minPointId];
    }
    groups' := groups'[pd.minPointId := groups'[pd.minPointId] + [pd]];
    forall c | c in groups' ensures groups'[c] == InCell(visited + [pd], c) {
      InCellSnoc(visited, pd, c);
    }
  }

  /** The first loop of `_init`: visits the neighbours once, filling
      `allPointDetailMap` and pushing each detail onto its cell's list. */
  method GroupByCell(connected: seq<PointId>, placeOf: PointId -> Placement)
    returns (pointMap: map<PointId, PointDetail>, order: seq<CellId>, groups: map<CellId, seq<PointDetail>>)
    ensures pointMap == PointDetailMap(connected, placeOf)
    ensures order == OccupiedCells(Details(connected, placeOf))
    ensures forall c :: c in groups <==> c in order
    ensures forall c :: c in groups ==> groups[c] == InCell(Details(connected, placeOf), c)
  {
    pointMap := map[];
    groups := map[];
    order := [];
    ghost var visited: seq<PointDetail> := [];
    var i := 0;
    while i < |connected|
      invariant 0 <= i <= |connected|
      invariant visited == Details(connected[..i], placeOf)
      invariant pointMap == PointDetailMap(connected[..i], placeOf)
      invariant order == OccupiedCells(visited)
      invariant forall c :: c in groups <==> c in order
      invariant forall c :: c in groups ==> groups[c] == InCell(visited, c)
    {
      var point := connected[i];
      var pd := DetailOf(point, placeOf);
      DetailsSnoc(connected, i, placeOf);
      pointMap := pointMap[point := pd];
      groups, order := PushToCell(groups, order, pd, visited);
      visited := visited + [pd];
      i := i + 1;
    }
    assert connected[..|connected|] == connected;
  }

  /** `cellPointList.sort(...)` on one cell list. */
  method SortCellList(list: seq<PointDetail>) returns (sorted: seq<PointDetail>)
    ensures sorted == SortByKey(list, PointKey)
  {
    var a := new PointDetail[|list|](j requires 0 <= j < |list| => list[j]);
    assert a[..] == list;
    SortInPlace(a, PointKey);
    sorted := a[..];
  }

  /** The second loop of `_init`: sorts every cell list in place. */
  method SortCellLists(order: seq<CellId>, groups: map<CellId, seq<PointDetail>>)
    returns (sorted: map<CellId, seq<PointDetail>>)
    requires NoDuplicates(order)
    requires forall c :: c in groups <==> c in order
    ensures forall c :: c in sorted <==> c in groups
    ensures forall c :: c in sorted ==> sorted[c] == SortByKey(groups[c], PointKey)
  {
    sorted := groups;
    ghost var done: set<CellId> := {};
    var k := 0;
    while k < |order|
      invariant 0 <= k <= |order|
      invariant done == set m | 0 <= m < k :: order[m]
      invariant forall c :: c in sorted <==> c in groups
      invariant forall c :: c in sorted ==>
        sorted[c] == if c in done then SortByKey(groups[c], PointKey) else groups[c]
    {
      var c := order[k];
      assert c !in done;
      var list := SortCellList(sorted[c]);
      sorted := sorted[c := list];
      done := done + {c};
      k := k + 1;
    }
    assert forall c :: c in order ==> c in done;
  }

  /** The third loop of `_init` and the cell sort: one `MinPointDetail` per
      occupied cell, sorted in place by `CellKey`. */
  method RankCells(order: seq<CellId>, cellPlaceOf: CellId -> CellPlacement) returns (ranked: seq<MinPointDetail>)
    ensures ranked == SortByKey(CellDetails(order, cellPlaceOf), CellKey)
  {
    var cellList: seq<MinPointDetail> := [];
    var k := 0;
    while k < |order|
      invariant 0 <= k <= |order|
      invariant |cellList| == k
      invariant forall m :: 0 <= m < k ==> cellList[m] == CellDetailOf(order[m], cellPlaceOf)
    {
      cellList := cellList + [CellDetailOf(order[k], cellPlaceOf)];
      k := k + 1;
    }
    assert cellList == CellDetails(order, cellPlaceOf);
    var ca := new MinPointDetail[|cellList|](j requires 0 <= j < |cellList| => cellList[j]);
    assert ca[..] == cellList;
    SortInPlace(ca, CellKey);
    ranked := ca[..];
  }

  /** Pairing each ranked cell with its sorted list gives `todoTasks`. */
  lemma PairedListsAreTodoTasks(ds: seq<PointDetail>, cellPlaceOf: CellId -> CellPlacement,
                                ranked: seq<MinPointDetail>, sorted: map<CellId, seq<PointDetail>>)
    requires ranked == RankedCells(ds, cellPlaceOf)
    requires forall c :: c in sorted <==> c in OccupiedCells(ds)
    requires forall c :: c in sorted ==> sorted[c] == SortByKey(InCell(ds, c), PointKey)
    ensures forall k :: 0 <= k < |ranked| ==> ranked[k].minPointId in sorted
    ensures seq(|ranked|, k requires 0 <= k < |ranked| => Task(ranked[k], sorted[ranked[k].minPointId]))
         == TodoTasks(ds, cellPlaceOf)
  {
    RankedCellsMembers(ds, cellPlaceOf);
  }

  /** `_init` up to the generator hand-off: the point map, the cell map and
      the ordered task list. */
  method BuildIndex(connected: seq<PointId>, placeOf: PointId -> Placement, cellPlaceOf: CellId -> CellPlacement)
    returns (pointMap: map<PointId, PointDetail>, cellMap: map<CellId, MinPointDetail>, tasks: seq<Task>)
    ensures pointMap == PointDetailMap(connected, placeOf)
    ensures cellMap == CellDetailMap(RankedCells(Details(connected, placeOf), cellPlaceOf))
    ensures tasks == TodoTasks(Details(connected, placeOf), cellPlaceOf)
  {
    ghost var ds := Details(connected, placeOf);
    var order, groups;
    pointMap, order, groups := GroupByCell(connected, placeOf);
    OccupiedCellsSpec(ds);
    var sorted := SortCellLists(order, groups);
    var ranked := RankCells(order, cellPlaceOf);
    PairedListsAreTodoTasks(ds, cellPlaceOf, ranked, sorted);
    cellMap := CellDetailMap(ranked);
    tasks := seq(|ranked|, k requires 0 <= k < |ranked| => Task(ranked[k], sorted[ranked[k].minPointId]));
  }
}
