/** The ripple broadcast generator and the cell-resolution bookkeeping of
    `MatrixBroadcast` (src/matrix/ripple.mb.ts).

    The source writes the generator as an async generator function: a
    do-while loop around two scans of the task list, suspended at each
    `yield`.  Here the suspension point is an explicit `Cursor`, each pull is
    one call of `PullNext`, and the `onSkipMinPointId` event is an appended
    log of skipped cell ids.  The base controller is not part of this model:
    its resolved points, the answer of its own `resolvePoint`, and whether its
    rejected set is empty are parameters. */
module RippleBroadcast {
  import opened RippleIndex

  datatype Option<T> = None | Some(value: T)

  /** Where a suspended generator resumes. */
  datatype Cursor =
    | Level1At(cell: nat)              // level-1 scan; next cell to look at
    | Level2At(cell: nat, point: nat)  // level-2 scan; next neighbour to look at
    | Exhausted                        // the generator has returned
    | Hung                             // the source would loop without ever yielding

  /** The generator's own variables: where it is, `skipedMinPointDetail`,
      `finishedPds`, and the skip events emitted so far. */
  datatype GenState = GenState(cursor: Cursor, skipRef: Option<MinPointDetail>,
                               finished: set<PointDetail>, skipped: seq<CellId>)

  /** What one pull returns: the next point to forward to, the end of the
      sequence, or the report that the source would never yield again. */
  datatype Pull = Next(point: PointId) | End | NoConvergence

  /** `_level` as a function of the cursor. */
  function LevelOf(c: Cursor): int {
    if c.Level1At? then 1 else 2
  }

  ghost predicate CursorOk(tasks: seq<Task>, c: Cursor) {
    match c
    case Level1At(i) => i <= |tasks|
    case Level2At(i, j) => i <= |tasks| && (i < |tasks| ==> j <= |tasks[i].points|)
    case _ => true
  }

  // ---------------------------------------------------------------------
  // Level 1: the top candidate of each cell, with dominance pruning

  /** The pruning rule: `c` is no farther than the skip reference and no
      better aligned with the target. */
  predicate Dominated(c: MinPointDetail, ref: MinPointDetail) {
    c.minDistance <= ref.minDistance && c.minAngle >= ref.minAngle
  }

  /** A cell whose top neighbour level 1 yields. */
  predicate IsCandidate(t: Task, ref: Option<MinPointDetail>, resolved: set<CellId>) {
    && !(ref.Some? && Dominated(t.cell, ref.value))
    && |t.points| > 0
    && t.points[0].minPointId !in resolved
  }

  /** Where a level-1 scan stops (the cell that yields, or the end of the
      list), the skip reference then in force, and the cells it skipped. */
  datatype Level1Stop = Level1Stop(next: nat, skipRef: Option<MinPointDetail>, skipped: seq<CellId>)

  /** The level-1 scan from cell `i` up to the first cell that yields. */
  function ScanLevel1(tasks: seq<Task>, i: nat, ref: Option<MinPointDetail>, resolved: set<CellId>): (r: Level1Stop)
    requires i <= |tasks|
    ensures i <= r.next <= |tasks|
    ensures r.next < |tasks| ==> IsCandidate(tasks[r.next], r.skipRef, resolved)
    decreases |tasks| - i
  {
    if i == |tasks| then Level1Stop(i, ref, [])
    else
      var t := tasks[i];
      if ref.Some? && Dominated(t.cell, ref.value) then
        var rest := ScanLevel1(tasks, i + 1, ref, resolved);
        rest.(skipped := [t.cell.minPointId] + rest.skipped)
      else if |t.points| == 0 then
        ScanLevel1(tasks, i + 1, ref, resolved)
      else if t.points[0].minPointId in resolved then
        var rest := ScanLevel1(tasks, i + 1, Some(t.cell), resolved);
        rest.(skipped := [t.cell.minPointId] + rest.skipped)
      else
        Level1Stop(i, ref, [])
  }

  /** The ids of the cells of `ts`, in order. */
  function CellIds(ts: seq<Task>): seq<CellId> {
    seq(|ts|, k requires 0 <= k < |ts| => ts[k].cell.minPointId)
  }

  /** The skip reference after the level-1 rule has looked at cell `t`: a
      dominated cell leaves it alone; otherwise a cell whose top neighbour's
      cell id is resolved becomes the reference. */
  function RefAfter(t: Task, ref: Option<MinPointDetail>, resolved: set<CellId>): Option<MinPointDetail> {
    if ref.Some? && Dominated(t.cell, ref.value) then ref
    else if |t.points| > 0 && t.points[0].minPointId in resolved then Some(t.cell)
    else ref
  }

  /** The skip event the level-1 rule emits for cell `t`, if any. */
  function LogOf(t: Task, ref: Option<MinPointDetail>, resolved: set<CellId>): seq<CellId> {
    if (ref.Some? && Dominated(t.cell, ref.value)) || (|t.points| > 0 && t.points[0].minPointId in resolved)
    then [t.cell.minPointId] else []
  }

  /** The reference in force when a level-1 scan that started at cell `i`
      with reference `ref` reaches cell `k`, folding the rule forwards. */
  function RefAt(tasks: seq<Task>, i: nat, k: nat, ref: Option<MinPointDetail>, resolved: set<CellId>): Option<MinPointDetail>
    requires i <= k <= |tasks|
    decreases k - i
  {
    if k == i then ref else RefAfter(tasks[k - 1], RefAt(tasks, i, k - 1, ref, resolved), resolved)
  }

  /** The skip events that scan emits for the cells `i` to `k - 1`. */
  function SkipLog(tasks: seq<Task>, i: nat, k: nat, ref: Option<MinPointDetail>, resolved: set<CellId>): seq<CellId>
    requires i <= k <= |tasks|
    decreases k - i
  {
    if k == i then []
    else SkipLog(tasks, i, k - 1, ref, resolved) + LogOf(tasks[k - 1], RefAt(tasks, i, k - 1, ref, resolved), resolved)
  }

  /** Folding from `i` is folding from `i + 1` after the rule has looked at
      cell `i`. */
  lemma {:induction false} RefAtShift(tasks: seq<Task>, i: nat, k: nat, ref: Option<MinPointDetail>, resolved: set<CellId>)
    requires i < k <= |tasks|
    ensures RefAt(tasks, i, k, ref, resolved) == RefAt(tasks, i + 1, k, RefAfter(tasks[i], ref, resolved), resolved)
    ensures SkipLog(tasks, i, k, ref, resolved)
         == LogOf(tasks[i], ref, resolved) + SkipLog(tasks, i + 1, k, RefAfter(tasks[i], ref, resolved), resolved)
    decreases k - i
  {
    var ref' := RefAfter(tasks[i], ref, resolved);
    var head := LogOf(tasks[i], ref, resolved);
    if k == i + 1 {
      assert SkipLog(tasks, i, k, ref, resolved) == [] + head;
      assert head + [] == head;
    } else {
      RefAtShift(tasks, i, k - 1, ref, resolved);
      var last := LogOf(tasks[k - 1], RefAt(tasks, i + 1, k - 1, ref', resolved), resolved);
      assert SkipLog(tasks, i, k, ref, resolved) == (head + SkipLog(tasks, i + 1, k - 1, ref', resolved)) + last;
      assert SkipLog(tasks, i + 1, k, ref', resolved) == SkipLog(tasks, i + 1, k - 1, ref', resolved) + last;
    }
  }

  /** The level-1 scan is the rule applied cell by cell: it stops at the
      FIRST cell that is a candidate under the reference then in force, and
      leaves the reference and the skip events of the cells it passed. */
  lemma {:induction false} ScanLevel1Exact(tasks: seq<Task>, i: nat, ref: Option<MinPointDetail>, resolved: set<CellId>)
    requires i <= |tasks|
    ensures var r := ScanLevel1(tasks, i, ref, resolved);
      && (forall k :: i <= k < r.next ==> !IsCandidate(tasks[k], RefAt(tasks, i, k, ref, resolved), resolved))
      && r.skipRef == RefAt(tasks, i, r.next, ref, resolved)
      && r.skipped == SkipLog(tasks, i, r.next, ref, resolved)
    decreases |tasks| - i
  {
    var r := ScanLevel1(tasks, i, ref, resolved);
    if r.next > i {
      var ref' := RefAfter(tasks[i], ref, resolved);
      var rest := ScanLevel1(tasks, i + 1, ref', resolved);
      assert !IsCandidate(tasks[i], ref, resolved);
      assert r == rest.(skipped := LogOf(tasks[i], ref, resolved) + rest.skipped);
      ScanLevel1Exact(tasks, i + 1, ref', resolved);
      RefAtShift(tasks, i, r.next, ref, resolved);
      forall k | i <= k < r.next
        ensures !IsCandidate(tasks[k], RefAt(tasks, i, k, ref, resolved), resolved)
      {
        if k > i {
          RefAtShift(tasks, i, k, ref, resolved);
        }
      }
    }
  }

  /** Over a whole level-1 scan of occupied cells: every cell passed over is
      logged, in order, and the reference in force at the end is the one the
      scan started with or a passed-over cell whose cell id is resolved. */
  lemma {:induction false} ScanLevel1Log(tasks: seq<Task>, i: nat, ref: Option<MinPointDetail>, resolved: set<CellId>)
    requires i <= |tasks|
    requires forall k :: i <= k < |tasks| ==> |tasks[k].points| > 0
    ensures var r := ScanLevel1(tasks, i, ref, resolved);
      && r.skipped == CellIds(tasks[i..r.next])
      && (r.skipRef == ref ||
          exists k :: i <= k < r.next && r.skipRef == Some(tasks[k].cell) && tasks[k].points[0].minPointId in resolved)
    decreases |tasks| - i
  {
    var r := ScanLevel1(tasks, i, ref, resolved);
    if i < |tasks| && r.next > i {
      var t := tasks[i];
      var nextRef := if ref.Some? && Dominated(t.cell, ref.value) then ref else Some(t.cell);
      ScanLevel1Log(tasks, i + 1, nextRef, resolved);
      var rest := ScanLevel1(tasks, i + 1, nextRef, resolved);
      assert r.next == rest.next;
      assert r.skipped == [t.cell.minPointId] + rest.skipped;
      assert CellIds(tasks[i..r.next]) == [t.cell.minPointId] + CellIds(tasks[i + 1..r.next]);
    }
  }

  // ---------------------------------------------------------------------
  // Level 2: flood every neighbour not yet yielded in this pass

  /** A neighbour level 2 yields: not yielded in this pass and not resolved
      by the base controller. */
  predicate Eligible(pd: PointDetail, finished: set<PointDetail>, baseResolved: set<PointId>) {
    pd !in finished && pd.pointId !in baseResolved
  }

  /** Position (a, b) comes strictly before position (c, d) in
      cell-then-list order. */
  predicate Before(a: nat, b: nat, c: nat, d: nat) {
    a < c || (a == c && b < d)
  }

  /** The number of neighbours at or after position (i, j). */
  function PointsFrom(tasks: seq<Task>, i: nat, j: nat): nat
    requires i <= |tasks| && (i < |tasks| ==> j <= |tasks[i].points|)
    decreases |tasks| - i
  {
    if i == |tasks| then 0 else |tasks[i].points| - j + PointsFrom(tasks, i + 1, 0)
  }

  /** The first eligible position at or after (i, j). */
  function NextLevel2(tasks: seq<Task>, i: nat, j: nat, finished: set<PointDetail>, baseResolved: set<PointId>)
    : (r: Option<(nat, nat)>)
    requires i <= |tasks| && (i < |tasks| ==> j <= |tasks[i].points|)
    ensures r.Some? ==>
      && r.value.0 < |tasks| && r.value.1 < |tasks[r.value.0].points|
      && !Before(r.value.0, r.value.1, i, j)
      && Eligible(tasks[r.value.0].points[r.value.1], finished, baseResolved)
      && PointsFrom(tasks, r.value.0, r.value.1 + 1) < PointsFrom(tasks, i, j)
    decreases |tasks| - i, if i < |tasks| then |tasks[i].points| - j else 0
  {
    if i == |tasks| then None
    else if j == |tasks[i].points| then NextLevel2(tasks, i + 1, 0, finished, baseResolved)
    else if Eligible(tasks[i].points[j], finished, baseResolved) then Some((i, j))
    else NextLevel2(tasks, i, j + 1, finished, baseResolved)
  }

  /** Level 2 skips exactly the ineligible neighbours: every position from
      (i, j) up to the one found (or to the end, when none is found) holds a
      neighbour that is finished or resolved by the base controller. */
  lemma {:induction false} NextLevel2Exact(tasks: seq<Task>, i: nat, j: nat, finished: set<PointDetail>, baseResolved: set<PointId>)
    requires i <= |tasks| && (i < |tasks| ==> j <= |tasks[i].points|)
    ensures var r := NextLevel2(tasks, i, j, finished, baseResolved);
      forall a, b :: 0 <= a < |tasks| && 0 <= b < |tasks[a].points| && !Before(a, b, i, j)
                     && (r.None? || Before(a, b, r.value.0, r.value.1))
                     ==> !Eligible(tasks[a].points[b], finished, baseResolved)
    decreases |tasks| - i, if i < |tasks| then |tasks[i].points| - j else 0
  {
    if i == |tasks| {
    } else if j == |tasks[i].points| {
      NextLevel2Exact(tasks, i + 1, 0, finished, baseResolved);
    } else if Eligible(tasks[i].points[j], finished, baseResolved) {
    } else {
      NextLevel2Exact(tasks, i, j + 1, finished, baseResolved);
    }
  }

  /** Every neighbour at a position before (i, j) was yielded in this pass
      (`finished`) or was resolved by the base controller at a pull whose
      scan passed it (`baseSeen`).  With (i, j) = (|tasks|, 0) this covers
      every neighbour. */
  ghost predicate CoveredBefore(tasks: seq<Task>, i: nat, j: nat, finished: set<PointDetail>, baseSeen: set<PointId>) {
    forall a, b :: 0 <= a < |tasks| && 0 <= b < |tasks[a].points| && Before(a, b, i, j) ==>
      tasks[a].points[b] in finished || tasks[a].points[b].pointId in baseSeen
  }

  /** Nothing lies before the first position. */
  lemma CoveredAtStart(tasks: seq<Task>, finished: set<PointDetail>, baseSeen: set<PointId>)
    ensures CoveredBefore(tasks, 0, 0, finished, baseSeen)
  {
  }

  /** Flooding: a level-2 step keeps everything behind the cursor covered,
      counting the base controller's resolved points of this pull. */
  lemma ResumeLevel2Covers(tasks: seq<Task>, i: nat, j: nat, s: GenState, baseResolved: set<PointId>, baseSeen: set<PointId>)
    requires i <= |tasks| && (i < |tasks| ==> j <= |tasks[i].points|)
    requires CoveredBefore(tasks, i, j, s.finished, baseSeen)
    ensures var r := ResumeLevel2(tasks, i, j, s, baseResolved);
      CoveredBefore(tasks, r.1.cursor.cell, r.1.cursor.point, r.1.finished, baseSeen + baseResolved)
  {
    NextLevel2Exact(tasks, i, j, s.finished, baseResolved);
  }

  // ---------------------------------------------------------------------
  // One pull, as a function of the generator state

  /** Runs the current pass from the cursor to its next yield, or to its end
      (cursor `Level2At(|tasks|, 0)`). */
  function Resume(tasks: seq<Task>, s: GenState, resolved: set<CellId>, baseResolved: set<PointId>)
    : (r: (Option<PointDetail>, GenState))
    requires CursorOk(tasks, s.cursor) && (s.cursor.Level1At? || s.cursor.Level2At?)
    ensures CursorOk(tasks, r.1.cursor) && (r.1.cursor.Level1At? || r.1.cursor.Level2At?)
    ensures r.0.None? ==> r.1.cursor == Level2At(|tasks|, 0)
  {
    match s.cursor
    case Level1At(i) =>
      var stop := ScanLevel1(tasks, i, s.skipRef, resolved);
      var s1 := s.(skipRef := stop.skipRef, skipped := s.skipped + stop.skipped);
      if stop.next < |tasks| then
        var pd := tasks[stop.next].points[0];
        (Some(pd), s1.(cursor := Level1At(stop.next + 1), finished := s.finished + {pd}))
      else
        ResumeLevel2(tasks, 0, 0, s1, baseResolved)
    case Level2At(i, j) =>
      ResumeLevel2(tasks, i, j, s, baseResolved)
  }

  /** Resume at level 1 when the scan finds a cell to yield from. */
  lemma ResumeLevel1Yield(tasks: seq<Task>, s: GenState, resolved: set<CellId>, baseResolved: set<PointId>)
    requires s.cursor.Level1At? && s.cursor.cell <= |tasks|
    requires ScanLevel1(tasks, s.cursor.cell, s.skipRef, resolved).next < |tasks|
    ensures var stop := ScanLevel1(tasks, s.cursor.cell, s.skipRef, resolved);
            var pd := tasks[stop.next].points[0];
      Resume(tasks, s, resolved, baseResolved)
        == (Some(pd), GenState(Level1At(stop.next + 1), stop.skipRef, s.finished + {pd}, s.skipped + stop.skipped))
  {
  }

  /** Resume at level 1 when the scan runs off the end: level 2 starts at
      the first neighbour of the first cell. */
  lemma ResumeLevel1Through(tasks: seq<Task>, s: GenState, resolved: set<CellId>, baseResolved: set<PointId>)
    requires s.cursor.Level1At? && s.cursor.cell <= |tasks|
    requires ScanLevel1(tasks, s.cursor.cell, s.skipRef, resolved).next == |tasks|
    ensures var stop := ScanLevel1(tasks, s.cursor.cell, s.skipRef, resolved);
      Resume(tasks, s, resolved, baseResolved)
        == ResumeLevel2(tasks, 0, 0, GenState(Level2At(0, 0), stop.skipRef, s.finished, s.skipped + stop.skipped), baseResolved)
  {
    var stop := ScanLevel1(tasks, s.cursor.cell, s.skipRef, resolved);
    var s1 := s.(skipRef := stop.skipRef, skipped := s.skipped + stop.skipped);
    assert ResumeLevel2(tasks, 0, 0, s1, baseResolved) == ResumeLevel2(tasks, 0, 0, s1.(cursor := Level2At(0, 0)), baseResolved);
  }

  function ResumeLevel2(tasks: seq<Task>, i: nat, j: nat, s: GenState, baseResolved: set<PointId>)
    : (r: (Option<PointDetail>, GenState))
    requires i <= |tasks| && (i < |tasks| ==> j <= |tasks[i].points|)
    ensures CursorOk(tasks, r.1.cursor) && r.1.cursor.Level2At?
    ensures r.0.None? ==> r.1.cursor == Level2At(|tasks|, 0)
  {
    match NextLevel2(tasks, i, j, s.finished, baseResolved)
    case Some(pos) =>
      var pd := tasks[pos.0].points[pos.1];
      (Some(pd), s.(cursor := Level2At(pos.0, pos.1 + 1), finished := s.finished + {pd}))
    case None =>
      (None, s.(cursor := Level2At(|tasks|, 0)))
  }

  /** One pull.  When a pass ends without a yield the do-while condition is
      read: an empty rejected set ends the sequence; otherwise a fresh pass
      starts (reference and `finishedPds` reset).  If that fresh pass also
      ends without a yield, every later pass starts from the same state and
      sees the same inputs, so the source loops forever inside this pull;
      the model reports `NoConvergence` instead. */
  function PullSpec(tasks: seq<Task>, s: GenState, resolved: set<CellId>, baseResolved: set<PointId>, rejectedNonEmpty: bool)
    : (r: (Pull, GenState))
    requires CursorOk(tasks, s.cursor)
    ensures CursorOk(tasks, r.1.cursor)
  {
    if s.cursor.Exhausted? then (End, s)
    else if s.cursor.Hung? then (NoConvergence, s)
    else
      var res := Resume(tasks, s, resolved, baseResolved);
      if res.0.Some? then (Next(res.0.value.pointId), res.1)
      else if !rejectedNonEmpty then (End, res.1.(cursor := Exhausted))
      else RetrySpec(tasks, res.1.skipped, resolved, baseResolved)
  }

  /** The do-while loop going round: a fresh pass, reference and
      `finishedPds` reset, the skip log kept. */
  function RetrySpec(tasks: seq<Task>, skipped: seq<CellId>, resolved: set<CellId>, baseResolved: set<PointId>)
    : (r: (Pull, GenState))
    ensures CursorOk(tasks, r.1.cursor)
  {
    var res := Resume(tasks, GenState(Level1At(0), None, {}, skipped), resolved, baseResolved);
    if res.0.Some? then (Next(res.0.value.pointId), res.1)
    else (NoConvergence, res.1.(cursor := Hung))
  }

  /** How many more yields the current pass can make at most. */
  function Remaining(tasks: seq<Task>, c: Cursor): nat
    requires CursorOk(tasks, c)
  {
    match c
    case Level1At(i) => |tasks| - i + PointsFrom(tasks, 0, 0)
    case Level2At(i, j) => PointsFrom(tasks, i, j)
    case _ => 0
  }

  /** Termination: while the rejected set is empty, each pull either ends
      the sequence for good or yields and strictly lowers `Remaining`, so a
      pass started at `Level1At(0)` ends within |tasks| + (number of
      neighbours) + 1 pulls and no second pass is started. */
  lemma PullWithoutRejections(tasks: seq<Task>, s: GenState, resolved: set<CellId>, baseResolved: set<PointId>)
    requires CursorOk(tasks, s.cursor) && !s.cursor.Hung?
    ensures var r := PullSpec(tasks, s, resolved, baseResolved, false);
      && !r.0.NoConvergence?
      && (r.0.End? <==> r.1.cursor.Exhausted?)
      && (r.0.Next? ==> Remaining(tasks, r.1.cursor) < Remaining(tasks, s.cursor))
  {
  }

  /** Once a pull has ended the sequence it stays ended: every later pull,
      whatever the resolved cells and the base controller say by then,
      answers `End` and changes nothing. */
  lemma EndIsFinal(tasks: seq<Task>, s: GenState, resolved: set<CellId>, baseResolved: set<PointId>, rejectedNonEmpty: bool,
                   resolved': set<CellId>, baseResolved': set<PointId>, rejectedNonEmpty': bool)
    requires CursorOk(tasks, s.cursor)
    requires PullSpec(tasks, s, resolved, baseResolved, rejectedNonEmpty).0.End?
    ensures var s' := PullSpec(tasks, s, resolved, baseResolved, rejectedNonEmpty).1;
      PullSpec(tasks, s', resolved', baseResolved', rejectedNonEmpty') == (End, s')
  {
  }

  // ---------------------------------------------------------------------
  // The two scans as loops

  /** `r` with `pre` logged before its own skips. */
  function AfterSkips(pre: seq<CellId>, r: Level1Stop): Level1Stop {
    r.(skipped := pre + r.skipped)
  }

  lemma AfterSkipsTwice(pre: seq<CellId>, id: CellId, r: Level1Stop)
    ensures AfterSkips(pre, AfterSkips([id], r)) == AfterSkips(pre + [id], r)
  {
    assert pre + ([id] + r.skipped) == (pre + [id]) + r.skipped;
  }

  /** The level-1 `for` loop of `doBroadcast`, from cell `i0` to the first
      yield. */
  method RunLevel1(tasks: seq<Task>, i0: nat, ref0: Option<MinPointDetail>, resolved: set<CellId>)
    returns (r: Level1Stop)
    requires i0 <= |tasks|
    ensures r == ScanLevel1(tasks, i0, ref0, resolved)
  {
    ghost var goal := ScanLevel1(tasks, i0, ref0, resolved);
    var i, ref, skipped := i0, ref0, [];
    assert AfterSkips([], goal) == goal;
    while i < |tasks|
      invariant i0 <= i <= |tasks|
      invariant goal == AfterSkips(skipped, ScanLevel1(tasks, i, ref, resolved))
      decreases |tasks| - i
    {
      var t := tasks[i];
      if ref.Some? && Dominated(t.cell, ref.value) {
        AfterSkipsTwice(skipped, t.cell.minPointId, ScanLevel1(tasks, i + 1, ref, resolved));
        skipped := skipped + [t.cell.minPointId];
        i := i + 1;
        continue;
      }
      if |t.points| > 0 {
        var pd := t.points[0];
        if pd.minPointId in resolved {
          AfterSkipsTwice(skipped, t.cell.minPointId, ScanLevel1(tasks, i + 1, Some(t.cell), resolved));
          ref := Some(t.cell);
          skipped := skipped + [t.cell.minPointId];
        } else {
          assert skipped + [] == skipped;
          return Level1Stop(i, ref, skipped);
        }
      }
      i := i + 1;
    }
    assert skipped + [] == skipped;
    r := Level1Stop(i, ref, skipped);
  }

  /** The level-2 nested `for` loops of `doBroadcast`, from position
      (i0, j0) to the next neighbour to yield. */
  method RunLevel2(tasks: seq<Task>, i0: nat, j0: nat, finished: set<PointDetail>, baseResolved: set<PointId>)
    returns (r: Option<(nat, nat)>)
    requires i0 <= |tasks| && (i0 < |tasks| ==> j0 <= |tasks[i0].points|)
    ensures r == NextLevel2(tasks, i0, j0, finished, baseResolved)
  {
    var i: nat, j: nat := i0, j0;
    while i < |tasks|
      invariant i0 <= i <= |tasks|
      invariant i < |tasks| ==> j <= |tasks[i].points|
      invariant NextLevel2(tasks, i, j, finished, baseResolved) == NextLevel2(tasks, i0, j0, finished, baseResolved)
      decreases |tasks| - i
    {
      var points := tasks[i].points;
      while j < |points|
        invariant j <= |points|
        invariant NextLevel2(tasks, i, j, finished, baseResolved) == NextLevel2(tasks, i0, j0, finished, baseResolved)
      {
        var pd := points[j];
        if pd !in finished && pd.pointId !in baseResolved {
          return Some((i, j));
        }
        j := j + 1;
      }
      i, j := i + 1, 0;
    }
    r := None;
  }

  // ---------------------------------------------------------------------
  // What one pass has yielded

  /** The points yielded in the current pass (`emitted`), and for the level-1
      ones, the cell each came from (`l1`): distinct points, level-1 yields
      first, each the top neighbour of its cell, from strictly increasing
      cells, all before the cursor while level 1 runs. */
  ghost predicate PassTrace(tasks: seq<Task>, cursor: Cursor, emitted: seq<PointDetail>, l1: seq<nat>) {
    && NoDuplicates(emitted)
    && |l1| <= |emitted|
    && (forall n :: 0 <= n < |l1| ==>
          l1[n] < |tasks| && |tasks[l1[n]].points| > 0 && emitted[n] == tasks[l1[n]].points[0])
    && (forall n1, n2 :: 0 <= n1 < n2 < |l1| ==> l1[n1] < l1[n2])
    && (cursor.Level1At? ==> |l1| == |emitted| && forall n :: 0 <= n < |l1| ==> l1[n] < cursor.cell)
  }

  /** Single candidate per cell: the level-1 yields of one pass come from
      pairwise different cells. */
  lemma Level1OnePerCell(tasks: seq<Task>, cursor: Cursor, emitted: seq<PointDetail>, l1: seq<nat>)
    requires WellFormed(tasks) && PassTrace(tasks, cursor, emitted, l1)
    ensures forall n1, n2 :: 0 <= n1 < n2 < |l1| ==> emitted[n1].minPointId != emitted[n2].minPointId
  {
    forall n1, n2 | 0 <= n1 < n2 < |l1| ensures emitted[n1].minPointId != emitted[n2].minPointId {
      assert emitted[n1].minPointId == tasks[l1[n1]].cell.minPointId;
      assert emitted[n2].minPointId == tasks[l1[n2]].cell.minPointId;
    }
  }

  /** A cell level 1 reaches has not had its top neighbour yielded yet in
      this pass: level 1 never checks `finishedPds`, and needs no check,
      because the cells are distinct and every neighbour sits in its own. */
  lemma Level1HeadIsFresh(tasks: seq<Task>, cur: nat, next: nat, emitted: seq<PointDetail>, l1: seq<nat>)
    requires WellFormed(tasks) && PassTrace(tasks, Level1At(cur), emitted, l1)
    requires cur <= next < |tasks| && |tasks[next].points| > 0
    ensures tasks[next].points[0] !in emitted
  {
    forall n | 0 <= n < |emitted| ensures emitted[n] != tasks[next].points[0] {
      assert emitted[n].minPointId == tasks[l1[n]].cell.minPointId;
    }
  }

  /** A level-1 yield extends the trace by the top neighbour of its cell. */
  lemma PassTraceLevel1Step(tasks: seq<Task>, cur: nat, next: nat, emitted: seq<PointDetail>, l1: seq<nat>)
    requires WellFormed(tasks) && PassTrace(tasks, Level1At(cur), emitted, l1)
    requires cur <= next < |tasks| && |tasks[next].points| > 0
    ensures PassTrace(tasks, Level1At(next + 1), emitted + [tasks[next].points[0]], l1 + [next])
  {
    Level1HeadIsFresh(tasks, cur, next, emitted, l1);
  }

  /** A level-2 yield of a point not yielded before extends the trace. */
  lemma PassTraceLevel2Step(tasks: seq<Task>, c: Cursor, c': Cursor, emitted: seq<PointDetail>, l1: seq<nat>, pd: PointDetail)
    requires PassTrace(tasks, c, emitted, l1) && pd !in emitted && !c'.Level1At?
    ensures PassTrace(tasks, c', emitted + [pd], l1)
  {
  }

  /** Leaving level 1 keeps the trace. */
  lemma PassTraceLeaveLevel1(tasks: seq<Task>, c: Cursor, c': Cursor, emitted: seq<PointDetail>, l1: seq<nat>)
    requires PassTrace(tasks, c, emitted, l1) && !c'.Level1At?
    ensures PassTrace(tasks, c', emitted, l1)
  {
  }

  // ---------------------------------------------------------------------
  // The strategy object

  class MatrixBroadcast {
    const allPointDetailMap: map<PointId, PointDetail>
    const allMinPointDetailMap: map<CellId, MinPointDetail>
    const todoTasks: seq<Task>
    var resolvedMinPointIds: set<CellId>
    var level: int
    var cursor: Cursor
    var skipRef: Option<MinPointDetail>
    var finishedPds: set<PointDetail>
    var skippedLog: seq<CellId>
    ghost var passYields: seq<PointDetail>
    ghost var level1Cells: seq<nat>
    ghost var baseSeen: set<PointId>

    /** A cell id of some known neighbour. */
    ghost predicate KnownCell(c: CellId)
      reads this
    {
      exists p :: p in allPointDetailMap && allPointDetailMap[p].minPointId == c
    }

    ghost predicate Valid()
      reads this
    {
      && WellFormed(todoTasks)
      && (forall c :: c in resolvedMinPointIds ==> KnownCell(c))
      && CursorOk(todoTasks, cursor)
      && level == LevelOf(cursor)
      && (forall x :: x in finishedPds <==> x in passYields)
      && PassTrace(todoTasks, cursor, passYields, level1Cells)
      && (cursor.Level2At? ==> CoveredBefore(todoTasks, cursor.cell, cursor.point, finishedPds, baseSeen))
      && (cursor.Exhausted? ==> CoveredBefore(todoTasks, |todoTasks|, 0, finishedPds, baseSeen))
    }

    function State(): GenState
      reads this
    {
      GenState(cursor, skipRef, finishedPds, skippedLog)
    }

    /** Builds the index (`_init`) and leaves the generator before its first
        pull. */
    constructor (connected: seq<PointId>, placeOf: PointId -> Placement, cellPlaceOf: CellId -> CellPlacement)
      requires NoDuplicates(connected)
      ensures Valid()
      ensures allPointDetailMap == PointDetailMap(connected, placeOf)
      ensures allMinPointDetailMap == CellDetailMap(RankedCells(Details(connected, placeOf), cellPlaceOf))
      ensures todoTasks == TodoTasks(Details(connected, placeOf), cellPlaceOf)
      ensures resolvedMinPointIds == {} && level == 1
      ensures State() == GenState(Level1At(0), None, {}, [])
      ensures baseSeen == {}
    {
      var pointMap, cellMap, tasks := BuildIndex(connected, placeOf, cellPlaceOf);
      TodoTasksWellFormed(Details(connected, placeOf), cellPlaceOf);
      allPointDetailMap := pointMap;
      allMinPointDetailMap := cellMap;
      todoTasks := tasks;
      resolvedMinPointIds := {};
      level := 1;
      cursor := Level1At(0);
      skipRef := None;
      finishedPds := {};
      skippedLog := [];
      passYields := [];
      level1Cells := [];
      baseSeen := {};
    }

    /** `hasResolvedMinPointId`; only cells of known neighbours are ever
        resolved. */
    function HasResolvedMinPointId(c: CellId): (r: bool)
      reads this
      requires Valid()
      ensures r ==> KnownCell(c)
    {
      c in resolvedMinPointIds
    }

    /** `currentLevel`: 1 while the level-1 scan is under way, 2 otherwise. */
    function CurrentLevel(): (l: int)
      reads this
      requires Valid()
      ensures l == 1 || l == 2
      ensures l == 1 <==> cursor.Level1At?
    {
      level
    }

    /** `resolvePoint`: an unknown point is ignored; a known one marks its
        cell resolved and the base controller's own answer (`delegated`) is
        returned. */
    method ResolvePoint(point: PointId, delegated: bool) returns (ok: bool)
      requires Valid()
      modifies this`resolvedMinPointIds
      ensures Valid()
      ensures point !in allPointDetailMap ==> !ok && resolvedMinPointIds == old(resolvedMinPointIds)
      ensures point in allPointDetailMap ==>
        && ok == delegated
        && resolvedMinPointIds == old(resolvedMinPointIds) + {allPointDetailMap[point].minPointId}
        && HasResolvedMinPointId(allPointDetailMap[point].minPointId)
    {
      if point !in allPointDetailMap {
        return false;
      }
      var pointDetail := allPointDetailMap[point];
      resolvedMinPointIds := resolvedMinPointIds + {pointDetail.minPointId};
      ok := delegated;
    }

    /** The level-2 part of a resume: from the cursor to the next eligible
        neighbour, or to the end of the pass. */
    method ResumeLevel2At(baseResolved: set<PointId>) returns (y: Option<PointDetail>)
      requires Valid() && cursor.Level2At?
      modifies this`cursor, this`finishedPds, this`passYields, this`baseSeen
      ensures Valid()
      ensures (y, State()) == ResumeLevel2(todoTasks, old(cursor.cell), old(cursor.point), old(State()), baseResolved)
      ensures baseSeen == old(baseSeen) + baseResolved
      ensures y.Some? ==> passYields == old(passYields) + [y.value]
      ensures y.None? ==> passYields == old(passYields)
    {
      ghost var s0 := State();
      ghost var res := ResumeLevel2(todoTasks, cursor.cell, cursor.point, s0, baseResolved);
      ResumeLevel2Covers(todoTasks, cursor.cell, cursor.point, s0, baseResolved, baseSeen);
      baseSeen := baseSeen + baseResolved;
      var found := RunLevel2(todoTasks, cursor.cell, cursor.point, finishedPds, baseResolved);
      if found.Some? {
        var pointDetail := todoTasks[found.value.0].points[found.value.1];
        assert res == (Some(pointDetail), s0.(cursor := Level2At(found.value.0, found.value.1 + 1), finished := s0.finished + {pointDetail}));
        PassTraceLevel2Step(todoTasks, cursor, Level2At(found.value.0, found.value.1 + 1), passYields, level1Cells, pointDetail);
        finishedPds := finishedPds + {pointDetail};
        passYields := passYields + [pointDetail];
        cursor := Level2At(found.value.0, found.value.1 + 1);
        return Some(pointDetail);
      }
      assert res == (None, s0.(cursor := Level2At(|todoTasks|, 0)));
      PassTraceLeaveLevel1(todoTasks, cursor, Level2At(|todoTasks|, 0), passYields, level1Cells);
      cursor := Level2At(|todoTasks|, 0);
      return None;
    }

    /** Level 1 yields the top neighbour of cell `stop.next`, where its scan
        stopped. */
    method YieldHead(stop: Level1Stop) returns (y: Option<PointDetail>)
      requires Valid() && cursor.Level1At? && cursor.cell <= stop.next < |todoTasks|
      requires |todoTasks[stop.next].points| > 0
      modifies this`cursor, this`skipRef, this`finishedPds, this`skippedLog, this`passYields, this`level1Cells
      ensures Valid()
      ensures y == Some(todoTasks[stop.next].points[0])
      ensures State() == GenState(Level1At(stop.next + 1), stop.skipRef, old(finishedPds) + {y.value},
                                  old(skippedLog) + stop.skipped)
      ensures passYields == old(passYields) + [y.value]
    {
      var pointDetail := todoTasks[stop.next].points[0];
      PassTraceLevel1Step(todoTasks, cursor.cell, stop.next, passYields, level1Cells);
      skipRef := stop.skipRef;
      skippedLog := skippedLog + stop.skipped;
      finishedPds := finishedPds + {pointDetail};
      passYields := passYields + [pointDetail];
      level1Cells := level1Cells + [stop.next];
      cursor := Level1At(stop.next + 1);
      return Some(pointDetail);
    }

    /** Level 1 ran off the end of the cell list: level 2 starts at the
        first neighbour of the first cell. */
    method EnterLevel2(stop: Level1Stop, baseResolved: set<PointId>) returns (y: Option<PointDetail>)
      requires Valid() && cursor.Level1At?
      modifies this`level, this`cursor, this`skipRef, this`finishedPds, this`skippedLog, this`passYields, this`baseSeen
      ensures Valid()
      ensures (y, State()) == ResumeLevel2(todoTasks, 0, 0, GenState(Level2At(0, 0), stop.skipRef, old(finishedPds),
                                                                      old(skippedLog) + stop.skipped), baseResolved)
      ensures baseSeen == old(baseSeen) + baseResolved
      ensures y.Some? ==> passYields == old(passYields) + [y.value]
      ensures y.None? ==> passYields == old(passYields)
    {
      PassTraceLeaveLevel1(todoTasks, cursor, Level2At(0, 0), passYields, level1Cells);
      CoveredAtStart(todoTasks, finishedPds, baseSeen);
      skipRef := stop.skipRef;
      skippedLog := skippedLog + stop.skipped;
      level := 2;
      cursor := Level2At(0, 0);
      y := ResumeLevel2At(baseResolved);
    }

    /** The level-1 part of a resume: scan on from the cursor; yield the top
        neighbour of the first candidate cell, or go on to level 2. */
    method ResumeLevel1At(baseResolved: set<PointId>) returns (y: Option<PointDetail>)
      requires Valid() && cursor.Level1At?
      modifies this`level, this`cursor, this`skipRef, this`finishedPds, this`skippedLog, this`passYields, this`level1Cells, this`baseSeen
      ensures Valid()
      ensures (y, State()) == Resume(todoTasks, old(State()), resolvedMinPointIds, baseResolved)
      ensures baseSeen <= old(baseSeen) + baseResolved
      ensures y.Some? ==> passYields == old(passYields) + [y.value]
      ensures y.None? ==> passYields == old(passYields)
    {
      ghost var s0 := State();
      var stop := RunLevel1(todoTasks, cursor.cell, skipRef, resolvedMinPointIds);
      if stop.next < |todoTasks| {
        ResumeLevel1Yield(todoTasks, s0, resolvedMinPointIds, baseResolved);
        y := YieldHead(stop);
      } else {
        ResumeLevel1Through(todoTasks, s0, resolvedMinPointIds, baseResolved);
        y := EnterLevel2(stop, baseResolved);
      }
    }

    /** Runs the current pass to its next yield or to its end. */
    method ResumePass(baseResolved: set<PointId>) returns (y: Option<PointDetail>)
      requires Valid() && (cursor.Level1At? || cursor.Level2At?)
      modifies this`level, this`cursor, this`skipRef, this`finishedPds, this`skippedLog, this`passYields, this`level1Cells, this`baseSeen
      ensures Valid()
      ensures (y, State()) == Resume(todoTasks, old(State()), resolvedMinPointIds, baseResolved)
      ensures baseSeen <= old(baseSeen) + baseResolved
      ensures y.Some? ==> passYields == old(passYields) + [y.value]
      ensures y.None? ==> passYields == old(passYields)
    {
      if cursor.Level1At? {
        y := ResumeLevel1At(baseResolved);
      } else {
        y := ResumeLevel2At(baseResolved);
      }
    }

    /** The start of a pass: back to the first cell with no skip reference
        and an empty `finishedPds`; the skip log is kept. */
    method StartPass()
      requires Valid()
      modifies this`level, this`cursor, this`skipRef, this`finishedPds, this`passYields, this`level1Cells, this`baseSeen
      ensures Valid()
      ensures State() == GenState(Level1At(0), None, {}, old(skippedLog))
      ensures baseSeen == {}
      ensures passYields == []
    {
      level := 1;
      skipRef := None;
      finishedPds := {};
      cursor := Level1At(0);
      passYields := [];
      level1Cells := [];
      baseSeen := {};
    }

    /** The do-while loop going round: a new pass from the first cell. */
    method RetryPass(baseResolved: set<PointId>) returns (r: Pull)
      requires Valid()
      modifies this`level, this`cursor, this`skipRef, this`finishedPds, this`skippedLog, this`passYields, this`level1Cells, this`baseSeen
      ensures Valid()
      ensures (r, State()) == RetrySpec(todoTasks, old(skippedLog), resolvedMinPointIds, baseResolved)
      ensures baseSeen <= baseResolved
      ensures r.Next? ==> passYields == [passYields[0]] && passYields[0].pointId == r.point
      ensures r.NoConvergence? ==> passYields == []
    {
      StartPass();
      ghost var res := Resume(todoTasks, State(), resolvedMinPointIds, baseResolved);
      var y := ResumePass(baseResolved);
      assert (y, State()) == res;
      if y.Some? {
        return Next(y.value.pointId);
      }
      PassTraceLeaveLevel1(todoTasks, cursor, Hung, passYields, level1Cells);
      cursor := Hung;
      return NoConvergence;
    }

    /** One pull of the `doBroadcast` generator.  `baseResolved` is the base
        controller's resolved points and `rejectedNonEmpty` whether its
        rejected set is non-empty, both as they stand at this pull. */
    method PullNext(baseResolved: set<PointId>, rejectedNonEmpty: bool) returns (r: Pull)
      requires Valid()
      modifies this`level, this`cursor, this`skipRef, this`finishedPds, this`skippedLog, this`passYields, this`level1Cells, this`baseSeen
      ensures Valid()
      ensures (r, State()) == PullSpec(todoTasks, old(State()), resolvedMinPointIds, baseResolved, rejectedNonEmpty)
      ensures baseSeen <= old(baseSeen) + baseResolved
      ensures r.Next? ==> |passYields| > 0 && passYields[|passYields| - 1].pointId == r.point
      ensures r.Next? ==> passYields[..|passYields| - 1] == old(passYields) || |passYields| == 1
      ensures r.End? ==> CoveredBefore(todoTasks, |todoTasks|, 0, finishedPds, baseSeen)
      ensures (old(cursor).Level1At? || old(cursor).Level2At?) && r.Next?
              && Resume(todoTasks, old(State()), resolvedMinPointIds, baseResolved).0.Some?
              ==> passYields == old(passYields) + [passYields[|passYields| - 1]]
      ensures (old(cursor).Level1At? || old(cursor).Level2At?) && rejectedNonEmpty
              && Resume(todoTasks, old(State()), resolvedMinPointIds, baseResolved).0.None?
              ==> baseSeen <= baseResolved
    {
      if cursor.Exhausted? {
        return End;
      }
      if cursor.Hung? {
        return NoConvergence;
      }
      var y := ResumePass(baseResolved);
      if y.Some? {
        return Next(y.value.pointId);
      }
      if !rejectedNonEmpty {
        PassTraceLeaveLevel1(todoTasks, cursor, Exhausted, passYields, level1Cells);
        cursor := Exhausted;
        return End;
      }
      r := RetryPass(baseResolved);
    }
  }
}
