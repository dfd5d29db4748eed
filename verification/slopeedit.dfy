/** Changing a slope by dragging a slope handle up or down
    (`OnChangeTargetHeight`): the two ends of the handle's line move by the
    amount, the pivot handle's midpoint stays at its height, and the plane
    through these three points becomes the new floor or ceiling of every edited
    sector. */
module SlopeEdit {
  import opened Wrappers
  import opened Geometry
  import opened Levels
  import opened SlopeHandles

  // ---------------------------------------------------------------------------
  // The marked pivot.

  predicate GroupHasPivot(grp: HandleGroup)
  {
    exists j :: 0 <= j < |grp.handles| && grp.handles[j].pivot
  }

  /** The first handle of `hs` marked as pivot. */
  method FirstPivot(hs: seq<SlopeHandle>) returns (found: Option<nat>)
    ensures found.None? <==> forall j :: 0 <= j < |hs| ==> !hs[j].pivot
    ensures found.Some? ==> found.value < |hs| && hs[found.value].pivot
    ensures found.Some? ==> forall j :: 0 <= j < found.value ==> !hs[j].pivot
  {
    found := None;
    var j := 0;
    while j < |hs| && found.None?
      invariant 0 <= j <= |hs|
      invariant found.None? ==> forall k :: 0 <= k < j ==> !hs[k].pivot
      invariant found.Some? ==> found.value < |hs| && hs[found.value].pivot
      invariant found.Some? ==> forall k :: 0 <= k < found.value ==> !hs[k].pivot
    {
      if hs[j].pivot {
        found := Some(j);
      }
      j := j + 1;
    }
  }

  /** The pivot handle the drag uses when one is marked: the search leaves
      only the inner loop when it finds a pivot, so the result is the first
      marked handle of the LAST sector that has one. */
  predicate LastMarkedPivot(table: HandleTable, p: HandleRef)
  {
    && ValidRef(table, p)
    && At(table, p).pivot
    && (forall j :: 0 <= j < p.index ==> !table[p.group].handles[j].pivot)
    && (forall g :: p.group < g < |table| ==> !GroupHasPivot(table[g]))
  }

  /** The search over all sectors' handles for a marked pivot. */
  method FindPivot(table: HandleTable) returns (p: Option<HandleRef>)
    ensures p.None? <==> forall g :: 0 <= g < |table| ==> !GroupHasPivot(table[g])
    ensures p.Some? ==> LastMarkedPivot(table, p.value)
  {
    p := None;
    var g := 0;
    while g < |table|
      invariant 0 <= g <= |table|
      invariant p.None? ==> forall k :: 0 <= k < g ==> !GroupHasPivot(table[k])
      invariant p.Some? ==> p.value.group < g && ValidRef(table, p.value) && At(table, p.value).pivot
      invariant p.Some? ==> forall j :: 0 <= j < p.value.index ==> !table[p.value.group].handles[j].pivot
      invariant p.Some? ==> forall k :: p.value.group < k < g ==> !GroupHasPivot(table[k])
    {
      var found := FirstPivot(table[g].handles);
      if found.Some? {
        p := Some(HandleRef(g, found.value));
      }
      g := g + 1;
    }
  }

  // ---------------------------------------------------------------------------
  // The new plane.

  lemma CrossOrthogonal(a: Vec3, b: Vec3)
    ensures Dot(Cross(a, b), a) == 0.0 && Dot(Cross(a, b), b) == 0.0
  {
  }

  /** The upward-facing plane through three points. */
  function FitPlane(p1: Vec3, p2: Vec3, p3: Vec3): (pl: Plane)
    ensures Distance(pl, p1) == 0.0 && Distance(pl, p2) == 0.0 && Distance(pl, p3) == 0.0
    ensures pl.normal.z >= 0.0
  {
    var a := Sub(p1, p2);
    var b := Sub(p3, p2);
    var n := Cross(a, b);
    CrossOrthogonal(a, b);
    var up := if n.z < 0.0 then Vec3(-n.x, -n.y, -n.z) else n;
    assert Dot(up, a) == 0.0 && Dot(up, b) == 0.0;
    assert Distance(Plane(up, Dot(up, p2)), p1) == Dot(up, a);
    assert Distance(Plane(up, Dot(up, p2)), p3) == Dot(up, b);
    Plane(up, Dot(up, p2))
  }

  /** An end of the dragged handle's line, at its level's height rounded to a
      whole unit and moved by `amount`. */
  function DraggedPoint(level: SectorLevel, p: Vec2, amount: int): (v: Vec3)
    requires NonVertical(level.plane)
    ensures v.x == p.x && v.y == p.y
    ensures v.z == Round(ZAt(level.plane, p)) as real + amount as real
    ensures v.z == v.z.Floor as real
    ensures ZAt(level.plane, p) + amount as real - 0.5 <= v.z <= ZAt(level.plane, p) + amount as real + 0.5
  {
    Lift(p, (Round(ZAt(level.plane, p)) + amount) as real)
  }

  /** The middle of the pivot handle's line, at its level's height rounded to a
      whole unit. */
  function PivotPoint(pivot: SlopeHandle): (v: Vec3)
    requires NonVertical(pivot.level.plane)
    ensures Vec2(v.x, v.y) == Midpoint(pivot.lineStart, pivot.lineEnd)
    ensures v.z == Round(ZAt(pivot.level.plane, Vec2(v.x, v.y))) as real
    ensures v.z == v.z.Floor as real
    ensures ZAt(pivot.level.plane, Vec2(v.x, v.y)) - 0.5 <= v.z <= ZAt(pivot.level.plane, Vec2(v.x, v.y)) + 0.5
  {
    var mid := Midpoint(pivot.lineStart, pivot.lineEnd);
    Lift(mid, Round(ZAt(pivot.level.plane, mid)) as real)
  }

  /** The plane the drag of `handle` by `amount` around `pivot` produces. */
  function DraggedPlane(handle: SlopeHandle, pivot: SlopeHandle, amount: int): (pl: Plane)
    requires NonVertical(handle.level.plane) && NonVertical(pivot.level.plane)
    ensures Distance(pl, DraggedPoint(handle.level, handle.lineStart, amount)) == 0.0
    ensures Distance(pl, DraggedPoint(handle.level, handle.lineEnd, amount)) == 0.0
    ensures Distance(pl, PivotPoint(pivot)) == 0.0
    ensures pl.normal.z >= 0.0
  {
    FitPlane(
      DraggedPoint(handle.level, handle.lineStart, amount),
      DraggedPoint(handle.level, handle.lineEnd, amount),
      PivotPoint(pivot))
  }

  // ---------------------------------------------------------------------------
  // Writing the plane to the sectors.

  /** What the drag writes into one sector: its floor or its ceiling slope,
      and the matching height, which is None where the plane has no height. */
  datatype SectorUpdate =
    | FloorUpdate(sector: nat, plane: Plane, height: Option<int>)
    | CeilingUpdate(sector: nat, plane: Plane, height: Option<int>)

  /** The plane's height at the centre of a bounding box, truncated to an integer. */
  function HeightAt(pl: Plane, b: Box): Option<int>
  {
    if NonVertical(pl) then Some(Trunc(ZAt(pl, BoxCenter(b)))) else None
  }

  /** The new plane as an edited level stores it: as the floor when the level
      faces up and is not a 3D floor, otherwise as the ceiling facing down. */
  function RouteLevel(l: SectorLevel, pl: Plane): (u: SectorUpdate)
    ensures u.sector == l.sector.id
    ensures u.FloorUpdate? <==> l.plane.normal.z >= 0.0 && !l.extrafloor
    ensures u.FloorUpdate? ==> u.plane == pl
    ensures u.CeilingUpdate? ==> forall v :: Distance(u.plane, v) == -Distance(pl, v)
    ensures u.height.Some? <==> NonVertical(pl)
    ensures u.height.Some? ==> u.height.value == Trunc(ZAt(pl, BoxCenter(l.sector.bbox)))
  {
    if l.plane.normal.z >= 0.0 && !l.extrafloor then
      FloorUpdate(l.sector.id, pl, HeightAt(pl, l.sector.bbox))
    else
      var down := Inverted(pl);
      assert NonVertical(pl) ==> ZAt(down, BoxCenter(l.sector.bbox)) == ZAt(pl, BoxCenter(l.sector.bbox));
      CeilingUpdate(l.sector.id, down, HeightAt(down, l.sector.bbox))
  }

  /** The levels a drag edits: the handle's own level without a selection,
      otherwise the level of every selected surface. */
  function EditedLevels(handle: SlopeHandle, sel: seq<SelectedSurface>): (r: seq<SectorLevel>)
    ensures |sel| == 0 ==> r == [handle.level]
    ensures |sel| > 0 ==> |r| == |sel| && forall i :: 0 <= i < |sel| ==> r[i] == sel[i].level
  {
    if |sel| == 0 then [handle.level] else seq(|sel|, i requires 0 <= i < |sel| => sel[i].level)
  }

  /** Every handle's level is a floor or ceiling that has a height. */
  predicate LevelsHaveHeights(table: HandleTable)
  {
    forall g, j :: 0 <= g < |table| && 0 <= j < |table[g].handles| ==> NonVertical(table[g].handles[j].level.plane)
  }

  /** The outcome of a drag: the handle table (with its smart-pivot flags),
      whether an undo step was opened, and the sector changes in order. */
  datatype SlopeEditResult = SlopeEditResult(table: HandleTable, undo: bool, updates: seq<SectorUpdate>)

  /** The pivot of a drag: the marked pivot if there is one, the table then
      left as it is; otherwise the smart pivot, with the smart-pivot flags
      updated. */
  method ChoosePivot(table: HandleTable, handle: HandleRef, sel: seq<SelectedSurface>)
    returns (t: HandleTable, pivot: Option<HandleRef>)
    requires WellFormed(table) && ValidRef(table, handle) && SelectionInTable(table, sel)
    ensures SameShape(table, t)
    ensures pivot.Some? ==> ValidRef(table, pivot.value)
    ensures (exists g :: 0 <= g < |table| && GroupHasPivot(table[g])) ==>
              t == table && pivot.Some? && LastMarkedPivot(table, pivot.value)
    ensures (forall g :: 0 <= g < |table| ==> !GroupHasPivot(table[g])) ==>
              && (forall h :: ValidRef(table, h) ==> At(t, h) == At(table, h).(smartPivot := pivot == Some(h)))
              && (pivot.None? <==> |Candidates(table, handle, sel)| == 0)
              && (pivot.Some? ==> pivot.value in Candidates(table, handle, sel))
  {
    var marked := FindPivot(table);
    if marked.Some? {
      t, pivot := table, marked;
    } else {
      t, pivot := GetSmartPivotHandle(table, handle, sel);
    }
  }

  /** The new plane written to every edited level, in order. */
  method RouteAll(levels: seq<SectorLevel>, pl: Plane) returns (updates: seq<SectorUpdate>)
    ensures |updates| == |levels|
    ensures forall i :: 0 <= i < |levels| ==> updates[i] == RouteLevel(levels[i], pl)
  {
    updates := [];
    var i := 0;
    while i < |levels|
      invariant 0 <= i <= |levels|
      invariant |updates| == i
      invariant forall k :: 0 <= k < i ==> updates[k] == RouteLevel(levels[k], pl)
    {
      updates := updates + [RouteLevel(levels[i], pl)];
      i := i + 1;
    }
  }

  /** Drags the slope handle `handle` by `amount`. The pivot is the marked one
      if any, otherwise the smart pivot. Without a pivot nothing changes but the
      smart-pivot flags. */
  method OnChangeTargetHeight(table: HandleTable, handle: HandleRef, sel: seq<SelectedSurface>, amount: int)
    returns (r: SlopeEditResult, pivot: Option<HandleRef>)
    requires WellFormed(table) && ValidRef(table, handle) && SelectionInTable(table, sel)
    requires LevelsHaveHeights(table)
    ensures SameShape(table, r.table)
    ensures pivot.Some? ==> ValidRef(table, pivot.value)
    ensures (exists g :: 0 <= g < |table| && GroupHasPivot(table[g])) ==>
              r.table == table && pivot.Some? && LastMarkedPivot(table, pivot.value)
    ensures (forall g :: 0 <= g < |table| ==> !GroupHasPivot(table[g])) ==>
              && (forall h :: ValidRef(table, h) ==> At(r.table, h) == At(table, h).(smartPivot := pivot == Some(h)))
              && (pivot.None? <==> |Candidates(table, handle, sel)| == 0)
              && (pivot.Some? ==> pivot.value in Candidates(table, handle, sel))
    ensures r.undo <==> pivot.Some?
    ensures pivot.None? ==> r.updates == []
    ensures pivot.Some? ==>
              var levels := EditedLevels(At(table, handle), sel);
              var pl := DraggedPlane(At(table, handle), At(table, pivot.value), amount);
              && |r.updates| == |levels|
              && forall i :: 0 <= i < |levels| ==> r.updates[i] == RouteLevel(levels[i], pl)
  {
    var t;
    t, pivot := ChoosePivot(table, handle, sel);
    if pivot.None? {
      r := SlopeEditResult(t, false, []);
    } else {
      var levels := EditedLevels(At(table, handle), sel);
      var pl := DraggedPlane(At(table, handle), At(table, pivot.value), amount);
      var updates := RouteAll(levels, pl);
      r := SlopeEditResult(t, true, updates);
    }
  }
}
