/** Slope handles of the visual mode: one handle per (sidedef, level) pair,
    drawn along the sidedef's line. This module holds the handle's angle and
    pick rectangle, and the choice of a "smart" pivot handle when the user drags
    a handle without having marked a pivot. */
module SlopeHandles {
  import opened Wrappers
  import opened Geometry
  import opened Levels

  // ---------------------------------------------------------------------------
  // Angle and pick rectangle of one handle.

  /** Margin of the pick rectangle around the line, in map units. */
  const Size: real := 8.0

  /** The line's angle in whole degrees folded into [0, 180): a line and the
      same line reversed get the same value. */
  function NormalizedAngleDeg(angleDeg: int): (r: int)
    ensures 0 <= angleDeg < 360 ==> 0 <= r < 180
    ensures r == angleDeg || r == angleDeg - 180
  {
    if angleDeg >= 180 then angleDeg - 180 else angleDeg
  }

  /** Angles half a turn apart normalise to the same value. */
  lemma OppositeAnglesAgree(a: int)
    requires 0 <= a < 360
    ensures NormalizedAngleDeg(a) == NormalizedAngleDeg((a + 180) % 360)
  {
    if a >= 180 {
      assert (a + 180) % 360 == a - 180;
    } else {
      assert (a + 180) % 360 == a + 180;
    }
  }

  function MinReal(a: real, b: real): real { if a <= b then a else b }

  function MaxReal(a: real, b: real): real { if a >= b then a else b }

  function AbsReal(x: real): real { if x < 0.0 then -x else x }

  /** The rectangle in which the handle of the line v1-v2 can be picked: the
      line's bounding box grown by `Size` on every side. */
  function CreateBoundingBox(v1: Vec2, v2: Vec2): (b: Box)
    ensures InBox(b, v1) && InBox(b, v2)
    ensures b.x == MinReal(v1.x, v2.x) - Size && b.y == MinReal(v1.y, v2.y) - Size
    ensures b.x + b.width == MaxReal(v1.x, v2.x) + Size && b.y + b.height == MaxReal(v1.y, v2.y) + Size
    ensures b.width == AbsReal(v2.x - v1.x) + 2.0 * Size
    ensures b.height == AbsReal(v2.y - v1.y) + 2.0 * Size
  {
    var left := if v2.x < v1.x then v2.x else v1.x;
    var right := if v2.x > v1.x then v2.x else v1.x;
    var bottom := if v2.y > v1.y then v2.y else v1.y;
    var top := if v2.y < v1.y then v2.y else v1.y;
    Box(left - Size, top - Size, right - left + Size * 2.0, bottom - top + Size * 2.0)
  }

  // ---------------------------------------------------------------------------
  // The handle table.

  /** One handle: the sector of its sidedef, its level, its sidedef's line (start,
      end and angle in degrees) and its two flags. */
  datatype SlopeHandle = SlopeHandle(
    sidedefSector: nat,
    level: SectorLevel,
    lineStart: Vec2,
    lineEnd: Vec2,
    angleDeg: int,
    pivot: bool,
    smartPivot: bool)

  /** All handles of one sector, in list order. */
  datatype HandleGroup = HandleGroup(sector: nat, handles: seq<SlopeHandle>)

  /** The handles of all sectors, in the dictionary's enumeration order. */
  type HandleTable = seq<HandleGroup>

  /** A handle's identity: its position in the table. */
  datatype HandleRef = HandleRef(group: nat, index: nat)

  predicate ValidRef(table: HandleTable, r: HandleRef)
  {
    r.group < |table| && r.index < |table[r.group].handles|
  }

  function At(table: HandleTable, r: HandleRef): SlopeHandle
    requires ValidRef(table, r)
  {
    table[r.group].handles[r.index]
  }

  /** A dictionary has at most one entry per sector. */
  predicate KeysDistinct(table: HandleTable)
  {
    forall i, j :: 0 <= i < |table| && 0 <= j < |table| && table[i].sector == table[j].sector ==> i == j
  }

  predicate HasGroup(table: HandleTable, sector: nat)
  {
    exists g :: 0 <= g < |table| && table[g].sector == sector
  }

  /** The entry of `sector` in the table. */
  function GroupOf(table: HandleTable, sector: nat): (g: nat)
    requires HasGroup(table, sector)
    ensures g < |table| && table[g].sector == sector
  {
    if table[0].sector == sector then 0
    else
      assert HasGroup(table[1..], sector) by {
        var g :| 0 <= g < |table| && table[g].sector == sector;
        assert table[1..][g - 1] == table[g];
      }
      1 + GroupOf(table[1..], sector)
  }

  /** A surface (floor or ceiling of a sector) selected in the visual mode. */
  datatype SelectedSurface = SelectedSurface(sector: nat, level: SectorLevel)

  // ---------------------------------------------------------------------------
  // Candidate pivots.

  /** The handles among the first `n` of group `g`, other than `start`, that
      lie on a level with id `levelId`. */
  function OthersOnLevel(table: HandleTable, start: HandleRef, g: nat, n: nat, levelId: nat): (r: seq<HandleRef>)
    requires g < |table| && n <= |table[g].handles|
    ensures forall h :: h in r <==> h.group == g && h.index < n && h != start && At(table, h).level.id == levelId
  {
    if n == 0 then []
    else
      var h := HandleRef(g, n - 1);
      OthersOnLevel(table, start, g, n - 1, levelId)
      + (if h != start && At(table, h).level.id == levelId then [h] else [])
  }

  /** The selected sectors, each once, in order of first selection. */
  function DistinctSectors(sel: seq<SelectedSurface>): (r: seq<nat>)
    ensures forall s :: s in r <==> exists k :: 0 <= k < |sel| && sel[k].sector == s
    ensures forall i, j :: 0 <= i < j < |r| ==> r[i] != r[j]
  {
    if |sel| == 0 then []
    else
      var init := DistinctSectors(sel[..|sel| - 1]);
      assert forall k :: 0 <= k < |sel| - 1 ==> sel[..|sel| - 1][k] == sel[k];
      if sel[|sel| - 1].sector in init then init else init + [sel[|sel| - 1].sector]
  }

  /** How many selected surfaces lie on the level `levelId`. */
  function Matches(sel: seq<SelectedSurface>, levelId: nat): (n: nat)
    ensures n > 0 <==> exists k :: 0 <= k < |sel| && sel[k].level.id == levelId
  {
    if |sel| == 0 then 0
    else
      assert forall k :: 0 <= k < |sel| - 1 ==> sel[..|sel| - 1][k] == sel[k];
      Matches(sel[..|sel| - 1], levelId) + (if sel[|sel| - 1].level.id == levelId then 1 else 0)
  }

  function Repeat(h: HandleRef, n: nat): (r: seq<HandleRef>)
    ensures |r| == n && forall x :: x in r ==> x == h
  {
    if n == 0 then [] else Repeat(h, n - 1) + [h]
  }

  /** The handles among the first `n` of group `g`, other than `start`, each
      repeated once per selected surface on its level. */
  function GroupMatches(table: HandleTable, start: HandleRef, sel: seq<SelectedSurface>, g: nat, n: nat): (r: seq<HandleRef>)
    requires g < |table| && n <= |table[g].handles|
    ensures forall h :: h in r <==> h.group == g && h.index < n && h != start && Matches(sel, At(table, h).level.id) > 0
  {
    if n == 0 then []
    else
      var h := HandleRef(g, n - 1);
      GroupMatches(table, start, sel, g, n - 1)
      + (if h != start then Repeat(h, Matches(sel, At(table, h).level.id)) else [])
  }

  /** The matches of every sector in `sectors`, sector after sector. */
  function SectorsMatches(table: HandleTable, start: HandleRef, sel: seq<SelectedSurface>, sectors: seq<nat>): (r: seq<HandleRef>)
    requires KeysDistinct(table)
    requires forall s :: s in sectors ==> HasGroup(table, s)
    ensures forall h :: h in r <==>
              ValidRef(table, h) && table[h.group].sector in sectors && h != start && Matches(sel, At(table, h).level.id) > 0
  {
    if |sectors| == 0 then []
    else
      var init := sectors[..|sectors| - 1];
      assert sectors == init + [sectors[|sectors| - 1]];
      var g := GroupOf(table, sectors[|sectors| - 1]);
      SectorsMatches(table, start, sel, init) + GroupMatches(table, start, sel, g, |table[g].handles|)
  }

  /** The table is a dictionary, and each group holds the handles of the
      sidedefs of its own sector. */
  predicate WellFormed(table: HandleTable)
  {
    && KeysDistinct(table)
    && forall g, j :: 0 <= g < |table| && 0 <= j < |table[g].handles| ==> table[g].handles[j].sidedefSector == table[g].sector
  }

  /** Every selected sector has handles: the dictionary lookup of a selected
      sector finds an entry. */
  predicate SelectionInTable(table: HandleTable, sel: seq<SelectedSurface>)
  {
    forall k :: 0 <= k < |sel| ==> HasGroup(table, sel[k].sector)
  }

  /** The handles that may become the smart pivot for `start`. Without a
      selection: the other handles of start's sector on start's level. With a
      selection: for each selected sector (once, in order of selection) and each
      of its handles other than `start`, the handle once per selected surface on
      the handle's level. */
  function Candidates(table: HandleTable, start: HandleRef, sel: seq<SelectedSurface>): (r: seq<HandleRef>)
    requires WellFormed(table) && ValidRef(table, start) && SelectionInTable(table, sel)
    ensures forall h :: h in r ==> ValidRef(table, h) && h != start
    ensures |sel| == 0 ==>
              forall h :: h in r <==>
                ValidRef(table, h) && h != start && At(table, h).sidedefSector == At(table, start).sidedefSector
                && SameLevel(At(table, h).level, At(table, start).level)
    ensures |sel| > 0 ==>
              forall h :: h in r <==>
                ValidRef(table, h) && h != start
                && (exists k :: 0 <= k < |sel| && sel[k].sector == At(table, h).sidedefSector)
                && (exists k :: 0 <= k < |sel| && SameLevel(sel[k].level, At(table, h).level))
  {
    if |sel| == 0 then
      OthersOnLevel(table, start, start.group, |table[start.group].handles|, At(table, start).level.id)
    else
      var sectors := DistinctSectors(sel);
      SectorsMatches(table, start, sel, sectors)
  }

  // ---------------------------------------------------------------------------
  // Choosing among the candidates.

  /** How far apart the normalised angles of two handles' lines are. */
  function AngleDiff(table: HandleTable, start: HandleRef, h: HandleRef): (d: nat)
    requires ValidRef(table, start) && ValidRef(table, h)
    ensures d == 0 <==> NormalizedAngleDeg(At(table, h).angleDeg) == NormalizedAngleDeg(At(table, start).angleDeg)
  {
    var d := NormalizedAngleDeg(At(table, start).angleDeg) - NormalizedAngleDeg(At(table, h).angleDeg);
    if d < 0 then -d else d
  }

  /** The squared distance from the middle of h's line to the (unbounded) line
      of `start`, times the squared length of start's line. For a line of
      non-zero length it orders handles as their distance does; for a line of
      length zero all handles tie. */
  function DistanceKey(table: HandleTable, start: HandleRef, h: HandleRef): (k: real)
    requires ValidRef(table, start) && ValidRef(table, h)
    ensures k >= 0.0
  {
    var s := At(table, start);
    var c := Midpoint(At(table, h).lineStart, At(table, h).lineEnd);
    var cross := Cross2(Sub2(s.lineEnd, s.lineStart), Sub2(c, s.lineStart));
    cross * cross
  }

  predicate AllValid(table: HandleTable, cands: seq<HandleRef>)
  {
    forall k :: 0 <= k < |cands| ==> ValidRef(table, cands[k])
  }

  /** Position m holds the first candidate with the smallest angle difference:
      the head of the candidates stably sorted by angle difference. */
  predicate FirstClosestAngle(table: HandleTable, start: HandleRef, cands: seq<HandleRef>, m: int)
    requires ValidRef(table, start) && AllValid(table, cands)
  {
    && 0 <= m < |cands|
    && (forall k :: 0 <= k < |cands| ==> AngleDiff(table, start, cands[m]) <= AngleDiff(table, start, cands[k]))
    && (forall k :: 0 <= k < m ==> AngleDiff(table, start, cands[k]) > AngleDiff(table, start, cands[m]))
  }

  /** Position i holds the first of the candidates with normalised angle
      `angle` that lies farthest from start's line: the head of those
      candidates stably sorted by descending distance. */
  predicate FirstFarthest(table: HandleTable, start: HandleRef, cands: seq<HandleRef>, angle: int, i: int)
    requires ValidRef(table, start) && AllValid(table, cands)
  {
    && 0 <= i < |cands|
    && NormalizedAngleDeg(At(table, cands[i]).angleDeg) == angle
    && (forall k :: 0 <= k < |cands| && NormalizedAngleDeg(At(table, cands[k]).angleDeg) == angle ==>
          DistanceKey(table, start, cands[k]) <= DistanceKey(table, start, cands[i]))
    && (forall k :: 0 <= k < i && NormalizedAngleDeg(At(table, cands[k]).angleDeg) == angle ==>
          DistanceKey(table, start, cands[k]) < DistanceKey(table, start, cands[i]))
  }

  /** The choice is determined: both orderings have one head. */
  lemma ChoiceIsUnique(table: HandleTable, start: HandleRef, cands: seq<HandleRef>, m1: int, m2: int, angle: int, i1: int, i2: int)
    requires ValidRef(table, start) && AllValid(table, cands)
    requires FirstClosestAngle(table, start, cands, m1) && FirstClosestAngle(table, start, cands, m2)
    requires FirstFarthest(table, start, cands, angle, i1) && FirstFarthest(table, start, cands, angle, i2)
    ensures m1 == m2 && i1 == i2
  {
  }

  /** The head of the candidates sorted by angle difference. */
  method ClosestAngle(table: HandleTable, start: HandleRef, cands: seq<HandleRef>) returns (m: nat)
    requires ValidRef(table, start) && AllValid(table, cands) && |cands| > 0
    ensures FirstClosestAngle(table, start, cands, m)
  {
    m := 0;
    var i := 1;
    while i < |cands|
      invariant 1 <= i <= |cands| && m < i
      invariant forall k :: 0 <= k < i ==> AngleDiff(table, start, cands[m]) <= AngleDiff(table, start, cands[k])
      invariant forall k :: 0 <= k < m ==> AngleDiff(table, start, cands[k]) > AngleDiff(table, start, cands[m])
    {
      if AngleDiff(table, start, cands[i]) < AngleDiff(table, start, cands[m]) {
        m := i;
      }
      i := i + 1;
    }
  }

  /** The head of the candidates that share the angle of position m, sorted by
      descending distance from start's line. No candidate before m has that
      angle, so the search starts at m. */
  method Farthest(table: HandleTable, start: HandleRef, cands: seq<HandleRef>, m: nat) returns (best: nat)
    requires ValidRef(table, start) && AllValid(table, cands)
    requires FirstClosestAngle(table, start, cands, m)
    ensures FirstFarthest(table, start, cands, NormalizedAngleDeg(At(table, cands[m]).angleDeg), best)
  {
    var angle := NormalizedAngleDeg(At(table, cands[m]).angleDeg);
    assert forall k :: 0 <= k < m ==> NormalizedAngleDeg(At(table, cands[k]).angleDeg) != angle;
    best := m;
    var i := m + 1;
    while i < |cands|
      invariant m < i <= |cands| && m <= best < i
      invariant NormalizedAngleDeg(At(table, cands[best]).angleDeg) == angle
      invariant forall k :: 0 <= k < i && NormalizedAngleDeg(At(table, cands[k]).angleDeg) == angle ==>
                  DistanceKey(table, start, cands[k]) <= DistanceKey(table, start, cands[best])
      invariant forall k :: 0 <= k < best && NormalizedAngleDeg(At(table, cands[k]).angleDeg) == angle ==>
                  DistanceKey(table, start, cands[k]) < DistanceKey(table, start, cands[best])
    {
      if NormalizedAngleDeg(At(table, cands[i]).angleDeg) == angle
         && DistanceKey(table, start, cands[i]) > DistanceKey(table, start, cands[best]) {
        best := i;
      }
      i := i + 1;
    }
  }

  // ---------------------------------------------------------------------------
  // The smart-pivot flags.

  /** Two tables with the same sectors and the same number of handles in each. */
  predicate SameShape(a: HandleTable, b: HandleTable)
  {
    && |a| == |b|
    && forall g :: 0 <= g < |a| ==> a[g].sector == b[g].sector && |a[g].handles| == |b[g].handles|
  }

  /** Every handle's smart-pivot flag set to whether it is `mark`. */
  function MarkOnly(table: HandleTable, mark: Option<HandleRef>): (r: HandleTable)
    ensures SameShape(table, r)
    ensures forall h :: ValidRef(table, h) ==> At(r, h) == At(table, h).(smartPivot := mark == Some(h))
  {
    seq(|table|, g requires 0 <= g < |table| =>
      HandleGroup(table[g].sector,
        seq(|table[g].handles|, j requires 0 <= j < |table[g].handles| =>
          table[g].handles[j].(smartPivot := mark == Some(HandleRef(g, j))))))
  }

  /** Picks the handle to pivot around when the user changes the slope at
      `start` without a marked pivot: among the candidates, those whose line is
      closest in angle to start's line, and among them the one farthest from
      start's line. Every smart-pivot flag is cleared and only the chosen
      handle's is set. There is no choice when there is no candidate. */
  method GetSmartPivotHandle(table: HandleTable, start: HandleRef, sel: seq<SelectedSurface>)
    returns (result: HandleTable, pivot: Option<HandleRef>)
    requires WellFormed(table) && ValidRef(table, start) && SelectionInTable(table, sel)
    ensures SameShape(table, result)
    ensures forall h :: ValidRef(table, h) ==> At(result, h) == At(table, h).(smartPivot := pivot == Some(h))
    ensures pivot.None? <==> |Candidates(table, start, sel)| == 0
    ensures pivot.Some? ==> pivot.value != start && pivot.value in Candidates(table, start, sel)
    ensures pivot.Some? ==>
              var cands := Candidates(table, start, sel);
              exists m, i ::
                && FirstClosestAngle(table, start, cands, m)
                && FirstFarthest(table, start, cands, NormalizedAngleDeg(At(table, cands[m]).angleDeg), i)
                && cands[i] == pivot.value
  {
    var cands := Candidates(table, start, sel);
    assert AllValid(table, cands) by {
      forall k | 0 <= k < |cands| ensures ValidRef(table, cands[k]) {
        assert cands[k] in cands;
      }
    }
    if |cands| == 0 {
      pivot := None;
    } else {
      var m := ClosestAngle(table, start, cands);
      var i := Farthest(table, start, cands, m);
      assert cands[i] in cands;
      pivot := Some(cands[i]);
    }
    result := MarkOnly(table, pivot);
  }
}
