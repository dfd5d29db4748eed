/** Building the triangles of one wall part (`CreatePolygonVertices`): the wall
    polygons are cut at every level of the sector's level stack that needs a
    seam, each piece below a level takes that level's light, and every piece is
    fan-triangulated.

    Brightness tables, colour modulation, texture projection and the glow /
    top-bottom colour blending are collaborators of the builder; they are passed
    in as functions. */
module WallMesh {
  import opened Wrappers
  import opened Geometry
  import opened Colour
  import opened Levels
  import opened Clipper

  /** One vertex of the wall mesh. */
  datatype WorldVertex = WorldVertex(pos: Vec3, color: PixelColor, uv: Vec2)

  /** The colour collaborators: the colour of a light level for this sidedef,
      and colour modulation. */
  datatype Shading = Shading(brightness: int -> PixelColor, modulate: (PixelColor, PixelColor) -> PixelColor)

  /** The sidedef's resolved light value and whether it is absolute, with the
      shading used to turn light levels into colours. */
  datatype WallLight = WallLight(shading: Shading, lightValue: int, absolute: bool)

  // ---------------------------------------------------------------------------
  // Light of a piece split off below a level.

  /** The light level of the wall part below `l`. Walls are lit by the sidedef's
      own light unless a 3D floor (with lighting) or a light transfer governs the
      space below the level, in which case the level's brightness wins. */
  function PieceLight(l: SectorLevel, light: WallLight): int
  {
    if l.levelType != LightLevel && (l.disableLighting || !l.extrafloor) then
      (if light.absolute then light.lightValue else l.brightnessBelow + light.lightValue)
    else l.brightnessBelow
  }

  /** Below a light transfer, or below a lit 3D floor, the wall takes the
      level's brightness and the sidedef's light has no say. Otherwise an
      absolute sidedef light replaces the level's brightness and a relative one
      is added to it. */
  lemma PieceLightRule(l: SectorLevel, light: WallLight)
    ensures l.levelType == LightLevel || (l.extrafloor && !l.disableLighting)
            ==> PieceLight(l, light) == l.brightnessBelow
    ensures l.levelType != LightLevel && !(l.extrafloor && !l.disableLighting) && light.absolute
            ==> PieceLight(l, light) == light.lightValue
    ensures l.levelType != LightLevel && !(l.extrafloor && !l.disableLighting) && !light.absolute
            ==> PieceLight(l, light) == l.brightnessBelow + light.lightValue
  {
  }

  /** A lit 3D floor or light transfer makes the piece's light independent of
      the sidedef's light settings. */
  lemma ThreeDFloorOverridesSidedefLight(l: SectorLevel, a: WallLight, b: WallLight)
    requires l.levelType == LightLevel || (l.extrafloor && !l.disableLighting)
    ensures PieceLight(l, a) == PieceLight(l, b)
  {
  }

  /** The colour given to a piece split off below `l` whose parent had colour
      `parent`: glow levels must not change the light, so the piece keeps the
      parent's colour; otherwise the level's colour modulated by the piece's
      light, fully opaque. */
  function PieceColor(l: SectorLevel, parent: PixelColor, light: WallLight): (r: PixelColor)
    ensures l.levelType == GlowLevel ==> r == parent
    ensures l.levelType != GlowLevel
            ==> r.a == 255 && r == WithAlpha(light.shading.modulate(l.colorBelow, light.shading.brightness(PieceLight(l, light))), 255)
  {
    if l.levelType == GlowLevel then parent
    else
      var wallbrightness := light.shading.brightness(PieceLight(l, light));
      WithAlpha(light.shading.modulate(l.colorBelow, wallbrightness), 255)
  }

  // ---------------------------------------------------------------------------
  // The level walk.

  /** A light level inside a "type 1" light band (after its upper boundary and
      before its lower one) is skipped, so the band gets no seam. */
  predicate InsideLightBand(prevlight: Option<SectorLevel>, l: SectorLevel)
  {
    && prevlight.Some?
    && prevlight.value.levelType == LightLevel && l.levelType == LightLevel
    && prevlight.value.lightType == Type1 && l.lightType != Type1Bottom
  }

  /** The sector's own floor and ceiling never cut its walls, and neither do
      floor-type levels unless they ask for split sides. */
  predicate CutsWalls(sd: SectorData, l: SectorLevel)
  {
    !SameLevel(l, sd.floor) && !SameLevel(l, sd.ceiling) && (l.levelType != FloorLevel || l.splitSides)
  }

  /** The plane a level cuts with: floor-type planes face up, so they are
      inverted to keep "in front" meaning "below the level". */
  function CutPlane(l: SectorLevel): (r: Plane)
    ensures l.levelType == FloorLevel ==> forall v :: Distance(r, v) == -Distance(l.plane, v)
    ensures l.levelType != FloorLevel ==> r == l.plane
  {
    if l.levelType == FloorLevel then Inverted(l.plane) else l.plane
  }

  /** `q` is the part of `p` behind the plane, with `p`'s colour. */
  predicate BackPiece(q: WallPolygon, p: WallPolygon, pl: Plane)
  {
    q.vertices == Split(PlaneCutter(pl), p.vertices).1 && q.color == p.color
  }

  /** `q` is the part of `p` in front of the plane (below the level), coloured
      for the level. */
  predicate FrontPiece(q: WallPolygon, p: WallPolygon, l: SectorLevel, light: WallLight)
  {
    q.vertices == Split(PlaneCutter(CutPlane(l)), p.vertices).0 && q.color == PieceColor(l, p.color, light)
  }

  /** The parts of `p` in front of (below) and behind (above) the level. */
  function FrontPart(p: WallPolygon, l: SectorLevel): seq<Vec3>
  {
    Split(PlaneCutter(CutPlane(l)), p.vertices).0
  }

  function BackPart(p: WallPolygon, l: SectorLevel): seq<Vec3>
  {
    Split(PlaneCutter(CutPlane(l)), p.vertices).1
  }

  /** The level cuts `p` in two: both parts are non-empty. */
  predicate CutInTwo(p: WallPolygon, l: SectorLevel)
  {
    FrontPart(p, l) != [] && BackPart(p, l) != []
  }

  /** What stays in the slot of `p`: its front piece when nothing of it is left
      above the level, otherwise its back piece. */
  predicate SlotPiece(q: WallPolygon, p: WallPolygon, l: SectorLevel, light: WallLight)
  {
    if FrontPart(p, l) != [] && BackPart(p, l) == [] then FrontPiece(q, p, l, light)
    else BackPiece(q, p, CutPlane(l))
  }

  /** How many of `ps` the level cuts in two. */
  function CutCount(ps: seq<WallPolygon>, l: SectorLevel): (n: nat)
    ensures n <= |ps|
  {
    if |ps| == 0 then 0 else (if CutInTwo(ps[0], l) then 1 else 0) + CutCount(ps[1..], l)
  }

  /** Counting the cuts of a prefix, one polygon at a time from the front. */
  lemma CutCountPrefix(ps: seq<WallPolygon>, l: SectorLevel, j: nat)
    requires 1 <= j <= |ps|
    ensures CutCount(ps[..j], l) == (if CutInTwo(ps[0], l) then 1 else 0) + CutCount(ps[1..][..j - 1], l)
  {
    assert ps[..j][1..] == ps[1..][..j - 1];
  }

  /** Splits one polygon by the level: what stays in its slot, and the piece
      appended to the list (none unless the level cuts it in two). */
  function SplitOne(p0: WallPolygon, l: SectorLevel, light: WallLight): (r: (WallPolygon, seq<WallPolygon>))
    ensures SlotPiece(r.0, p0, l, light)
    ensures |r.1| == (if CutInTwo(p0, l) then 1 else 0)
    ensures CutInTwo(p0, l) ==> FrontPiece(r.1[0], p0, l, light)
  {
    var sr := SplitPoly(p0, CutPlane(l), false);
    var p := sr.kept;
    var np := sr.other;
    if |np.vertices| > 0 then
      var piece := np.(color := PieceColor(l, p.color, light));
      if |p.vertices| == 0 then (piece, []) else (p, [piece])
    else (p, [])
  }

  /** SplitEach's slot fact, for one polygon placed in front of a list that
      already has it. */
  lemma SlotsCons(polys: seq<WallPolygon>, l: SectorLevel, light: WallLight, q: WallPolygon, slots: seq<WallPolygon>)
    requires |polys| > 0 && |slots| == |polys| - 1
    requires SlotPiece(q, polys[0], l, light)
    requires forall j :: 0 <= j < |polys| - 1 ==> SlotPiece(slots[j], polys[1..][j], l, light)
    ensures forall j :: 0 <= j < |polys| ==> SlotPiece(([q] + slots)[j], polys[j], l, light)
  {
    forall j | 1 <= j < |polys|
      ensures SlotPiece(([q] + slots)[j], polys[j], l, light)
    {
      assert polys[j] == polys[1..][j - 1] && ([q] + slots)[j] == slots[j - 1];
    }
  }

  /** SplitEach's appended-piece fact, for one polygon placed in front of a
      list that already has it. */
  lemma AddedCons(polys: seq<WallPolygon>, l: SectorLevel, light: WallLight, a: seq<WallPolygon>, added: seq<WallPolygon>)
    requires |polys| > 0
    requires |a| == (if CutInTwo(polys[0], l) then 1 else 0)
    requires CutInTwo(polys[0], l) ==> FrontPiece(a[0], polys[0], l, light)
    requires |added| == CutCount(polys[1..], l)
    requires forall j :: 0 <= j < |polys| - 1 && CutInTwo(polys[1..][j], l) ==>
               CutCount(polys[1..][..j], l) < |added| && FrontPiece(added[CutCount(polys[1..][..j], l)], polys[1..][j], l, light)
    ensures |a + added| == CutCount(polys, l)
    ensures forall j :: 0 <= j < |polys| && CutInTwo(polys[j], l) ==>
              CutCount(polys[..j], l) < |a + added| && FrontPiece((a + added)[CutCount(polys[..j], l)], polys[j], l, light)
  {
    forall j | 1 <= j < |polys| && CutInTwo(polys[j], l)
      ensures CutCount(polys[..j], l) < |a + added| && FrontPiece((a + added)[CutCount(polys[..j], l)], polys[j], l, light)
    {
      CutCountPrefix(polys, l, j);
      var k := CutCount(polys[1..][..j - 1], l);
      var p := polys[1..][j - 1];
      assert p == polys[j];
      assert CutInTwo(p, l);
      assert k < |added| && FrontPiece(added[k], p, l, light);
      assert CutCount(polys[..j], l) == |a| + k;
      assert (a + added)[|a| + k] == added[k];
    }
    assert CutCount(polys[..0], l) == 0;
  }

  /** Splits each of `polys` by the level: the first component holds what
      replaces each polygon in its own slot, the second the pieces appended to
      the list. A polygon whose front part is empty keeps its back part; one
      whose back part is empty is replaced by its front part; one cut in two
      keeps its back part and has its front part appended, in list order: the
      front piece of the j-th polygon cut in two is the j-th appended piece. */
  function SplitEach(polys: seq<WallPolygon>, l: SectorLevel, light: WallLight): (r: (seq<WallPolygon>, seq<WallPolygon>))
    ensures |r.0| == |polys| && |r.1| == CutCount(polys, l)
    ensures forall j :: 0 <= j < |polys| ==> SlotPiece(r.0[j], polys[j], l, light)
    ensures forall j :: 0 <= j < |polys| && CutInTwo(polys[j], l) ==>
              CutCount(polys[..j], l) < |r.1| && FrontPiece(r.1[CutCount(polys[..j], l)], polys[j], l, light)
    decreases |polys|
  {
    if |polys| == 0 then ([], [])
    else
      var (q, a) := SplitOne(polys[0], l, light);
      var (slots, added) := SplitEach(polys[1..], l, light);
      SlotsCons(polys, l, light, q, slots);
      AddedCons(polys, l, light, a, added);
      ([q] + slots, a + added)
  }

  /** One cutting level applied to the whole list: the polygons present before
      the level are split in their own slots, and the front piece of every
      polygon cut in two is appended after them, in list order. So the list
      grows by exactly the number of polygons cut in two. */
  function SplitByLevel(polys: seq<WallPolygon>, l: SectorLevel, light: WallLight): (r: seq<WallPolygon>)
    ensures |r| == |polys| + CutCount(polys, l) && |polys| <= |r| <= 2 * |polys|
    ensures forall j :: 0 <= j < |polys| ==> SlotPiece(r[j], polys[j], l, light)
    ensures forall j :: 0 <= j < |polys| && CutInTwo(polys[j], l) ==>
              |polys| + CutCount(polys[..j], l) < |r| && FrontPiece(r[|polys| + CutCount(polys[..j], l)], polys[j], l, light)
  {
    var (slots, added) := SplitEach(polys, l, light);
    var r := slots + added;
    assert forall j :: 0 <= j < |polys| ==> r[j] == slots[j];
    assert forall k :: 0 <= k < |added| ==> r[|polys| + k] == added[k];
    r
  }

  /** The walk over the levels `i - 1` down to `0` (top to bottom), with the last
      light level met so far. */
  function Walk(sd: SectorData, light: WallLight, i: nat, polys: seq<WallPolygon>, prevlight: Option<SectorLevel>): seq<WallPolygon>
    requires i <= |sd.lightLevels|
    decreases i
  {
    if i == 0 then polys
    else
      var l := sd.lightLevels[i - 1];
      if InsideLightBand(prevlight, l) then Walk(sd, light, i - 1, polys, prevlight)
      else
        var next := if CutsWalls(sd, l) then SplitByLevel(polys, l, light) else polys;
        Walk(sd, light, i - 1, next, if l.levelType == LightLevel then Some(l) else prevlight)
  }

  /** The polygons to triangulate: the level walk runs only when the stack holds
      more than the sector's floor and ceiling. */
  function CutPolygons(sd: SectorData, light: WallLight, polys: seq<WallPolygon>): seq<WallPolygon>
  {
    if |sd.lightLevels| > 2 then Walk(sd, light, |sd.lightLevels|, polys, None) else polys
  }

  /** The walk never drops a polygon. */
  lemma {:induction false} WalkNeverShrinks(sd: SectorData, light: WallLight, i: nat, polys: seq<WallPolygon>, prevlight: Option<SectorLevel>)
    requires i <= |sd.lightLevels|
    ensures |Walk(sd, light, i, polys, prevlight)| >= |polys|
    decreases i
  {
    if i > 0 {
      var l := sd.lightLevels[i - 1];
      if InsideLightBand(prevlight, l) {
        WalkNeverShrinks(sd, light, i - 1, polys, prevlight);
      } else {
        var next := if CutsWalls(sd, l) then SplitByLevel(polys, l, light) else polys;
        WalkNeverShrinks(sd, light, i - 1, next, if l.levelType == LightLevel then Some(l) else prevlight);
      }
    }
  }

  /** A walk over levels none of which cuts walls leaves the polygons alone. */
  lemma {:induction false} WalkWithoutCuts(sd: SectorData, light: WallLight, i: nat, polys: seq<WallPolygon>, prevlight: Option<SectorLevel>)
    requires i <= |sd.lightLevels|
    requires forall j :: 0 <= j < i ==> !CutsWalls(sd, sd.lightLevels[j])
    ensures Walk(sd, light, i, polys, prevlight) == polys
    decreases i
  {
    if i > 0 {
      var l := sd.lightLevels[i - 1];
      if InsideLightBand(prevlight, l) {
        WalkWithoutCuts(sd, light, i - 1, polys, prevlight);
      } else {
        WalkWithoutCuts(sd, light, i - 1, polys, if l.levelType == LightLevel then Some(l) else prevlight);
      }
    }
  }

  /** A stack of at most the floor and the ceiling cuts nothing; neither does a
      stack whose other levels are all uncut floor-type levels. */
  lemma CutPolygonsUncut(sd: SectorData, light: WallLight, polys: seq<WallPolygon>)
    requires |sd.lightLevels| <= 2 || forall j :: 0 <= j < |sd.lightLevels| ==> !CutsWalls(sd, sd.lightLevels[j])
    ensures CutPolygons(sd, light, polys) == polys
  {
    if |sd.lightLevels| > 2 {
      WalkWithoutCuts(sd, light, |sd.lightLevels|, polys, None);
    }
  }

  /** A polygon lying strictly behind a level's cutting plane (above the level)
      passes that level unchanged and adds no piece. */
  lemma SplitByLevelAbove(p: WallPolygon, l: SectorLevel, light: WallLight)
    requires forall i :: 0 <= i < |p.vertices| ==> Distance(CutPlane(l), p.vertices[i]) < -NearZero
    ensures SplitByLevel([p], l, light) == [p]
  {
    var c := PlaneCutter(CutPlane(l));
    var vs := p.vertices;
    if |vs| > 0 {
      assert forall i :: 0 <= i < |vs| ==> !InFront(c, vs[i]);
      SplitLoopNothingInFront(c, vs[|vs| - 1], vs);
      SeamOfStrictBack(c, vs);
    }
    assert [p][1..] == [];
  }

  // ---------------------------------------------------------------------------
  // Fan triangulation.

  /** The triangles (p[0], p[k], p[k + 1]) for k from `k` up to n - 2, three
      vertices each, with the polygon's colour and projected texture coordinates. */
  function FanFrom(p: WallPolygon, texc: Vec3 -> Vec2, k: nat): (r: seq<WorldVertex>)
    requires 1 <= k
    decreases |p.vertices| - k
  {
    if k + 1 >= |p.vertices| then []
    else
      [WorldVertex(p.vertices[0], p.color, texc(p.vertices[0])),
       WorldVertex(p.vertices[k], p.color, texc(p.vertices[k])),
       WorldVertex(p.vertices[k + 1], p.color, texc(p.vertices[k + 1]))]
      + FanFrom(p, texc, k + 1)
  }

  /** Closed form of the fan: triangle t is (p[0], p[k + t], p[k + t + 1]). */
  lemma {:induction false} FanFromShape(p: WallPolygon, texc: Vec3 -> Vec2, k: nat)
    requires 1 <= k
    ensures |p.vertices| >= k + 1 ==> |FanFrom(p, texc, k)| == 3 * (|p.vertices| - 1 - k)
    ensures |p.vertices| < k + 1 ==> FanFrom(p, texc, k) == []
    ensures forall t :: 0 <= t < |FanFrom(p, texc, k)| / 3 ==>
              && FanFrom(p, texc, k)[3 * t] == WorldVertex(p.vertices[0], p.color, texc(p.vertices[0]))
              && FanFrom(p, texc, k)[3 * t + 1] == WorldVertex(p.vertices[k + t], p.color, texc(p.vertices[k + t]))
              && FanFrom(p, texc, k)[3 * t + 2] == WorldVertex(p.vertices[k + t + 1], p.color, texc(p.vertices[k + t + 1]))
    decreases |p.vertices| - k
  {
    if k + 1 < |p.vertices| {
      FanFromShape(p, texc, k + 1);
      var r := FanFrom(p, texc, k);
      var rest := FanFrom(p, texc, k + 1);
      assert r == r[..3] + rest;
      forall t | 0 <= t < |r| / 3
        ensures r[3 * t] == WorldVertex(p.vertices[0], p.color, texc(p.vertices[0]))
        ensures r[3 * t + 1] == WorldVertex(p.vertices[k + t], p.color, texc(p.vertices[k + t]))
        ensures r[3 * t + 2] == WorldVertex(p.vertices[k + t + 1], p.color, texc(p.vertices[k + t + 1]))
      {
        if t > 0 {
          var u := t - 1;
          assert 3 * t == 3 + 3 * u;
          assert r[3 * t] == rest[3 * u];
          assert r[3 * t + 1] == rest[3 * u + 1];
          assert r[3 * t + 2] == rest[3 * u + 2];
          assert k + t == (k + 1) + u;
        }
      }
    }
  }

  /** The fan of a convex polygon: 3 * (n - 2) vertices for n > 2, none
      otherwise, all with the polygon's colour and at its vertices. */
  function Fan(p: WallPolygon, texc: Vec3 -> Vec2): seq<WorldVertex>
  {
    FanFrom(p, texc, 1)
  }

  lemma FanShape(p: WallPolygon, texc: Vec3 -> Vec2)
    ensures |p.vertices| <= 2 ==> Fan(p, texc) == []
    ensures |p.vertices| > 2 ==> |Fan(p, texc)| == 3 * (|p.vertices| - 2)
    ensures forall t :: 0 <= t < |Fan(p, texc)| / 3 ==>
              && Fan(p, texc)[3 * t].pos == p.vertices[0]
              && Fan(p, texc)[3 * t + 1].pos == p.vertices[t + 1]
              && Fan(p, texc)[3 * t + 2].pos == p.vertices[t + 2]
    ensures forall i :: 0 <= i < |Fan(p, texc)| ==> Fan(p, texc)[i].color == p.color && Fan(p, texc)[i].pos in p.vertices
  {
    FanFromShape(p, texc, 1);
    var r := Fan(p, texc);
    forall i | 0 <= i < |r|
      ensures r[i].color == p.color && r[i].pos in p.vertices
    {
      var t := i / 3;
      assert i == 3 * t || i == 3 * t + 1 || i == 3 * t + 2;
    }
  }

  /** The fans of all polygons, one after the other. */
  function Meshes(polys: seq<WallPolygon>, texc: Vec3 -> Vec2): seq<WorldVertex>
  {
    if |polys| == 0 then [] else Meshes(polys[..|polys| - 1], texc) + Fan(polys[|polys| - 1], texc)
  }

  /** Number of triangles of a polygon list: n - 2 for each polygon with n > 2 vertices. */
  function TriangleCount(polys: seq<WallPolygon>): nat
  {
    if |polys| == 0 then 0
    else TriangleCount(polys[..|polys| - 1]) + (if |polys[|polys| - 1].vertices| > 2 then |polys[|polys| - 1].vertices| - 2 else 0)
  }

  /** The mesh holds three vertices per triangle. */
  lemma {:induction false} MeshesSize(polys: seq<WallPolygon>, texc: Vec3 -> Vec2)
    ensures |Meshes(polys, texc)| == 3 * TriangleCount(polys)
  {
    if |polys| > 0 {
      var init := polys[..|polys| - 1];
      var last := polys[|polys| - 1];
      MeshesSize(init, texc);
      assert Meshes(polys, texc) == Meshes(init, texc) + Fan(last, texc);
      FanShape(last, texc);
      assert TriangleCount(polys) == TriangleCount(init) + (if |last.vertices| > 2 then |last.vertices| - 2 else 0);
    }
  }

  /** The final per-vertex colour pass: the vertex colour is blended with the
      sector's glows and wall top/bottom colours, and made fully opaque. */
  function InterpolateVertexColor(v: WorldVertex, blend: WorldVertex -> PixelColor): (r: WorldVertex)
    ensures r.pos == v.pos && r.uv == v.uv && r.color.a == 255
  {
    v.(color := WithAlpha(blend(v), 255))
  }

  /** The fan of one polygon, built triangle by triangle. */
  method FanVertices(p: WallPolygon, texc: Vec3 -> Vec2) returns (fan: seq<WorldVertex>)
    ensures fan == Fan(p, texc)
  {
    var texcoords := seq(|p.vertices|, j requires 0 <= j < |p.vertices| => texc(p.vertices[j]));
    fan := [];
    if |p.vertices| > 2 {
      var k := 1;
      while k < |p.vertices| - 1
        invariant 1 <= k <= |p.vertices| - 1
        invariant fan + FanFrom(p, texc, k) == Fan(p, texc)
      {
        var tri := [WorldVertex(p.vertices[0], p.color, texcoords[0]),
                    WorldVertex(p.vertices[k], p.color, texcoords[k]),
                    WorldVertex(p.vertices[k + 1], p.color, texcoords[k + 1])];
        assert FanFrom(p, texc, k) == tri + FanFrom(p, texc, k + 1);
        assert fan + (tri + FanFrom(p, texc, k + 1)) == (fan + tri) + FanFrom(p, texc, k + 1);
        fan := fan + tri;
        k := k + 1;
      }
      assert FanFrom(p, texc, k) == [];
    }
  }

  /** The fans of all polygons, in list order. */
  method Triangulate(polygons: seq<WallPolygon>, texc: Vec3 -> Vec2) returns (raw: seq<WorldVertex>)
    ensures raw == Meshes(polygons, texc)
  {
    raw := [];
    var pi := 0;
    while pi < |polygons|
      invariant 0 <= pi <= |polygons|
      invariant raw == Meshes(polygons[..pi], texc)
    {
      var fan := FanVertices(polygons[pi], texc);
      assert polygons[..pi + 1][..pi] == polygons[..pi];
      raw := raw + fan;
      pi := pi + 1;
    }
    assert polygons[..|polygons|] == polygons;
  }

  /** The final colour pass over every vertex. */
  method InterpolateAll(raw: seq<WorldVertex>, blend: WorldVertex -> PixelColor) returns (verts: seq<WorldVertex>)
    ensures |verts| == |raw|
    ensures forall j :: 0 <= j < |raw| ==> verts[j] == InterpolateVertexColor(raw[j], blend)
  {
    verts := [];
    var i := 0;
    while i < |raw|
      invariant 0 <= i <= |raw|
      invariant |verts| == i
      invariant forall j :: 0 <= j < i ==> verts[j] == InterpolateVertexColor(raw[j], blend)
    {
      verts := verts + [InterpolateVertexColor(raw[i], blend)];
      i := i + 1;
    }
  }

  /** Builds the wall mesh from the wall polygons. */
  method CreatePolygonVertices(poly: seq<WallPolygon>, texc: Vec3 -> Vec2, sd: SectorData, light: WallLight,
                               blend: WorldVertex -> PixelColor)
    returns (verts: seq<WorldVertex>)
    ensures |verts| == |Meshes(CutPolygons(sd, light, poly), texc)| == 3 * TriangleCount(CutPolygons(sd, light, poly))
    ensures forall i :: 0 <= i < |verts| ==> verts[i] == InterpolateVertexColor(Meshes(CutPolygons(sd, light, poly), texc)[i], blend)
    ensures forall i :: 0 <= i < |verts| ==> verts[i].color.a == 255
  {
    var polygons := CutPolygons(sd, light, poly);
    var raw := Triangulate(polygons, texc);
    MeshesSize(polygons, texc);
    verts := InterpolateAll(raw, blend);
  }
}
