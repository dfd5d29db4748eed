/** Cutting a convex, clockwise wall polygon against a plane
    (`SplitPoly` and `CropPoly` of the sidedef geometry base class).

    The clipping loops only ask two things of the plane: the signed distance of a
    vertex and the crossing point of an edge. They are written against a `Cutter`
    carrying those two functions, and `PlaneCutter` supplies them for a real plane;
    this keeps the loop facts apart from the plane arithmetic.

    Each loop visits the vertices in order, remembering the previously visited
    vertex (initially the last one, closing the loop). It is modelled as a
    function of that previous vertex and the vertices still to visit. */
module Clipper {
  import opened Geometry
  import opened Colour

  /** Vertices within this distance of the plane count as lying on it: the
      single-precision constant 0.01f, widened exactly to double. */
  const NearZero: real := 0.00999999977648258209228515625

  /** A wall polygon: its vertex loop and the properties copied to its pieces. */
  datatype WallPolygon = WallPolygon(vertices: seq<Vec3>, color: PixelColor)

  /** The two parts of a split: `kept` replaces the polygon, `other` is returned. */
  datatype SplitResult = SplitResult(kept: WallPolygon, other: WallPolygon)

  /** Signed distance and edge crossing point of a cutting plane. */
  datatype Cutter = Cutter(side: Vec3 -> real, cut: (Vec3, Vec3) -> Vec3)

  function PlaneCutter(pl: Plane): Cutter
  {
    Cutter(v => Distance(pl, v), (a, b) => CutPoint(pl, a, b))
  }

  predicate InFront(c: Cutter, v: Vec3) { c.side(v) > NearZero }

  predicate Behind(c: Cutter, v: Vec3) { c.side(v) < -NearZero }

  predicate NearPlane(c: Cutter, v: Vec3) { !InFront(c, v) && !Behind(c, v) }

  /** The edge a-b goes strictly from one side of the plane to the other. */
  predicate Opposite(c: Cutter, a: Vec3, b: Vec3)
  {
    (Behind(c, a) && InFront(c, b)) || (InFront(c, a) && Behind(c, b))
  }

  /** Crossing points of strictly crossing edges lie on the plane. */
  ghost predicate Sound(c: Cutter)
  {
    forall a, b :: Opposite(c, a, b) ==> c.side(c.cut(a, b)) == 0.0
  }

  /** With exact arithmetic a real plane's crossing points lie on it. */
  lemma PlaneCutterSound(pl: Plane)
    ensures Sound(PlaneCutter(pl))
  {
    var c := PlaneCutter(pl);
    forall a, b | Opposite(c, a, b)
      ensures c.side(c.cut(a, b)) == 0.0
    {
      IntersectionOnPlane(pl, a, b);
    }
  }

  /** The front and back vertex lists the split loop produces for the vertices
      `s`, `v1` being the vertex visited just before `s[0]`; branch for branch as
      the loop does it. */
  function SplitLoop(c: Cutter, v1: Vec3, s: seq<Vec3>): (seq<Vec3>, seq<Vec3>)
    decreases |s|
  {
    if |s| == 0 then ([], [])
    else
      var v2 := s[0];
      var (f, b) := SplitLoop(c, v2, s[1..]);
      if InFront(c, v2) then
        if Behind(c, v1) then
          var v3 := c.cut(v1, v2);
          ([v3, v2] + f, [v3] + b)
        else ([v2] + f, b)
      else if Behind(c, v2) then
        if InFront(c, v1) then
          var v3 := c.cut(v1, v2);
          ([v3] + f, [v3, v2] + b)
        else (f, [v2] + b)
      else ([v2] + f, [v2] + b)
  }

  /** The loop's first "previous" vertex is the polygon's last vertex. */
  function Split(c: Cutter, vs: seq<Vec3>): (seq<Vec3>, seq<Vec3>)
  {
    if |vs| == 0 then ([], []) else SplitLoop(c, vs[|vs| - 1], vs)
  }

  /** Splits `poly` by `pl`. With `keepfront` the front part is kept and the back
      part returned, otherwise the other way round; both carry the polygon's colour. */
  function SplitPoly(poly: WallPolygon, pl: Plane, keepfront: bool): (r: SplitResult)
    ensures r.kept.color == poly.color && r.other.color == poly.color
    ensures keepfront ==> (r.kept.vertices == Split(PlaneCutter(pl), poly.vertices).0
                           && r.other.vertices == Split(PlaneCutter(pl), poly.vertices).1)
    ensures !keepfront ==> (r.kept.vertices == Split(PlaneCutter(pl), poly.vertices).1
                            && r.other.vertices == Split(PlaneCutter(pl), poly.vertices).0)
    ensures |poly.vertices| == 0 ==> r.kept.vertices == [] && r.other.vertices == []
  {
    var (f, b) := Split(PlaneCutter(pl), poly.vertices);
    var front := WallPolygon(f, poly.color);
    var back := WallPolygon(b, poly.color);
    if keepfront then SplitResult(front, back) else SplitResult(back, front)
  }

  // ---------------------------------------------------------------------------
  // Reference views of a vertex list used to characterise the split.

  /** The vertices strictly in front, in order. */
  function StrictFront(c: Cutter, s: seq<Vec3>): seq<Vec3>
  {
    if |s| == 0 then [] else (if InFront(c, s[0]) then [s[0]] else []) + StrictFront(c, s[1..])
  }

  /** The vertices strictly behind, in order. */
  function StrictBack(c: Cutter, s: seq<Vec3>): seq<Vec3>
  {
    if |s| == 0 then [] else (if Behind(c, s[0]) then [s[0]] else []) + StrictBack(c, s[1..])
  }

  /** The vertices within tolerance of the plane, in order: the seam. */
  function Seam(c: Cutter, s: seq<Vec3>): seq<Vec3>
  {
    if |s| == 0 then [] else (if NearPlane(c, s[0]) then [s[0]] else []) + Seam(c, s[1..])
  }

  /** The crossing vertex of the edge v1-v2, if that edge crosses. */
  function CutSeq(c: Cutter, v1: Vec3, v2: Vec3): seq<Vec3>
  {
    if Opposite(c, v1, v2) then [c.cut(v1, v2)] else []
  }

  /** The crossing vertices the loop over `s` inserts, in order. */
  function CutsLoop(c: Cutter, v1: Vec3, s: seq<Vec3>): seq<Vec3>
    decreases |s|
  {
    if |s| == 0 then [] else CutSeq(c, v1, s[0]) + CutsLoop(c, s[0], s[1..])
  }

  /** The crossing vertices of the polygon's edges, in loop order. */
  function Cuts(c: Cutter, vs: seq<Vec3>): seq<Vec3>
  {
    if |vs| == 0 then [] else CutsLoop(c, vs[|vs| - 1], vs)
  }

  /** The vertices not strictly behind, in order: what the front part keeps. */
  function DropBehind(c: Cutter, s: seq<Vec3>): seq<Vec3>
  {
    if |s| == 0 then [] else (if Behind(c, s[0]) then [] else [s[0]]) + DropBehind(c, s[1..])
  }

  /** The vertices not strictly in front, in order: what the back part keeps. */
  function DropInFront(c: Cutter, s: seq<Vec3>): seq<Vec3>
  {
    if |s| == 0 then [] else (if InFront(c, s[0]) then [] else [s[0]]) + DropInFront(c, s[1..])
  }

  /** The outline of the loop over `s` with every crossing vertex put in place:
      before each vertex the crossing vertex of the edge into it, if that edge
      crosses, then the vertex itself. */
  function Interleaved(c: Cutter, v1: Vec3, s: seq<Vec3>): seq<Vec3>
    decreases |s|
  {
    if |s| == 0 then [] else CutSeq(c, v1, s[0]) + [s[0]] + Interleaved(c, s[0], s[1..])
  }

  /** The interleaved outline of a whole polygon, whose loop starts at its last vertex. */
  function PolyInterleaved(c: Cutter, vs: seq<Vec3>): seq<Vec3>
  {
    if |vs| == 0 then [] else Interleaved(c, vs[|vs| - 1], vs)
  }

  lemma {:induction false} StrictFrontAppend(c: Cutter, s: seq<Vec3>, t: seq<Vec3>)
    ensures StrictFront(c, s + t) == StrictFront(c, s) + StrictFront(c, t)
  {
    if |s| == 0 {
      assert s + t == t;
    } else {
      assert (s + t)[1..] == s[1..] + t;
      StrictFrontAppend(c, s[1..], t);
    }
  }

  lemma {:induction false} StrictBackAppend(c: Cutter, s: seq<Vec3>, t: seq<Vec3>)
    ensures StrictBack(c, s + t) == StrictBack(c, s) + StrictBack(c, t)
  {
    if |s| == 0 {
      assert s + t == t;
    } else {
      assert (s + t)[1..] == s[1..] + t;
      StrictBackAppend(c, s[1..], t);
    }
  }

  lemma {:induction false} SeamAppend(c: Cutter, s: seq<Vec3>, t: seq<Vec3>)
    ensures Seam(c, s + t) == Seam(c, s) + Seam(c, t)
  {
    if |s| == 0 {
      assert s + t == t;
    } else {
      assert (s + t)[1..] == s[1..] + t;
      SeamAppend(c, s[1..], t);
    }
  }

  lemma {:induction false} DropBehindAppend(c: Cutter, s: seq<Vec3>, t: seq<Vec3>)
    ensures DropBehind(c, s + t) == DropBehind(c, s) + DropBehind(c, t)
  {
    if |s| == 0 {
      assert s + t == t;
    } else {
      assert (s + t)[1..] == s[1..] + t;
      DropBehindAppend(c, s[1..], t);
    }
  }

  lemma {:induction false} DropInFrontAppend(c: Cutter, s: seq<Vec3>, t: seq<Vec3>)
    ensures DropInFront(c, s + t) == DropInFront(c, s) + DropInFront(c, t)
  {
    if |s| == 0 {
      assert s + t == t;
    } else {
      assert (s + t)[1..] == s[1..] + t;
      DropInFrontAppend(c, s[1..], t);
    }
  }

  // ---------------------------------------------------------------------------
  // Properties of the split loop.

  /** One loop iteration puts the crossing vertex (if any) into both parts, then
      the vertex itself into every part whose side it is not strictly outside of. */
  lemma SplitStep(c: Cutter, v1: Vec3, s: seq<Vec3>)
    requires |s| > 0
    ensures SplitLoop(c, v1, s).0
         == CutSeq(c, v1, s[0]) + (if Behind(c, s[0]) then [] else [s[0]]) + SplitLoop(c, s[0], s[1..]).0
    ensures SplitLoop(c, v1, s).1
         == CutSeq(c, v1, s[0]) + (if InFront(c, s[0]) then [] else [s[0]]) + SplitLoop(c, s[0], s[1..]).1
  {
    SplitStepFront(c, v1, s);
    SplitStepBack(c, v1, s);
  }

  lemma SplitStepFront(c: Cutter, v1: Vec3, s: seq<Vec3>)
    requires |s| > 0
    ensures SplitLoop(c, v1, s).0
         == CutSeq(c, v1, s[0]) + (if Behind(c, s[0]) then [] else [s[0]]) + SplitLoop(c, s[0], s[1..]).0
  {
    var v2 := s[0];
    var f := SplitLoop(c, v2, s[1..]).0;
    var cs := CutSeq(c, v1, v2);
    if InFront(c, v2) && Behind(c, v1) {
      assert [c.cut(v1, v2), v2] + f == cs + [v2] + f;
    } else if Behind(c, v2) && InFront(c, v1) {
      assert [c.cut(v1, v2)] + f == cs + [] + f;
    } else {
      assert cs == [];
    }
  }

  lemma SplitStepBack(c: Cutter, v1: Vec3, s: seq<Vec3>)
    requires |s| > 0
    ensures SplitLoop(c, v1, s).1
         == CutSeq(c, v1, s[0]) + (if InFront(c, s[0]) then [] else [s[0]]) + SplitLoop(c, s[0], s[1..]).1
  {
    var v2 := s[0];
    var b := SplitLoop(c, v2, s[1..]).1;
    var cs := CutSeq(c, v1, v2);
    if InFront(c, v2) && Behind(c, v1) {
      assert [c.cut(v1, v2)] + b == cs + [] + b;
    } else if Behind(c, v2) && InFront(c, v1) {
      assert [c.cut(v1, v2), v2] + b == cs + [v2] + b;
    } else {
      assert cs == [];
    }
  }

  /** A crossing vertex is on the seam, never strictly on either side. */
  lemma CutSeqOnSeam(c: Cutter, v1: Vec3, v2: Vec3)
    requires Sound(c)
    ensures StrictFront(c, CutSeq(c, v1, v2)) == []
    ensures StrictBack(c, CutSeq(c, v1, v2)) == []
    ensures Seam(c, CutSeq(c, v1, v2)) == CutSeq(c, v1, v2)
    ensures DropBehind(c, CutSeq(c, v1, v2)) == CutSeq(c, v1, v2)
    ensures DropInFront(c, CutSeq(c, v1, v2)) == CutSeq(c, v1, v2)
  {
    if Opposite(c, v1, v2) {
      assert CutSeq(c, v1, v2)[1..] == [];
    }
  }

  /** Every front vertex is on the plane or in front of it; every back vertex is
      on the plane or behind it; the crossing vertices lie exactly on the plane. */
  lemma {:induction false} SplitLoopSides(c: Cutter, v1: Vec3, s: seq<Vec3>)
    decreases |s|
    requires Sound(c)
    ensures forall v :: v in SplitLoop(c, v1, s).0 ==> !Behind(c, v)
    ensures forall v :: v in SplitLoop(c, v1, s).1 ==> !InFront(c, v)
    ensures forall v :: v in CutsLoop(c, v1, s) ==> c.side(v) == 0.0
  {
    if |s| > 0 {
      SplitLoopSides(c, s[0], s[1..]);
      SplitStep(c, v1, s);
    }
  }

  lemma StrictFrontStep(c: Cutter, cs: seq<Vec3>, t: seq<Vec3>, f: seq<Vec3>, s: seq<Vec3>)
    requires |s| > 0
    requires StrictFront(c, cs) == []
    requires t == if Behind(c, s[0]) then [] else [s[0]]
    requires StrictFront(c, f) == StrictFront(c, s[1..])
    ensures StrictFront(c, cs + t + f) == StrictFront(c, s)
  {
    var h := s[0];
    var ht := if InFront(c, h) then [h] else [];
    assert StrictFront(c, s) == ht + StrictFront(c, s[1..]);
    if t != [] {
      assert t[1..] == [];
      assert StrictFront(c, t) == ht + StrictFront(c, t[1..]);
    }
    assert StrictFront(c, t) == ht;
    StrictFrontAppend(c, cs + t, f);
    StrictFrontAppend(c, cs, t);
    assert cs + t + f == (cs + t) + f;
  }

  lemma StrictBackStep(c: Cutter, cs: seq<Vec3>, t: seq<Vec3>, b: seq<Vec3>, s: seq<Vec3>)
    requires |s| > 0
    requires StrictBack(c, cs) == []
    requires t == if InFront(c, s[0]) then [] else [s[0]]
    requires StrictBack(c, b) == StrictBack(c, s[1..])
    ensures StrictBack(c, cs + t + b) == StrictBack(c, s)
  {
    var h := s[0];
    var ht := if Behind(c, h) then [h] else [];
    assert StrictBack(c, s) == ht + StrictBack(c, s[1..]);
    if t != [] {
      assert t[1..] == [];
      assert StrictBack(c, t) == ht + StrictBack(c, t[1..]);
    }
    assert StrictBack(c, t) == ht;
    StrictBackAppend(c, cs + t, b);
    StrictBackAppend(c, cs, t);
    assert cs + t + b == (cs + t) + b;
  }

  /** The vertices strictly in front keep their order in the front part and
      those strictly behind keep their order in the back part. */
  lemma {:induction false} SplitLoopKeepsOrder(c: Cutter, v1: Vec3, s: seq<Vec3>)
    decreases |s|
    requires Sound(c)
    ensures StrictFront(c, SplitLoop(c, v1, s).0) == StrictFront(c, s)
    ensures StrictBack(c, SplitLoop(c, v1, s).1) == StrictBack(c, s)
  {
    if |s| > 0 {
      SplitLoopKeepsOrder(c, s[0], s[1..]);
      SplitStep(c, v1, s);
      CutSeqOnSeam(c, v1, s[0]);
      StrictFrontStep(c, CutSeq(c, v1, s[0]), if Behind(c, s[0]) then [] else [s[0]], SplitLoop(c, s[0], s[1..]).0, s);
      StrictBackStep(c, CutSeq(c, v1, s[0]), if InFront(c, s[0]) then [] else [s[0]], SplitLoop(c, s[0], s[1..]).1, s);
    }
  }

  lemma SeamStep(c: Cutter, cs: seq<Vec3>, v: Vec3, f: seq<Vec3>, b: seq<Vec3>)
    requires Seam(c, cs) == cs
    requires Seam(c, f) == Seam(c, b)
    ensures Seam(c, cs + (if Behind(c, v) then [] else [v]) + f) == Seam(c, cs + (if InFront(c, v) then [] else [v]) + b)
    ensures Seam(c, cs + (if Behind(c, v) then [] else [v]) + f) == cs + Seam(c, [v]) + Seam(c, f)
  {
    var tf := if Behind(c, v) then [] else [v];
    var tb := if InFront(c, v) then [] else [v];
    assert [v][1..] == [];
    assert Seam(c, tf) == Seam(c, [v]) == Seam(c, tb);
    SeamAppend(c, cs + tf, f);
    SeamAppend(c, cs, tf);
    SeamAppend(c, cs + tb, b);
    SeamAppend(c, cs, tb);
  }

  /** The seam the loop over `s` lays down: before each vertex the crossing
      vertex of the edge into it (if that edge crosses), then the vertex itself
      if it lies within tolerance of the plane. */
  function SeamLoop(c: Cutter, v1: Vec3, s: seq<Vec3>): seq<Vec3>
    decreases |s|
  {
    if |s| == 0 then [] else CutSeq(c, v1, s[0]) + Seam(c, [s[0]]) + SeamLoop(c, s[0], s[1..])
  }

  /** The seam of a whole polygon, whose loop starts at its last vertex. */
  function PolySeam(c: Cutter, vs: seq<Vec3>): seq<Vec3>
  {
    if |vs| == 0 then [] else SeamLoop(c, vs[|vs| - 1], vs)
  }

  /** Both parts carry the same seam: the vertices within tolerance of the
      plane and the crossing vertices, interleaved in loop order. It holds one
      vertex per on-plane input vertex and one per crossing edge. */
  lemma {:induction false} SplitLoopSeam(c: Cutter, v1: Vec3, s: seq<Vec3>)
    decreases |s|
    requires Sound(c)
    ensures Seam(c, SplitLoop(c, v1, s).0) == SeamLoop(c, v1, s)
    ensures Seam(c, SplitLoop(c, v1, s).1) == SeamLoop(c, v1, s)
    ensures |SeamLoop(c, v1, s)| == |Seam(c, s)| + |CutsLoop(c, v1, s)|
  {
    if |s| > 0 {
      SplitLoopSeam(c, s[0], s[1..]);
      SplitStep(c, v1, s);
      CutSeqOnSeam(c, v1, s[0]);
      SeamStep(c, CutSeq(c, v1, s[0]), s[0], SplitLoop(c, s[0], s[1..]).0, SplitLoop(c, s[0], s[1..]).1);
      assert [s[0]][1..] == [];
    }
  }

  /** Each part is the interleaved outline with the other side's strict
      vertices removed: the front part drops the vertices strictly behind, the
      back part those strictly in front, and the crossing vertices, lying on the
      plane, stay in both. This fixes every vertex's place in each part. */
  lemma {:induction false} SplitLoopInterleaved(c: Cutter, v1: Vec3, s: seq<Vec3>)
    decreases |s|
    requires Sound(c)
    ensures SplitLoop(c, v1, s).0 == DropBehind(c, Interleaved(c, v1, s))
    ensures SplitLoop(c, v1, s).1 == DropInFront(c, Interleaved(c, v1, s))
  {
    if |s| > 0 {
      var cs := CutSeq(c, v1, s[0]);
      var rest := Interleaved(c, s[0], s[1..]);
      SplitLoopInterleaved(c, s[0], s[1..]);
      SplitStep(c, v1, s);
      CutSeqOnSeam(c, v1, s[0]);
      DropBehindAppend(c, cs + [s[0]], rest);
      DropBehindAppend(c, cs, [s[0]]);
      DropInFrontAppend(c, cs + [s[0]], rest);
      DropInFrontAppend(c, cs, [s[0]]);
      assert [s[0]][1..] == [];
    }
  }

  lemma MultisetRegroup<T>(cs: multiset<T>, tf: multiset<T>, tb: multiset<T>, f: multiset<T>, b: multiset<T>,
                           h: multiset<T>, sh: multiset<T>, rest: multiset<T>, srest: multiset<T>, cr: multiset<T>)
    requires tf + tb == h + sh
    requires f + b == rest + srest + cr + cr
    ensures (cs + tf + f) + (cs + tb + b) == (h + rest) + (sh + srest) + (cs + cr) + (cs + cr)
  {
    var lhs := (cs + tf + f) + (cs + tb + b);
    var rhs := (h + rest) + (sh + srest) + (cs + cr) + (cs + cr);
    forall x
      ensures lhs[x] == rhs[x]
    {
      assert tf[x] + tb[x] == (tf + tb)[x] == (h + sh)[x];
      assert f[x] + b[x] == (f + b)[x] == (rest + srest + cr + cr)[x];
    }
    assert lhs == rhs;
  }

  lemma MergeStep(c: Cutter, s: seq<Vec3>, cs: seq<Vec3>, f: seq<Vec3>, b: seq<Vec3>, cr: seq<Vec3>)
    requires |s| > 0
    requires multiset(f) + multiset(b) == multiset(s[1..]) + multiset(Seam(c, s[1..])) + multiset(cr) + multiset(cr)
    ensures multiset(cs + (if Behind(c, s[0]) then [] else [s[0]]) + f) + multiset(cs + (if InFront(c, s[0]) then [] else [s[0]]) + b)
         == multiset(s) + multiset(Seam(c, s)) + multiset(cs + cr) + multiset(cs + cr)
  {
    var h := s[0];
    var rest := s[1..];
    assert s == [h] + rest;
    var sh := if NearPlane(c, h) then [h] else [];
    assert Seam(c, s) == sh + Seam(c, rest);
    var tf := if Behind(c, h) then [] else [h];
    var tb := if InFront(c, h) then [] else [h];
    assert multiset(tf) + multiset(tb) == multiset([h]) + multiset(sh);
    assert multiset(cs + tf + f) == multiset(cs) + multiset(tf) + multiset(f);
    assert multiset(cs + tb + b) == multiset(cs) + multiset(tb) + multiset(b);
    assert multiset(s) == multiset([h]) + multiset(rest);
    assert multiset(Seam(c, s)) == multiset(sh) + multiset(Seam(c, rest));
    assert multiset(cs + cr) == multiset(cs) + multiset(cr);
    MultisetRegroup(multiset(cs), multiset(tf), multiset(tb), multiset(f), multiset(b),
                    multiset([h]), multiset(sh), multiset(rest), multiset(Seam(c, rest)), multiset(cr));
  }

  /** Merging both parts gives back every input vertex, the seam vertices twice,
      and every crossing vertex twice: nothing else is added or lost. */
  lemma {:induction false} SplitLoopMerge(c: Cutter, v1: Vec3, s: seq<Vec3>)
    decreases |s|
    ensures multiset(SplitLoop(c, v1, s).0) + multiset(SplitLoop(c, v1, s).1)
         == multiset(s) + multiset(Seam(c, s)) + multiset(CutsLoop(c, v1, s)) + multiset(CutsLoop(c, v1, s))
  {
    if |s| > 0 {
      SplitLoopMerge(c, s[0], s[1..]);
      SplitStep(c, v1, s);
      var cs := CutSeq(c, v1, s[0]);
      var cr := CutsLoop(c, s[0], s[1..]);
      assert CutsLoop(c, v1, s) == cs + cr;
      MergeStep(c, s, cs, SplitLoop(c, s[0], s[1..]).0, SplitLoop(c, s[0], s[1..]).1, cr);
    }
  }

  /** Each input vertex lands where its distance says: strictly in front only in
      the front part, strictly behind only in the back part, otherwise in both;
      and each crossing vertex is inserted into both parts. */
  lemma {:induction false} SplitLoopPlacement(c: Cutter, v1: Vec3, s: seq<Vec3>)
    decreases |s|
    requires Sound(c)
    ensures forall i :: 0 <= i < |s| && InFront(c, s[i]) ==> s[i] in SplitLoop(c, v1, s).0 && s[i] !in SplitLoop(c, v1, s).1
    ensures forall i :: 0 <= i < |s| && Behind(c, s[i]) ==> s[i] !in SplitLoop(c, v1, s).0 && s[i] in SplitLoop(c, v1, s).1
    ensures forall i :: 0 <= i < |s| && NearPlane(c, s[i]) ==> s[i] in SplitLoop(c, v1, s).0 && s[i] in SplitLoop(c, v1, s).1
    ensures forall v :: v in CutsLoop(c, v1, s) ==> v in SplitLoop(c, v1, s).0 && v in SplitLoop(c, v1, s).1
  {
    SplitLoopSides(c, v1, s);
    if |s| > 0 {
      SplitLoopPlacement(c, s[0], s[1..]);
      SplitStep(c, v1, s);
      forall i | 1 <= i < |s|
        ensures s[i] == s[1..][i - 1]
      {
      }
    }
  }

  /** A list with no vertex strictly behind the plane is its own front part. */
  lemma {:induction false} SplitLoopNothingBehind(c: Cutter, v1: Vec3, s: seq<Vec3>)
    decreases |s|
    requires !Behind(c, v1)
    requires forall i :: 0 <= i < |s| ==> !Behind(c, s[i])
    ensures SplitLoop(c, v1, s).0 == s
    ensures SplitLoop(c, v1, s).1 == Seam(c, s)
  {
    if |s| > 0 {
      SplitLoopNothingBehind(c, s[0], s[1..]);
    }
  }

  /** A list with no vertex strictly in front is its own back part. */
  lemma {:induction false} SplitLoopNothingInFront(c: Cutter, v1: Vec3, s: seq<Vec3>)
    decreases |s|
    requires !InFront(c, v1)
    requires forall i :: 0 <= i < |s| ==> !InFront(c, s[i])
    ensures SplitLoop(c, v1, s).1 == s
    ensures SplitLoop(c, v1, s).0 == Seam(c, s)
  {
    if |s| > 0 {
      SplitLoopNothingInFront(c, s[0], s[1..]);
    }
  }

  /** The seam of a list whose vertices are all strictly in front is empty. */
  lemma {:induction false} SeamOfStrictFront(c: Cutter, s: seq<Vec3>)
    requires forall i :: 0 <= i < |s| ==> InFront(c, s[i])
    ensures Seam(c, s) == []
  {
    if |s| > 0 {
      SeamOfStrictFront(c, s[1..]);
    }
  }

  /** The seam of a list whose vertices are all strictly behind is empty. */
  lemma {:induction false} SeamOfStrictBack(c: Cutter, s: seq<Vec3>)
    requires forall i :: 0 <= i < |s| ==> Behind(c, s[i])
    ensures Seam(c, s) == []
  {
    if |s| > 0 {
      SeamOfStrictBack(c, s[1..]);
    }
  }

  // ---------------------------------------------------------------------------
  // The same facts for SplitPoly against a real plane.

  /** SplitPoly's parts: every vertex of the front part is on or in front of the
      plane and every vertex of the back part on or behind it; the crossing
      vertices lie exactly on the plane; strict vertices keep their input order;
      each part is the polygon's outline, with the crossing vertices put in
      place, minus the other side's strict vertices; both parts share one seam made of the input's near-plane vertices and the
      crossing vertices; merging the parts gives back the input plus the seam
      vertices and the crossing vertices once more. */
  lemma SplitPolyParts(poly: WallPolygon, pl: Plane)
    ensures var c := PlaneCutter(pl);
      var (front, back) := Split(c, poly.vertices);
      && (forall v :: v in front ==> Distance(pl, v) >= -NearZero)
      && (forall v :: v in back ==> Distance(pl, v) <= NearZero)
      && (forall v :: v in Cuts(c, poly.vertices) ==> Distance(pl, v) == 0.0)
      && StrictFront(c, front) == StrictFront(c, poly.vertices)
      && StrictBack(c, back) == StrictBack(c, poly.vertices)
      && front == DropBehind(c, PolyInterleaved(c, poly.vertices))
      && back == DropInFront(c, PolyInterleaved(c, poly.vertices))
      && Seam(c, front) == PolySeam(c, poly.vertices) && Seam(c, back) == PolySeam(c, poly.vertices)
      && |PolySeam(c, poly.vertices)| == |Seam(c, poly.vertices)| + |Cuts(c, poly.vertices)|
      && multiset(front) + multiset(back)
         == multiset(poly.vertices) + multiset(Seam(c, poly.vertices)) + multiset(Cuts(c, poly.vertices)) + multiset(Cuts(c, poly.vertices))
  {
    var c := PlaneCutter(pl);
    var vs := poly.vertices;
    PlaneCutterSound(pl);
    if |vs| > 0 {
      SplitLoopSides(c, vs[|vs| - 1], vs);
      SplitLoopKeepsOrder(c, vs[|vs| - 1], vs);
      SplitLoopSeam(c, vs[|vs| - 1], vs);
      SplitLoopInterleaved(c, vs[|vs| - 1], vs);
      SplitLoopMerge(c, vs[|vs| - 1], vs);
    }
  }

  /** Each input vertex of SplitPoly lands by its distance: more than the
      tolerance in front only in the front part, more than the tolerance behind
      only in the back part, otherwise in both; each edge that goes strictly from
      one side to the other contributes its crossing vertex to both parts. */
  lemma SplitPolyPlacement(poly: WallPolygon, pl: Plane)
    ensures var (front, back) := Split(PlaneCutter(pl), poly.vertices);
      var vs := poly.vertices;
      && (forall i :: 0 <= i < |vs| && Distance(pl, vs[i]) > NearZero ==> vs[i] in front && vs[i] !in back)
      && (forall i :: 0 <= i < |vs| && Distance(pl, vs[i]) < -NearZero ==> vs[i] !in front && vs[i] in back)
      && (forall i :: 0 <= i < |vs| && -NearZero <= Distance(pl, vs[i]) <= NearZero ==> vs[i] in front && vs[i] in back)
      && (forall v :: v in Cuts(PlaneCutter(pl), vs) ==> v in front && v in back)
  {
    var c := PlaneCutter(pl);
    var vs := poly.vertices;
    PlaneCutterSound(pl);
    if |vs| > 0 {
      SplitLoopPlacement(c, vs[|vs| - 1], vs);
    }
  }

  /** Entirely in front: the front part is the polygon and the back part is empty. */
  lemma SplitAllInFront(poly: WallPolygon, pl: Plane)
    requires forall i :: 0 <= i < |poly.vertices| ==> Distance(pl, poly.vertices[i]) > NearZero
    ensures SplitPoly(poly, pl, true).kept == poly
    ensures SplitPoly(poly, pl, true).other.vertices == []
  {
    var c := PlaneCutter(pl);
    var vs := poly.vertices;
    if |vs| > 0 {
      assert forall i :: 0 <= i < |vs| ==> InFront(c, vs[i]);
      SplitLoopNothingBehind(c, vs[|vs| - 1], vs);
      SeamOfStrictFront(c, vs);
    }
  }

  /** When the front part comes out empty the back part is the whole polygon. */
  lemma SplitEmptyFront(poly: WallPolygon, pl: Plane)
    requires Split(PlaneCutter(pl), poly.vertices).0 == []
    ensures Split(PlaneCutter(pl), poly.vertices).1 == poly.vertices
  {
    var c := PlaneCutter(pl);
    var vs := poly.vertices;
    PlaneCutterSound(pl);
    if |vs| > 0 {
      SplitLoopPlacement(c, vs[|vs| - 1], vs);
      forall i | 0 <= i < |vs|
        ensures !InFront(c, vs[i])
      {
        if InFront(c, vs[i]) {
          assert false;
        }
      }
      SplitLoopNothingInFront(c, vs[|vs| - 1], vs);
    }
  }

  // ---------------------------------------------------------------------------
  // CropPoly.

  /** The kept vertex list the crop loop produces for the vertices `s`, `v1`
      being the vertex visited just before `s[0]`. The side of each vertex is its
      distance multiplied by `sideswitch` (+1 to keep the front, -1 to keep the
      back); crossing vertices come from the plane itself. */
  function CropLoop(c: Cutter, sideswitch: real, v1: Vec3, s: seq<Vec3>): seq<Vec3>
    decreases |s|
  {
    if |s| == 0 then []
    else
      var v2 := s[0];
      var rest := CropLoop(c, sideswitch, v2, s[1..]);
      var side1 := c.side(v1) * sideswitch;
      var side2 := c.side(v2) * sideswitch;
      if side2 > NearZero then
        if side1 < -NearZero then [c.cut(v1, v2), v2] + rest else [v2] + rest
      else if side2 < -NearZero then
        if side1 > NearZero then [c.cut(v1, v2)] + rest else rest
      else [v2] + rest
  }

  lemma {:induction false} CropSplitAgree(c: Cutter, keepfront: bool, v1: Vec3, s: seq<Vec3>)
    decreases |s|
    ensures CropLoop(c, if keepfront then 1.0 else -1.0, v1, s)
         == (if keepfront then SplitLoop(c, v1, s).0 else SplitLoop(c, v1, s).1)
  {
    if |s| > 0 {
      CropSplitAgree(c, keepfront, s[0], s[1..]);
    }
  }

  /** Crops `poly` by `pl`, keeping only the part on the chosen side. */
  function CropPoly(poly: WallPolygon, pl: Plane, keepfront: bool): (r: WallPolygon)
    ensures r.color == poly.color
    ensures forall v :: v in r.vertices ==> (if keepfront then Distance(pl, v) >= -NearZero else Distance(pl, v) <= NearZero)
  {
    var c := PlaneCutter(pl);
    var vs := poly.vertices;
    var sideswitch := if keepfront then 1.0 else -1.0;
    if |vs| == 0 then poly
    else
      CropSplitAgree(c, keepfront, vs[|vs| - 1], vs);
      PlaneCutterSound(pl);
      SplitLoopSides(c, vs[|vs| - 1], vs);
      WallPolygon(CropLoop(c, sideswitch, vs[|vs| - 1], vs), poly.color)
  }

  /** Cropping keeps exactly the vertex list that SplitPoly keeps for the same side. */
  lemma CropMatchesSplit(poly: WallPolygon, pl: Plane, keepfront: bool)
    ensures CropPoly(poly, pl, keepfront) == SplitPoly(poly, pl, keepfront).kept
  {
    var vs := poly.vertices;
    if |vs| > 0 {
      CropSplitAgree(PlaneCutter(pl), keepfront, vs[|vs| - 1], vs);
    }
  }

  /** Cropping a polygon that already lies on the kept side changes nothing. */
  lemma CropInside(poly: WallPolygon, pl: Plane, keepfront: bool)
    requires forall v :: v in poly.vertices ==> (if keepfront then Distance(pl, v) >= -NearZero else Distance(pl, v) <= NearZero)
    ensures CropPoly(poly, pl, keepfront) == poly
  {
    var c := PlaneCutter(pl);
    var vs := poly.vertices;
    CropMatchesSplit(poly, pl, keepfront);
    if |vs| > 0 {
      if keepfront {
        assert forall i :: 0 <= i < |vs| ==> !Behind(c, vs[i]);
        SplitLoopNothingBehind(c, vs[|vs| - 1], vs);
      } else {
        assert forall i :: 0 <= i < |vs| ==> !InFront(c, vs[i]);
        SplitLoopNothingInFront(c, vs[|vs| - 1], vs);
      }
    }
  }

  /** Cropping twice with the same plane and side equals cropping once. */
  lemma CropIdempotent(poly: WallPolygon, pl: Plane, keepfront: bool)
    ensures CropPoly(CropPoly(poly, pl, keepfront), pl, keepfront) == CropPoly(poly, pl, keepfront)
  {
    CropInside(CropPoly(poly, pl, keepfront), pl, keepfront);
  }
}
