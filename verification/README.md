# Wall geometry and slope handles of the visual mode, in Dafny

This project models two pure-logic pieces of the 3D ("visual") editing mode of a
Doom map editor.

1. **Wall geometry of a sidedef.** This is the sidedef geometry base class.
   - `SplitPoly` and `CropPoly` cut a convex, clockwise wall polygon against a plane, with a tolerance of 0.01f on the signed distance.
   - `CreatePolygonVertices` walks the sector's level stack from the top down. It cuts the wall polygons at the levels that need a seam, gives every piece below a level that level's light (a 3D floor or light transfer overrides the sidedef's own light), fan-triangulates the pieces and runs a final colour pass.
   - `SetLinedefRenderstyle` chooses the render pass (Solid, Mask, Alpha or Additive) and the alpha of a wall part.
   - Small helpers:
     - the rounded texture-offset step;
     - the classic offset wrap;
     - the grid snap of UV dragging;
     - the UDMF scale keys;
     - the light-value resolution.
2. **Slope handles.**
   - `NormalizedAngleDeg` folds a line's angle into [0, 180).
   - `CreateBoundingBox` builds the pick rectangle.
   - `GetSmartPivotHandle` chooses the pivot handle when none is marked.
   - `OnChangeTargetHeight` finds the pivot, builds the three points of the new plane, and writes the plane to the floor or the ceiling of every edited sector.

Doubles are exact `real`s. `Math.Round` is round-half-to-even (`Geometry.Round`). A cast of a double to `int` truncates toward zero (`Geometry.Trunc`). The C# remainders are written out: `SidedefEdits.IntRem` for integers and `SidedefEdits.RealRem` for doubles, both taking the sign of the dividend.

Collaborators the code calls but that are not part of this model become function parameters:
- the brightness table (`mode.CalculateBrightness`);
- colour modulation;
- the texture projection (`TexturePlane.GetTextureCoordsAt`);
- the glow and top/bottom colour blending of `InterpolateVertexColor`.

Object identity is modelled as follows:
- A sector level's identity is its `id` (`Levels.SameLevel`).
- A slope handle's identity is its position in the handle table, a sequence of per-sector groups in dictionary order (`SlopeHandles.HandleRef`).

Modules: `Wrappers`, `Geometry`, `Colour`, `Levels`, `Clipper`, `WallMesh`, `RenderStyle`, `SidedefEdits`, `SlopeHandles`, `SlopeEdit`.

Behaviour of the code worth knowing:
- **Split output.** A polygon that does not cross the plane still leaves its on-plane vertices in the other part (`Clipper.SplitLoopNothingBehind`). The other part is empty only when no vertex lies within the tolerance of the plane.
- **Smart-pivot tie-break.** The code keeps only the candidates whose normalised angle equals that of the head of the angle-sorted list. It then takes the one farthest from the dragged line. Candidates with the same angle *difference* on the other side of the start angle are not considered.
- **Marked pivot search.** The `break` leaves only the inner loop. The marked pivot used is therefore the first marked handle of the *last* sector that has one (`SlopeEdit.LastMarkedPivot`).

## Model

| member | source | states |
|---|---|---|
| Geometry.Inverted | Source/Plugins/BuilderModes/VisualModes/VisualSidedefSlope.cs:372 | the inverted plane gives every point the negated signed distance, so front and back swap |
| Geometry.ZAt | Source/Plugins/BuilderModes/VisualModes/VisualSidedefSlope.cs:349-351 | the plane's height above a map point is the height at which that point lies on the plane |
| Geometry.IntersectionOnPlane | Source/Plugins/BuilderModes/VisualModes/BaseVisualGeometrySidedef.cs:372-374 | the crossing point v1 + (v2 - v1)·u of an edge whose ends have different distances lies on the plane |
| Geometry.Round | Source/Plugins/BuilderModes/VisualModes/VisualSidedefSlope.cs:349-351 | rounding lands within one half of the value, and a value exactly halfway goes to the even neighbour |
| Geometry.Trunc | Source/Plugins/BuilderModes/VisualModes/VisualSidedefSlope.cs:368 | the cast to int truncates toward zero: the result has the value's sign and lies less than one away, on the side of zero |
| Clipper.PlaneCutterSound | Source/Plugins/BuilderModes/VisualModes/BaseVisualGeometrySidedef.cs:372-374 | with exact arithmetic every inserted crossing vertex has distance 0 to the cutting plane |
| Clipper.SplitPoly | Source/Plugins/BuilderModes/VisualModes/BaseVisualGeometrySidedef.cs:347-419 | both parts carry the polygon's colour; `keepfront` decides whether the front or the back part replaces the polygon, the other being returned; an empty polygon gives two empty parts |
| Clipper.SplitStep | Source/Plugins/BuilderModes/VisualModes/BaseVisualGeometrySidedef.cs:363-405 | one loop step adds the edge's crossing vertex (if the edge crosses strictly) to both parts, then the current vertex to the front, the back or both parts by its side |
| Clipper.CutSeqOnSeam | Source/Plugins/BuilderModes/VisualModes/BaseVisualGeometrySidedef.cs:367-392 | a crossing vertex is inserted only for an edge whose ends are strictly on opposite sides, and it is neither strictly in front nor strictly behind |
| Clipper.SplitLoopSides | Source/Plugins/BuilderModes/VisualModes/BaseVisualGeometrySidedef.cs:366-401 | no vertex of the front part is strictly behind the plane, no vertex of the back part is strictly in front, and every crossing vertex has distance 0 |
| Clipper.SplitLoopKeepsOrder | Source/Plugins/BuilderModes/VisualModes/BaseVisualGeometrySidedef.cs:360-406 | the vertices strictly in front appear in the front part in input order, and the strictly-behind ones likewise in the back part |
| Clipper.SplitLoopSeam | Source/Plugins/BuilderModes/VisualModes/BaseVisualGeometrySidedef.cs:367-401 | both parts carry the same seam: the on-plane input vertices and the crossing vertices, interleaved in loop order (each edge's crossing vertex before the vertex it leads to); it holds one vertex per on-plane input vertex and per crossing edge |
| Clipper.SplitLoopInterleaved | Source/Plugins/BuilderModes/VisualModes/BaseVisualGeometrySidedef.cs:360-406 | each part is the loop's outline — every edge's crossing vertex placed before the vertex it leads to — with the other side's strict vertices removed: the front part drops those strictly behind, the back part those strictly in front; this fixes where every on-plane and crossing vertex sits among the strict ones |
| Clipper.SplitLoopMerge | Source/Plugins/BuilderModes/VisualModes/BaseVisualGeometrySidedef.cs:360-406 | the two parts together hold every input vertex once, plus each on-plane vertex and each crossing vertex a second time, and nothing else |
| Clipper.SplitLoopPlacement | Source/Plugins/BuilderModes/VisualModes/BaseVisualGeometrySidedef.cs:360-406 | an input vertex farther than 0.01 in front lies only in the front part, one farther than 0.01 behind only in the back part, any other in both; crossing vertices lie in both |
| Clipper.SplitPolyPlacement | Source/Plugins/BuilderModes/VisualModes/BaseVisualGeometrySidedef.cs:355-406 | the placement rule above for a whole polygon, whose loop starts at its last vertex |
| Clipper.SplitPolyParts | Source/Plugins/BuilderModes/VisualModes/BaseVisualGeometrySidedef.cs:355-418 | for a whole polygon: sides of both parts, order of strict vertices, each part as the polygon's interleaved outline minus the other side's strict vertices, the seam content shared by both parts, and the vertex accounting |
| Clipper.SplitLoopNothingBehind | Source/Plugins/BuilderModes/VisualModes/BaseVisualGeometrySidedef.cs:366-401 | a vertex list with nothing strictly behind is its own front part, and its back part is its seam |
| Clipper.SplitLoopNothingInFront | Source/Plugins/BuilderModes/VisualModes/BaseVisualGeometrySidedef.cs:366-401 | a vertex list with nothing strictly in front is its own back part, and its front part is its seam |
| Clipper.SplitAllInFront | Source/Plugins/BuilderModes/VisualModes/BaseVisualGeometrySidedef.cs:367-380 | a polygon entirely more than 0.01 in front is kept whole as the front part, and the back part is empty |
| Clipper.SplitEmptyFront | Source/Plugins/BuilderModes/VisualModes/BaseVisualGeometrySidedef.cs:355-406 | when the front part is empty the back part is the whole polygon |
| Clipper.SeamOfStrictFront | Source/Plugins/BuilderModes/VisualModes/BaseVisualGeometrySidedef.cs:367-380 | vertices all strictly in front contribute nothing to the seam |
| Clipper.SeamOfStrictBack | Source/Plugins/BuilderModes/VisualModes/BaseVisualGeometrySidedef.cs:382-395 | vertices all strictly behind contribute nothing to the seam |
| Clipper.CropPoly | Source/Plugins/BuilderModes/VisualModes/BaseVisualGeometrySidedef.cs:423-480 | the cropped polygon keeps the colour, and every vertex of it lies on the kept side within the 0.01 tolerance |
| Clipper.CropSplitAgree | Source/Plugins/BuilderModes/VisualModes/BaseVisualGeometrySidedef.cs:426-476 | the crop loop, which multiplies distances by ±1, builds the same list as the split loop's front part (keepfront) or back part |
| Clipper.CropMatchesSplit | Source/Plugins/BuilderModes/VisualModes/BaseVisualGeometrySidedef.cs:423-480 | cropping yields exactly the polygon that SplitPoly keeps for the same plane and side |
| Clipper.CropInside | Source/Plugins/BuilderModes/VisualModes/BaseVisualGeometrySidedef.cs:430-479 | a polygon already on the kept side is left unchanged |
| Clipper.CropIdempotent | Source/Plugins/BuilderModes/VisualModes/BaseVisualGeometrySidedef.cs:423-480 | cropping twice with the same plane and side equals cropping once |
| WallMesh.PieceLightRule | Source/Plugins/BuilderModes/VisualModes/BaseVisualGeometrySidedef.cs:226-233 | below a light transfer or a lit 3D floor the light is the level's brightness; otherwise it is the sidedef's light if absolute, else brightness plus sidedef light |
| WallMesh.ThreeDFloorOverridesSidedefLight | Source/Plugins/BuilderModes/VisualModes/BaseVisualGeometrySidedef.cs:231-233 | below a light transfer or lit 3D floor the piece's light does not depend on the sidedef's light value |
| WallMesh.PieceColor | Source/Plugins/BuilderModes/VisualModes/BaseVisualGeometrySidedef.cs:218-236 | a piece below a glow level copies its parent's colour; otherwise it gets the level colour modulated by the brightness of its light, with alpha 255 |
| WallMesh.CutPlane | Source/Plugins/BuilderModes/VisualModes/BaseVisualGeometrySidedef.cs:209 | floor-type levels cut with their inverted plane, every other level with its own plane |
| WallMesh.SplitOne | Source/Plugins/BuilderModes/VisualModes/BaseVisualGeometrySidedef.cs:214-251 | one polygon's slot holds its front piece when nothing of it is left above the level, else its back piece; exactly one piece (its coloured front part) is appended when the level cuts it in two, none otherwise |
| WallMesh.SplitEach | Source/Plugins/BuilderModes/VisualModes/BaseVisualGeometrySidedef.cs:211-253 | each slot holds the polygon's front piece (coloured for the level) when nothing of it is left above the level, else its back piece; the appended pieces are exactly the front pieces of the polygons cut in two, in list order |
| WallMesh.SplitByLevel | Source/Plugins/BuilderModes/VisualModes/BaseVisualGeometrySidedef.cs:208-253 | the list grows by exactly the number of polygons the level cuts in two: the polygons present before the level are split in their own slots, and each cut polygon's front piece is appended after them in list order |
| WallMesh.WalkNeverShrinks | Source/Plugins/BuilderModes/VisualModes/BaseVisualGeometrySidedef.cs:196-258 | the walk over the level stack never makes the polygon list shorter |
| WallMesh.WalkWithoutCuts | Source/Plugins/BuilderModes/VisualModes/BaseVisualGeometrySidedef.cs:201-205 | the sector's own floor and ceiling, and floor-type levels without split-sides, never cut: a walk over such levels leaves the polygons unchanged |
| WallMesh.CutPolygonsUncut | Source/Plugins/BuilderModes/VisualModes/BaseVisualGeometrySidedef.cs:191 | a stack of at most two levels performs no splitting |
| WallMesh.SplitByLevelAbove | Source/Plugins/BuilderModes/VisualModes/BaseVisualGeometrySidedef.cs:214-252 | a polygon lying wholly above a level passes through it unchanged |
| WallMesh.FanFromShape | Source/Plugins/BuilderModes/VisualModes/BaseVisualGeometrySidedef.cs:272-277 | the triangles from k on are (p[0], p[k+t], p[k+t+1]) with the polygon's colour and each vertex's texture coordinate, three vertices per triangle |
| WallMesh.FanShape | Source/Plugins/BuilderModes/VisualModes/BaseVisualGeometrySidedef.cs:270-278 | a polygon with n > 2 vertices yields 3·(n−2) vertices forming the fan (p[0], p[k], p[k+1]), all with its colour and positions taken from it; smaller polygons yield none |
| WallMesh.MeshesSize | Source/Plugins/BuilderModes/VisualModes/BaseVisualGeometrySidedef.cs:262-279 | the mesh of a polygon list holds three vertices per triangle, n−2 triangles per polygon with n > 2 vertices |
| WallMesh.InterpolateVertexColor | Source/Plugins/BuilderModes/VisualModes/BaseVisualGeometrySidedef.cs:292-343 | the colour pass keeps a vertex's position and texture coordinate and forces alpha 255 |
| WallMesh.FanVertices | Source/Plugins/BuilderModes/VisualModes/BaseVisualGeometrySidedef.cs:270-278 | the triangle loop builds exactly the polygon's fan |
| WallMesh.Triangulate | Source/Plugins/BuilderModes/VisualModes/BaseVisualGeometrySidedef.cs:262-279 | the polygon loop appends the fans of all polygons in list order |
| WallMesh.InterpolateAll | Source/Plugins/BuilderModes/VisualModes/BaseVisualGeometrySidedef.cs:282-286 | the colour pass runs on every vertex, keeping the count and order |
| WallMesh.CreatePolygonVertices | Source/Plugins/BuilderModes/VisualModes/BaseVisualGeometrySidedef.cs:185-289 | the mesh is the colour-passed fans of the level-cut polygons, three vertices per triangle, every vertex with alpha 255 |
| RenderStyle.Clamp | Source/Plugins/BuilderModes/VisualModes/BaseVisualGeometrySidedef.cs:128 | the clamped value lies in the range, equals the input inside it and the nearer bound outside |
| RenderStyle.ByteCast | Source/Plugins/BuilderModes/VisualModes/BaseVisualGeometrySidedef.cs:142 | the byte cast yields 0..255, and the integer part for a value in [0, 256) |
| RenderStyle.LinedefAlpha | Source/Plugins/BuilderModes/VisualModes/BaseVisualGeometrySidedef.cs:126-143 | the alpha is always a byte |
| RenderStyle.SetLinedefRenderstyle | Source/Plugins/BuilderModes/VisualModes/BaseVisualGeometrySidedef.cs:120-156 | the returned alpha is the linedef's alpha; Additive exactly for a part that can be translucent whose linedef asks for additive; Alpha exactly for such a part otherwise when the alpha is below 255 or the texture is translucent; every other case is Mask if `solidasmask`, else Solid |
| RenderStyle.SolidAsMaskOnlySwapsOpaque | Source/Plugins/BuilderModes/VisualModes/BaseVisualGeometrySidedef.cs:120-156 | the alpha does not depend on the wall part or on `solidasmask`, and `solidasmask` only swaps Mask for Solid, never touching an Alpha or Additive pass |
| RenderStyle.TranslucentLineExample | Source/Plugins/BuilderModes/VisualModes/BaseVisualGeometrySidedef.cs:126-134 | TranslucentLine with amount 100 on a double-sided middle gives the Alpha pass with alpha 100 |
| RenderStyle.ActionAlpha | Source/Plugins/BuilderModes/VisualModes/BaseVisualGeometrySidedef.cs:126-128 | with the TranslucentLine action (208) the alpha is argument 1 clamped to [0, 255] |
| RenderStyle.FieldAlpha | Source/Plugins/BuilderModes/VisualModes/BaseVisualGeometrySidedef.cs:142-143 | with UDMF fields the alpha is 255 × the alpha field, truncated, except that a fully opaque linedef with the transparent flag gets 64 |
| SidedefEdits.IntRem | Source/Plugins/BuilderModes/VisualModes/BaseVisualGeometrySidedef.cs:1684 | the integer remainder is smaller than the divisor in magnitude, has the dividend's sign, and completes the truncated quotient |
| SidedefEdits.RealRem | Source/Plugins/BuilderModes/VisualModes/BaseVisualGeometrySidedef.cs:582 | the double remainder is what is left after a whole number of divisor repeats; it is smaller than the divisor in magnitude and has the dividend's sign |
| SidedefEdits.RealRemOfMultiple | Source/Plugins/BuilderModes/VisualModes/BaseVisualGeometrySidedef.cs:579 | a whole multiple of the divisor has remainder 0 |
| SidedefEdits.WrappedOffset | Source/Plugins/BuilderModes/VisualModes/BaseVisualGeometrySidedef.cs:580-582 | the moved offset rounded half to even; for a positive texture size, reduced by a whole number of repeats to less than one size from zero, and non-negative (non-positive) when the moved offset is at least 0.5 (at most -0.5) |
| SidedefEdits.GetRoundedTextureOffset | Source/Plugins/BuilderModes/VisualModes/BaseVisualGeometrySidedef.cs:577-585 | the offset is unchanged exactly when the step is 0 or a whole number of texture repeats; otherwise it lies within one unit of the wrapped range (or of the rounded sum when the size is not positive) |
| SidedefEdits.RoundedOffsetValue | Source/Plugins/BuilderModes/VisualModes/BaseVisualGeometrySidedef.cs:580-584 | a visible step gives the wrapped rounded offset, or, when that lands back on the old offset, the old offset moved one unit in the step's direction (down for a negative step, up otherwise) |
| SidedefEdits.RoundedOffsetExample | Source/Plugins/BuilderModes/VisualModes/BaseVisualGeometrySidedef.cs:579-584 | offset 10 moved by 3 on a 64-wide texture becomes 13 |
| SidedefEdits.RoundedOffsetNudgeExample | Source/Plugins/BuilderModes/VisualModes/BaseVisualGeometrySidedef.cs:579-584 | offset 5 moved by 63.6 on a 64-wide texture rounds to 69, wraps back to 5, and is nudged to 6 |
| SidedefEdits.GetNewTextureOffset | Source/Plugins/BuilderModes/VisualModes/BaseVisualGeometrySidedef.cs:571-574 | the unscaled step changes the offset exactly when it is not a whole number of texture repeats |
| SidedefEdits.WholeRepeatsKeepOffset | Source/Plugins/BuilderModes/VisualModes/BaseVisualGeometrySidedef.cs:579 | moving by a whole number of texture repeats leaves the offset as it is |
| SidedefEdits.ClassicOffsets | Source/Plugins/BuilderModes/VisualModes/BaseVisualGeometrySidedef.cs:1682-1686 | offsets move by the negated step and, when the texture is loaded, wrap by its width and (except on middle walls) its height; a zero size with a loaded texture throws, leaving the fields written before the throw: a zero width leaves the moved horizontal offset and the old vertical one, a zero height the wrapped horizontal and the moved vertical offset |
| SidedefEdits.SnapAxis | Source/Plugins/BuilderModes/VisualModes/BaseVisualGeometrySidedef.cs:1549-1570 | the step is 0 or one grid size toward the dragged offset, taken exactly when the drag has moved at least one grid size; afterwards the remembered offset is within one grid size of the dragged one |
| SidedefEdits.DraggedOffsets | Source/Plugins/BuilderModes/VisualModes/BaseVisualGeometrySidedef.cs:1547-1548 | the horizontal offset decreases and the vertical one increases by the drag distance rounded half to even, so each lies within half a unit of the unrounded value |
| SidedefEdits.DraggedOffsetsTies | Source/Plugins/BuilderModes/VisualModes/BaseVisualGeometrySidedef.cs:1547-1548 | drag distances exactly halfway between whole units round to the even one (0.5 to 0, 1.5 and -2.5 to a distance of 2) |
| SidedefEdits.GridSnapDrag | Source/Plugins/BuilderModes/VisualModes/BaseVisualGeometrySidedef.cs:1547-1572 | the change is applied exactly when an axis moved, and both remembered offsets stay within one grid size of the dragged ones |
| SidedefEdits.ScaleKeys | Source/Plugins/BuilderModes/VisualModes/BaseVisualGeometrySidedef.cs:1711-1730 | upper, middle and lower walls map to their scalex_/scaley_ fields; any other part fails with the "unknown GeometryType" message |
| SidedefEdits.ScaleKeysDistinct | Source/Plugins/BuilderModes/VisualModes/BaseVisualGeometrySidedef.cs:1713-1726 | different wall parts scale through different fields |
| SidedefEdits.GetLightValue | Source/Plugins/BuilderModes/VisualModes/BaseVisualGeometrySidedef.cs:523-568 | fog without light-fog or absolute light zeroes the light and clears absoluteness; the absoluteness is the global or the part flag; an absolute part light takes precedence; without per-part brightness the light is the sidedef's light |
| SidedefEdits.PartLightAdds | Source/Plugins/BuilderModes/VisualModes/BaseVisualGeometrySidedef.cs:564 | with per-part brightness, no absolute part light and no fog override, the part light adds to the sidedef's light |
| SidedefEdits.LightFieldShift | Source/Plugins/BuilderModes/VisualModes/BaseVisualGeometrySidedef.cs:547-567 | raising the sidedef's light field by d raises the part's light by d unless fog blanks it or an absolute part light replaces it, in which cases the light is unchanged; the absoluteness never changes |
| SlopeHandles.NormalizedAngleDeg | Source/Plugins/BuilderModes/VisualModes/VisualSidedefSlope.cs:39 | an angle in [0, 360) folds into [0, 180), differing from it by 0 or 180 |
| SlopeHandles.OppositeAnglesAgree | Source/Plugins/BuilderModes/VisualModes/VisualSidedefSlope.cs:39 | angles half a turn apart normalise to the same value |
| SlopeHandles.CreateBoundingBox | Source/Plugins/BuilderModes/VisualModes/VisualSidedefSlope.cs:66-80 | the box contains both endpoints with an 8-unit margin on every side; its width is abs(x2−x1)+16 and its height abs(y2−y1)+16 |
| SlopeHandles.OthersOnLevel | Source/Plugins/BuilderModes/VisualModes/VisualSidedefSlope.cs:185-187 | the handles of a group other than the start handle and on the given level, and nothing else |
| SlopeHandles.DistinctSectors | Source/Plugins/BuilderModes/VisualModes/VisualSidedefSlope.cs:204-208 | every selected sector once, and nothing else |
| SlopeHandles.Matches | Source/Plugins/BuilderModes/VisualModes/VisualSidedefSlope.cs:214-221 | a handle is added at least once exactly when some selected surface is on its level |
| SlopeHandles.SectorsMatches | Source/Plugins/BuilderModes/VisualModes/VisualSidedefSlope.cs:212-221 | the handles of the listed sectors, other than the start handle, on a selected level, and nothing else |
| SlopeHandles.Candidates | Source/Plugins/BuilderModes/VisualModes/VisualSidedefSlope.cs:181-222 | without a selection: exactly the other handles of the start handle's sector on its level; with one: exactly the other handles of selected sectors on some selected level |
| SlopeHandles.AngleDiff | Source/Plugins/BuilderModes/VisualModes/VisualSidedefSlope.cs:239 | the angle difference is 0 exactly when both lines normalise to the same angle |
| SlopeHandles.ClosestAngle | Source/Plugins/BuilderModes/VisualModes/VisualSidedefSlope.cs:239 | the position found holds the smallest angle difference and no earlier candidate has it: the head of a stable sort by angle difference |
| SlopeHandles.Farthest | Source/Plugins/BuilderModes/VisualModes/VisualSidedefSlope.cs:255 | among candidates with the head's normalised angle, the one found is farthest from the start line and no earlier one is as far |
| SlopeHandles.ChoiceIsUnique | Source/Plugins/BuilderModes/VisualModes/VisualSidedefSlope.cs:239-255 | the closest-angle head and the farthest same-angle candidate are each determined uniquely, so the two-step choice names one handle |
| SlopeHandles.MarkOnly | Source/Plugins/BuilderModes/VisualModes/VisualSidedefSlope.cs:232-236 | every handle's smart-pivot flag becomes whether it is the marked handle, with everything else unchanged |
| SlopeHandles.GetSmartPivotHandle | Source/Plugins/BuilderModes/VisualModes/VisualSidedefSlope.cs:171-302 | no pivot exactly when there is no candidate; the pivot is never the start handle; it is the farthest among the candidates sharing the closest angle; only its smart-pivot flag is set |
| SlopeEdit.FirstPivot | Source/Plugins/BuilderModes/VisualModes/VisualSidedefSlope.cs:323-330 | the inner loop stops at the first handle marked as pivot, if any |
| SlopeEdit.FindPivot | Source/Plugins/BuilderModes/VisualModes/VisualSidedefSlope.cs:321-331 | a marked pivot is found exactly when some handle is marked, and it is the first marked handle of the last sector that has one |
| SlopeEdit.FitPlane | Source/Plugins/BuilderModes/VisualModes/VisualSidedefSlope.cs:356 | the new plane passes through all three points and faces up |
| SlopeEdit.DraggedPoint | Source/Plugins/BuilderModes/VisualModes/VisualSidedefSlope.cs:349-354 | an end of the dragged line is at its current height rounded to a whole unit, plus the amount, so it is a whole number within half a unit of the moved height |
| SlopeEdit.PivotPoint | Source/Plugins/BuilderModes/VisualModes/VisualSidedefSlope.cs:351 | the pivot point is the middle of the pivot's line at its current height rounded to a whole unit |
| SlopeEdit.DraggedPlane | Source/Plugins/BuilderModes/VisualModes/VisualSidedefSlope.cs:347-356 | the new plane passes through both moved ends and the pivot point, facing up |
| SlopeEdit.RouteLevel | Source/Plugins/BuilderModes/VisualModes/VisualSidedefSlope.cs:361-376 | an upward level that is not a 3D floor gets the plane as its floor, any other the inverted plane as its ceiling; the height is the plane's height at the sector's box centre, truncated |
| SlopeEdit.EditedLevels | Source/Plugins/BuilderModes/VisualModes/VisualSidedefSlope.cs:314-318 | the handle's own level without a selection, otherwise the selected surfaces' levels in order |
| SlopeEdit.ChoosePivot | Source/Plugins/BuilderModes/VisualModes/VisualSidedefSlope.cs:321-336 | a marked pivot wins and leaves the flags alone; otherwise the smart pivot is used and the flags are updated |
| SlopeEdit.RouteAll | Source/Plugins/BuilderModes/VisualModes/VisualSidedefSlope.cs:359-390 | every edited level receives the routed plane, in order |
| SlopeEdit.OnChangeTargetHeight | Source/Plugins/BuilderModes/VisualModes/VisualSidedefSlope.cs:308-393 | without any pivot there is no undo and no sector change; otherwise an undo is opened and each edited level gets the plane through the moved line ends and the pivot point, as its floor or ceiling |

## Left out

- WallMesh.PieceLightRule, WallMesh.ThreeDFloorOverridesSidedefLight, RenderStyle.ActionAlpha, RenderStyle.FieldAlpha, SidedefEdits.ScaleKeysDistinct, SidedefEdits.PartLightAdds: these restate rules that follow directly from the definitions. They document the rules for a reader but add no proof beyond them.

- Geometry.Round / Geometry.Trunc: exact reals stand in for floats and doubles. Single-precision steps such as `(float)Math.Round(...)` and the float plane heights are not modelled.
- Geometry.ZAt and SlopeEdit.HeightAt: a vertical plane has no height. The C# code would divide by zero and cast the result. The model requires non-vertical handle planes and records the missing height as `None`.
- SlopeEdit.FitPlane: the plane's three-point constructor is not part of this model. The model builds an upward plane from the cross product and does not normalise the normal to unit length. Only the incidence of the three points and the upward orientation are claimed.
- SlopeHandles.DistanceKey: the sort key is the squared cross product of the start line with the vector to the candidate's centre. This orders candidates as `GetDistanceToLine` does when the start line has non-zero length. For a line of length zero all keys tie, where the code compares NaN distances.
- SlopeHandles.DistinctSectors: the selected sectors are visited in the order they were first selected. The code collects them in a `HashSet<Sector>`, whose enumeration order .NET does not guarantee; when the stable sorts tie, that order decides which candidate wins, so the model's winner assumes first-selection order.
- SlopeHandles.Candidates: the model requires every selected sector to have handles. The dictionary lookup would otherwise throw, and that path is not modelled.
- RenderStyle.ByteCast: the byte cast of a double outside the byte range is modelled as truncation followed by the low eight bits. Casts of NaN and infinities are not modelled.
- Integer overflow of `int` offsets, light values and heights is not modelled: integers are unbounded.
- `InterpolateVertexColor`: the glow and top/bottom colour blending is a parameter. Only its guarantee that positions and texture coordinates are kept and alpha is 255 is modelled.
- Brightness tables (`mode.CalculateBrightness`), colour modulation and texture projection are function parameters. Their code is not part of this model.
- Rebuilding visual sectors, undo bookkeeping beyond the "undo opened" flag, and status messages of `OnChangeTargetHeight` are left out: they are editor state.
- `ClipExtraFloors`, picking and ray intersection, UV-drag camera maths, `FitTexture`, selection and clipboard handlers: these are UI or float-heavy camera code outside the modelled core.
- `OnChangeScale` after the key switch (new scale computation and field writes): only the key selection and its failure are modelled.
