# MiniGL core, modelled in Dafny

MiniGL is a small software renderer written in C#. This project models its
core and proves properties of that model:

- **Transformation makers.** `TMaker` holds a 4x4 matrix and `TMaker2D` a
  3x3 matrix. Every rotation, translation, scaling or custom transform
  replaces the held matrix by `Op * mat`.
- **View transformation and clipping.** `ViewTransformer` builds the
  orthographic or perspective matrix, maps vertices to the window, and clips
  polygons against the six planes of the view cube (Sutherland–Hodgman),
  with a special case for two-point lines. `TMaker2D` clips against a 2D
  viewport in four passes.
- **Rasterizer.** `Rasterizer` walks segments with Bresenham's integer line
  algorithm. It fills polygons through an indicator map (`idcMap`) that is
  marked along the edges and scanned column by column, and it paints the
  result into a `Screen<T>` or a depth-tested `ZBuffer<T>`.
- **Depth buffer.** The int-tagged `ZBuffer` lets a code in only when it
  lies strictly in front of what is stored.
- **Primitive store.** `GManager` keeps a growable array of tagged lines and
  triangles, a dictionary from id to object, and an active id. It removes
  primitives by tag and draws them with a one-entry object cache.
- **Utilities.** These are the vectors, rectangles, cuboids and matrices of
  `GUtility.cs` and its bounds and intersection routines. They also include
  the `QuadTree` and `OctTree` containers, `GObject` bounds, and the
  rectangle builder of `GConstructor.cs`.

There is one Dafny module per source file. `numerics.dfy` adds the shared
numeric helpers and the `Result` type. `lines.dfy`, `fills.dfy` and
`scans.dfy` hold the line walk and the polygon fill that `Rasterizer.cs`
uses. Classes whose fields the source updates in place are Dafny classes:
the matrices, the makers, the rasterizer, the screens and buffers, the
manager and the graphical objects. The value types of `GUtility.cs` are
datatypes. Loops are methods proved against specification functions.
`double` and `float` are modelled as `real`. A C# exception is an `Err`
result naming the exception. Quirks in the source are modelled as written,
and lemmas show what each one does:

- `Matrix2 -` and `Matrix4.Sub` add.
- `Matrix3.Transpose` gives zeros.
- The `Vec2I` dot product uses `l.Y * l.Y`.
- The `Vec3I` `+` and `-` mix components.
- The depth test of `Cuboid.IntersectsWith` is reversed.
- Bounds computed with `else if` miss a single point.
- `ZBuffer.width` and `ZBuffer.height` are never assigned.
- `Matrix4.Inverse` and `Matrix4.Det` have a wrong factor in three cofactors (see Findings).
- The rasterizer's "no mark" value `EMPTY` is 1.0, so a depth mark of 1.0 is no mark: a polygon lying in the plane z = 1 paints nothing into a `ZBuffer<T>`.
- A negative size throws C#'s `OverflowException`, except a negative height with width 0, which allocates no column.
- `RemoveObjectByHash` copies from one past the last entry.
- `QuadTree.Insert` tries `tl` twice and never `tr`.
- The `QuadTree` and `OctTree` counters drift.

## Model

| member | source | states |
|---|---|---|
| Numerics.BelowStrictOrder | MiniGL/ZBuffer.cs:52 | the depth comparison, with -infinity below every finite depth, is irreflexive, transitive, asymmetric and total on distinct values |
| Numerics.Trunc | MiniGL/GUtility.cs:654-657 | the `(int)` cast rounds toward zero: the result is within 1 of x, on the side of zero |
| Numerics.TruncMonotone | MiniGL/GUtility.cs:903-906 | truncation preserves order |
| Numerics.Div | MiniGL/GUtility.cs:659-662 | for a non-zero divisor the quotient times the divisor is the dividend; for a zero divisor the model's quotient is 0 |
| GConstructors.UpperTriangle | MiniGL/GConstructor.cs:15 | the first triangle has the corners top-left, top-right and bottom-left, all at depth w |
| GConstructors.LowerTriangle | MiniGL/GConstructor.cs:16 | the second triangle has the corners top-right, bottom-right and bottom-left, all at depth w |
| GConstructors.SharedDiagonal | MiniGL/GConstructor.cs:15-16 | the two triangles share the diagonal from top-right to bottom-left |
| GConstructors.GetRectangle | MiniGL/GConstructor.cs:13-17 | returns two fresh, distinct triangles on fresh point arrays that share the transform; their points are the two halves and their bounds are the rectangle |
| GConstructors.GetRectangleOf | MiniGL/GConstructor.cs:5-8 | the rectangle overload forwards its sides and gives the same two triangles |
| GConstructors.GetRectangleUnit | MiniGL/GConstructor.cs:9-12 | the overload without w builds the triangles at depth 1 |
| DepthBuffers.ReplayFront | MiniGL/ZBuffer.cs:50-59 | after any sequence of `TryInsert` calls on a cell, the stored depth is at least every depth offered |
| DepthBuffers.LastWon | MiniGL/ZBuffer.cs:50-59 | finds the last call that succeeded: it won and every later call lost, or no call won |
| DepthBuffers.ReplayLastWinner | MiniGL/ZBuffer.cs:17-59 | a cell holds the depth and code of the last successful call, or (-infinity, background) when none succeeded |
| DepthBuffers.ZBuffer.constructor | MiniGL/ZBuffer.cs:17-31 | for sizes the allocation accepts, every cell holds (-infinity, background); `Width` and `Height` stay 0, because the fields are never assigned |
| DepthBuffers.ZBuffer.Create | MiniGL/ZBuffer.cs:17-31 | an overflow error exactly when the width is negative, or the height is negative and there is a column to allocate; otherwise the constructor's buffer |
| DepthBuffers.ZBuffer.Get | MiniGL/ZBuffer.cs:15 | the indexer gives the stored code inside the buffer and an index error outside it |
| DepthBuffers.ZBuffer.Clear | MiniGL/ZBuffer.cs:33-36 | `Clear(background)` sets the cells of the first `width` x `height` to (-infinity, background) and keeps every other cell |
| DepthBuffers.ZBuffer.ClearTo | MiniGL/ZBuffer.cs:37-48 | sets exactly the cells of the first `width` columns and `height` rows to (z, background) |
| DepthBuffers.ZBuffer.TryInsert | MiniGL/ZBuffer.cs:50-59 | answers true exactly when the stored depth is strictly below z, then stores (z, code); no other cell changes and no depth decreases; throws outside the buffer |
| DepthBuffers.InsertExample | MiniGL/ZBuffer.cs:50-59 | inserting at depths 1, 0.5 and 2 succeeds, fails and succeeds, and the cell holds the third code |
| DepthBuffers.ClearExample | MiniGL/ZBuffer.cs:8-48 | on a new buffer `Clear` changes nothing, because width and height are 0 |
| TMakers.AxisRotations | MiniGL/TMaker.cs:50-87 | the matrices of `RotateX`, `RotateY` and `RotateZ` are the general rotation of `Rotate` about the unit axes |
| TMakers.TranslationMoves | MiniGL/TMaker.cs:89-96 | the translation matrix moves a point with w = 1 by the three offsets |
| TMakers.TranslateFromIdentity | MiniGL/TMaker.cs:10-13 | from a new TMaker, `Translate` followed by `Transform` moves a point by the offsets |
| TMakers.TwoOperations | MiniGL/TMaker.cs:38-117 | two accumulated operations give Op2 * (Op1 * M) = (Op2 * Op1) * M, and on a point M acts first, then Op1, then Op2 |
| TMakers.NewMatrix4 | MiniGL/TMaker.cs:43-46 | `new Matrix4(double[])` on sixteen entries holds exactly those entries in fresh storage |
| TMakers.TMaker.constructor | MiniGL/TMaker.cs:10-13 | a new TMaker holds a fresh identity matrix |
| TMakers.TMaker.WithMatrix | MiniGL/TMaker.cs:14-17 | the constructor keeps the given matrix object itself, not a copy |
| TMakers.TMaker.GetMatrix | MiniGL/TMaker.cs:19-22 | returns the matrix object itself |
| TMakers.TMaker.LoadIdentity | MiniGL/TMaker.cs:24-27 | replaces the matrix by a fresh identity |
| TMakers.TMaker.Clone | MiniGL/TMaker.cs:28-32 | returns a new TMaker over a copy of the matrix in fresh storage, with equal entries |
| TMakers.TMaker.Load | MiniGL/TMaker.cs:33-36 | holds the caller's matrix object, so later changes to it show here |
| TMakers.TMaker.Rotate | MiniGL/TMaker.cs:38-48 | the new matrix is the rotation about (x, y, z) times the old matrix |
| TMakers.TMaker.RotateX | MiniGL/TMaker.cs:50-61 | the new matrix is the rotation about the x axis times the old matrix |
| TMakers.TMaker.RotateY | MiniGL/TMaker.cs:63-74 | the new matrix is the rotation about the y axis times the old matrix |
| TMakers.TMaker.RotateZ | MiniGL/TMaker.cs:76-87 | the new matrix is the rotation about the z axis times the old matrix |
| TMakers.TMaker.Translate | MiniGL/TMaker.cs:89-96 | the new matrix is the translation times the old matrix |
| TMakers.TMaker.ScaleUniform | MiniGL/TMaker.cs:97-100 | `Scale(u)` pre-multiplies by the scaling (u, u, u) |
| TMakers.TMaker.Scale | MiniGL/TMaker.cs:101-108 | the new matrix is the scaling (x, y, z) times the old matrix |
| TMakers.TMaker.ApplyCustomTransform | MiniGL/TMaker.cs:110-113 | the new matrix is t times the old matrix |
| TMakers.TMaker.ApplyCustomTransformOf | MiniGL/TMaker.cs:114-117 | the new matrix is the other TMaker's matrix times the old matrix |
| TMakers.TMaker.GetInverse | MiniGL/TMaker.cs:118-123 | returns a new TMaker over `Matrix4.Inverse` of a copy, this one unchanged; the identity when `Det` is 0 |
| TMakers.ElementaryInverses | MiniGL/TMaker.cs:118-123 | for every rotation, translation and scaling of non-zero determinant, `GetInverse` gives a right inverse |
| TMakers.TurnThenLiftIsProduct | MiniGL/TMaker.cs:76-96 | `RotateZ(0.6, 0.8)` then `Translate(0, 0, 1)` from the identity leave the composite TurnThenLift |
| TMakers.TurnThenLiftNotInverted | MiniGL/TMaker.cs:118-123 | that composite has determinant 1, yet its product with what `GetInverse` stores has 0.288 where the identity has 0 |
| TMakers.TMaker.Transform | MiniGL/TMaker.cs:125-128 | returns the matrix applied to the point |
| TMakers.TMaker.TransformAll | MiniGL/TMaker.cs:129-133 | writes mat * src[i] into dst[i] for every i of src and no other slot; a dst shorter than src is filled up to its end, then the index fails |
| Matrices.Mul4At | MiniGL/GUtility.cs:1580-1595 | entry (i, j) of the 4x4 product is row i of the left factor times column j of the right factor |
| Matrices.Transpose4At | MiniGL/GUtility.cs:1342-1354 | the transpose exchanges entry (i, j) with entry (j, i) |
| Matrices.Transpose4Involution | MiniGL/GUtility.cs:1342-1354 | transposing twice gives the matrix back, and the diagonal stays in place |
| Matrices.Identity4Neutral | MiniGL/GUtility.cs:1618-1625 | the identity is neutral for the product on both sides and for the matrix-vector product |
| Matrices.ApplyMul4 | MiniGL/GUtility.cs:1573-1595 | applying a product to a vector applies the right factor first: (A * B) * p = A * (B * p) |
| Matrices.ColMul4 | MiniGL/GUtility.cs:1580-1595 | column j of a product is the left factor applied to column j of the right factor |
| Matrices.Mul4Assoc | MiniGL/GUtility.cs:1580-1595 | the 4x4 product is associative |
| Matrices.Inverse4Identity | MiniGL/GUtility.cs:1355-1526 | the identity has determinant 1 and `Inverse` of the identity gives the identity |
| Matrices.InverseSingular | MiniGL/GUtility.cs:1355-1372 | a matrix with determinant 0 becomes the identity |
| Matrices.InverseNonSingular | MiniGL/GUtility.cs:1355-1493 | a matrix whose determinant, as `Det` computes it, is non-zero becomes the source's adjugate scaled by the reciprocal of that determinant |
| Matrices.ScaleInPlace | MiniGL/GUtility.cs:1487-1488 | the closing loop of `Inverse` multiplies every entry by the factor, in place |
| Matrices.Inverse4CorrectedRight | MiniGL/GUtility.cs:1355-1493 | with the three cofactors corrected, a matrix of non-zero determinant times its inverse is the identity |
| Matrices.Cof3Error | MiniGL/GUtility.cs:1382-1388 | the source's entry 3 differs from the corrected cofactor by m1·m11·(m6 − m5) |
| Matrices.Det4Error | MiniGL/GUtility.cs:1495-1526 | `Det` differs from the true determinant by m12·m1·m11·(m6 − m5) |
| Matrices.Adjugate4Error | MiniGL/GUtility.cs:1361-1484 | entries 3, 5 and 10 of the source's adjugate are off by m1·m11·(m6 − m5), m12·m11·(m8 − m2) and m12·m7·(m4 − m1); the other thirteen are right |
| Matrices.Inverse4RightWhere | MiniGL/GUtility.cs:1355-1493 | when m12 is 0 and one of m1, m11, m6 − m5 is 0, `Inverse` does give a right inverse |
| Matrices.Shift4Cofactors | MiniGL/GUtility.cs:1361-1388 | on the cyclic shift, the source's first-column cofactors are all 0 where the corrected fourth one is −1 |
| Matrices.Det4MissesInvertible | MiniGL/GUtility.cs:1355-1372 | `Det` of the cyclic shift is 0 though its true determinant is −1, so `Inverse` leaves the identity |
| Matrices.Shift4NotInverted | MiniGL/GUtility.cs:1355-1372 | the shift times what `Inverse` leaves is not the identity |
| Matrices.Shift4Orthogonal | MiniGL/GUtility.cs:1355-1372 | the shift is invertible: its transpose is a right inverse |
| Matrices.Swap4Adjugate | MiniGL/GUtility.cs:1408-1414 | on a permutation matrix the source's entry 5 of the adjugate is 0 |
| Matrices.Inverse4NotRightInverse | MiniGL/GUtility.cs:1355-1493 | for that permutation, `Det` is right (1), yet the product with what `Inverse` stores has 0 at (1, 1) |
| Matrices.Matrix4.Wrap | MiniGL/GUtility.cs:1306-1311 | once the length check has passed, the matrix keeps the caller's array itself |
| Matrices.Matrix4.FromArray | MiniGL/GUtility.cs:1306-1311 | `new Matrix4(double[])` throws exactly when the array does not hold 16 entries, and otherwise aliases it |
| Matrices.Matrix4.GetIdentity | MiniGL/GUtility.cs:1618-1625 | a fresh matrix holding the identity |
| Matrices.Matrix4.Transpose | MiniGL/GUtility.cs:1342-1354 | replaces the entries by a fresh array holding the transpose |
| Matrices.Matrix4.Add | MiniGL/GUtility.cs:1535-1539 | adds the other matrix entry by entry, in place |
| Matrices.Matrix4.Sub | MiniGL/GUtility.cs:1540-1544 | as written, adds the other matrix entry by entry, exactly like `Add` |
| Matrices.Matrix4.Clone | MiniGL/GUtility.cs:1565-1571 | a new matrix over a fresh array with the same entries |
| Matrices.Matrix4.Mul | MiniGL/GUtility.cs:1580-1595 | `l * r` is a fresh matrix holding the row-by-column product |
| Matrices.Matrix4.Inverse | MiniGL/GUtility.cs:1355-1493 | answers true exactly when `Det` is non-zero; the entries become the source's scaled adjugate, or the identity when `Det` is 0 |
| Matrices.Matrix4.Scale | MiniGL/GUtility.cs:1596-1602 | `l * scalar` is a fresh matrix with every entry multiplied by the scalar |
| Matrices.Matrix4.Plus | MiniGL/GUtility.cs:1603-1609 | `l + r` is a fresh matrix holding the entry-wise sum |
| Matrices.Matrix4.Minus | MiniGL/GUtility.cs:1610-1616 | `l - r` is a fresh matrix holding the entry-wise difference |
| Matrices.Mul3At | MiniGL/GUtility.cs:1247-1261 | entry (i, j) of the 3x3 product is row i of the left factor times column j of the right factor |
| Matrices.Identity3Neutral | MiniGL/GUtility.cs:1269-1272 | the 3x3 identity is neutral for both products |
| Matrices.Identity3Inverse | MiniGL/GUtility.cs:1154-1171 | the 3x3 identity has determinant 1 and is its own inverse |
| Matrices.Inverse3Right | MiniGL/GUtility.cs:1154-1171 | a 3x3 matrix of non-zero determinant times its inverse is the identity |
| Matrices.Inverse3Solves | MiniGL/GUtility.cs:1154-1171 | for a 3x3 matrix of non-zero determinant, the inverse applied to y solves m·x = y |
| Matrices.Matrix3.Wrap | MiniGL/GUtility.cs:1115-1118 | `new Matrix3(double[])` keeps the caller's array and checks no length |
| Matrices.Matrix3.constructor | MiniGL/GUtility.cs:1119-1131 | the nine-argument constructor fills a fresh array row by row |
| Matrices.Matrix3.GetIdentity | MiniGL/GUtility.cs:1269-1272 | a fresh matrix holding the identity |
| Matrices.Matrix3.Transpose | MiniGL/GUtility.cs:1141-1153 | the local array named like the field is copied into itself, so every entry becomes 0, whatever the matrix held |
| Matrices.Matrix3.Inverse | MiniGL/GUtility.cs:1154-1171 | answers true exactly when the determinant is non-zero; the entries become the scaled adjugate, or the identity for a singular matrix |
| Matrices.Matrix3.Add | MiniGL/GUtility.cs:1173-1177 | adds the other matrix entry by entry, in place |
| Matrices.Matrix3.Sub | MiniGL/GUtility.cs:1178-1182 | subtracts the other matrix entry by entry, in place |
| Matrices.Matrix3.Clone | MiniGL/GUtility.cs:1218-1224 | a new matrix over a fresh array with the same entries |
| Matrices.Matrix3.Plus | MiniGL/GUtility.cs:1226-1232 | `l + r` is a fresh matrix holding the entry-wise sum |
| Matrices.Matrix3.Minus | MiniGL/GUtility.cs:1233-1239 | `l - r` is a fresh matrix holding the entry-wise difference |
| Matrices.Matrix3.Scale | MiniGL/GUtility.cs:1240-1246 | `l * scalar` is a fresh matrix with every entry multiplied by the scalar |
| Matrices.Matrix3.Mul | MiniGL/GUtility.cs:1247-1261 | `l * r` is a fresh matrix holding the row-by-column product |
| Matrices.Entries2 | MiniGL/GUtility.cs:1089-1098 | the 2x2 product and scalings written entry by entry |
| Matrices.Inverse2Right | MiniGL/GUtility.cs:1025-1036 | for a non-singular 2x2 matrix, applying the matrix after its inverse gives the vector back |
| Matrices.Identity2Neutral | MiniGL/GUtility.cs:1076-1079 | the 2x2 identity is neutral for both products, has determinant 1 and is its own inverse |
| Matrices.Matrix2.Wrap | MiniGL/GUtility.cs:993-996 | `new Matrix2(double[])` keeps the caller's array |
| Matrices.Matrix2.constructor | MiniGL/GUtility.cs:997-1004 | the four-argument constructor fills a fresh array in that order |
| Matrices.Matrix2.GetIdentity | MiniGL/GUtility.cs:1076-1079 | a fresh matrix holding the identity |
| Matrices.Matrix2.Transpose | MiniGL/GUtility.cs:1006-1011 | swaps v1 and v2 in place |
| Matrices.Matrix2.Inverse | MiniGL/GUtility.cs:1025-1036 | answers true exactly when the determinant is non-zero; the entries become the scaled adjugate, or the identity for a singular matrix |
| Matrices.Matrix2.Add | MiniGL/GUtility.cs:1038-1044 | adds the other matrix entry by entry, in place |
| Matrices.Matrix2.Sub | MiniGL/GUtility.cs:1045-1051 | subtracts the other matrix entry by entry, in place |
| Matrices.Matrix2.Clone | MiniGL/GUtility.cs:1071-1074 | a new matrix over a fresh array with the same entries |
| Matrices.Matrix2.Plus | MiniGL/GUtility.cs:1081-1084 | `l + r` is a fresh matrix holding the entry-wise sum |
| Matrices.Matrix2.Minus | MiniGL/GUtility.cs:1085-1088 | `l - r` as written adds its operands, exactly like `l + r` |
| Matrices.Matrix2.Mul | MiniGL/GUtility.cs:1089-1095 | `l * r` is a fresh matrix holding the 2x2 product |
| Matrices.Matrix2.Scale | MiniGL/GUtility.cs:1096-1099 | `l * s` is a fresh matrix with every entry multiplied by s |
| Vectors.FromHomo2 | MiniGL/GUtility.cs:659-662 | when the homogeneous coordinate is non-zero, the result scaled back by it gives x and y |
| Vectors.Cross | MiniGL/GUtility.cs:717-720 | the cross product is orthogonal to both operands |
| Vectors.FromHomo3 | MiniGL/GUtility.cs:727-730 | when w is non-zero, the result scaled back by w gives x, y and z |
| Vectors.Vec4.TimesScalar | MiniGL/GUtility.cs:854-861 | multiplying by a scalar keeps x, y, z and divides w by the scalar, so for a non-zero scalar the new w times the scalar is the old w |
| Vectors.Vec4.Normalize | MiniGL/GUtility.cs:815-823 | leaves a vector with w equal to 0 or 1 unchanged; otherwise the result has w = 1 and its x, y, z times the old w are the old x, y, z |
| Vectors.Vec4.ToCartesian | MiniGL/GUtility.cs:825-830 | with w = 0 returns x, y, z unchanged; otherwise a point that times w gives x, y, z |
| Vectors.NormalizeIdempotent | MiniGL/GUtility.cs:815-823 | normalizing twice equals normalizing once, and a normalized vector has w equal to 0 or 1 |
| Vectors.NormalizeThenCartesian | MiniGL/GUtility.cs:815-830 | for non-zero w, the first three coordinates after normalizing are the Cartesian point |
| Vectors.Vec2IDotUsesLeftY | MiniGL/GUtility.cs:478-481 | the integer dot product as written is l.X·r.X + l.Y·l.Y, ignores r.Y, and is not symmetric |
| Vectors.CrossI | MiniGL/GUtility.cs:513-516 | the integer cross product is orthogonal to both operands |
| Vectors.Vec3IMixedComponents | MiniGL/GUtility.cs:518-525 | the Z of a sum is l.Z + l.Y and the Z of a difference is l.Z - r.Y, as written; X and Y add componentwise |
| Vectors.RectIFromXYWH | MiniGL/GUtility.cs:581-584 | the rectangle starts at (x, y) and has width w and height h |
| Vectors.RectIRelations | MiniGL/GUtility.cs:558-569 | overlap is symmetric; containment is reflexive, transitive and carries contained points and overlaps along |
| Vectors.RectFromXYWH | MiniGL/GUtility.cs:899-902 | the rectangle starts at (x, y) and has width w and height h |
| Vectors.RectRelations | MiniGL/GUtility.cs:882-897 | overlap is symmetric; containment is reflexive, transitive and carries points along; the point and x/y containment tests agree |
| Vectors.ToRectIContains | MiniGL/GUtility.cs:903-906 | a point inside a rectangle truncates to a point inside the truncated rectangle |
| Vectors.CuboidFromPosSize | MiniGL/GUtility.cs:935-943 | the cuboid's near corner is pos and its width, height and depth are the size |
| Vectors.CuboidIntersectionReversed | MiniGL/GUtility.cs:958-962 | with the reversed depth test as written, a cuboid of positive depth never intersects itself or a deep cuboid it contains, and intersecting cuboids satisfy F ≤ other.N and other.F ≤ N |
| Vectors.CuboidContains | MiniGL/GUtility.cs:945-956 | containment is reflexive and transitive and carries contained points along |
| Geometry.GetBounds | MiniGL/GUtility.cs:194-212 | an empty list gives (MaxValue, MaxValue, MinValue, MinValue); otherwise the box contains every point, each side is attained by a point, and it equals `BoundsOf` |
| Geometry.BoundsOf | MiniGL/GUtility.cs:194-212 | the tightest box: it contains every point and each of its sides is some point's coordinate |
| Geometry.BoundsUnique | MiniGL/GUtility.cs:194-212 | any box that contains every point and whose sides are all attained is `BoundsOf` |
| Geometry.AxisBoundsLow | MiniGL/GUtility.cs:219-228 | the low end of the per-axis fold is the minimum of the values, or int.MaxValue for none |
| Geometry.AxisBoundsHigh | MiniGL/GUtility.cs:219-228 | because of the `else`, the high end only bounds the values that did not lower the minimum when met, and is one of them or int.MinValue |
| Geometry.GetBoundsI | MiniGL/GUtility.cs:213-231 | the rectangle is the low and high ends of the X fold and of the Y fold |
| Geometry.GetBoundsIMissesSinglePoint | MiniGL/GUtility.cs:213-231 | for the single point (5, 7) the box is (5, 7, int.MinValue, int.MinValue), which does not contain the point |
| Geometry.RayIntersection | MiniGL/GUtility.cs:37-60 | the verdict is 1 or -1; on a horizontal edge through the point it is 1 exactly when the point lies on the edge; an edge not spanning the point's height gives 1 |
| Geometry.PointInPoly | MiniGL/GUtility.cs:20-35 | an empty polygon throws an index error; otherwise the point is inside exactly when the ray crosses an even number of edges (the product of the verdicts is positive) |
| Geometry.IntersectionLineLine | MiniGL/GUtility.cs:63-70 | the result lies on the first line |
| Geometry.IntersectionLineLineMeets | MiniGL/GUtility.cs:63-70 | when the lines are not parallel, the result lies on the second line as well |
| Geometry.Along3 | MiniGL/GUtility.cs:90 | the coordinate-wise point is from + dir · t |
| Geometry.IntersectionPlaneLine | MiniGL/GUtility.cs:82-91 | the result lies on the line through `from` and `to` |
| Geometry.IntersectionPlaneLineOnPlane | MiniGL/GUtility.cs:82-91 | when the system is regular, the result is origin + a·(p − origin) + b·(q − origin) for some a, b: it lies on the plane through the three points |
| Geometry.IntersectionInAxisPlane | MiniGL/GUtility.cs:82-91 | when the three points share a coordinate, the result has that coordinate too |
| Lines.StartTracks | MiniGL/Rasterizer.cs:197-207 | the walk's start state (the first end point, err = dx + dy) satisfies the walk invariant |
| Lines.StepTracks | MiniGL/Rasterizer.cs:209-225 | an iteration that does not exit keeps the walk invariant: the longer axis advances by one, the shorter by at most one, staying within half a pixel of the exact line, and x (y) moves exactly when e2 > dy (e2 < dx) |
| Lines.EndExact | MiniGL/Rasterizer.cs:212-213 | the exit test holds exactly after max(dx, \|dy\|) iterations |
| Lines.WalkEnd | MiniGL/Rasterizer.cs:209-225 | the `do`-loop walk reaches the second end point after exactly max(dx, \|dy\|) iterations and not before, so it terminates |
| Lines.PixelsFrom | MiniGL/Rasterizer.cs:209-225 | from a tracked walker, the remaining pixels number the remaining steps plus one, begin at the walker and end at the second end point |
| Lines.LinePixelsProperties | MiniGL/Rasterizer.cs:195-226 | `rasterLine` emits max(dx, \|dy\|) + 1 pixels from the first end point to the second, consecutive pixels 8-adjacent and moving toward the end, all distinct and inside the end-point box |
| Lines.MarksFrom | MiniGL/Rasterizer.cs:329-345 | from a tracked walker, the marks still to come are one per remaining x-step, at x offsets A+1 … dx, inside the end-point box |
| Lines.LineMarksProperties | MiniGL/Rasterizer.cs:316-346 | `indicateScanLine` marks exactly dx cells, the i-th in the column i+1 steps from the start: never the start cell, one per column, none on a vertical edge, all inside the end-point box |
| Lines.MarksTaken | MiniGL/Rasterizer.cs:333-344 | an iteration that does not exit takes one step of the walk and extends the marks written so far by the cell entered on an x-step, if any |
| Lines.ScaledIsProduct | MiniGL/Rasterizer.cs:302-308 | adding an increment d once per step n times gives n · d |
| Lines.DepthStep | MiniGL/Rasterizer.cs:379-393 | the depth at the next pixel is the depth at the current pixel plus dzx on an x-step and plus dzy on a y-step |
| Lines.DepthMove | MiniGL/Rasterizer.cs:298-309 | moving one unit further along x (y) adds dzx (dzy) to the depth |
| Screens.StampByCell | MiniGL/Rasterizer.cs:407-411 | after a run of indexer writes whose value depends only on the cell, a written cell holds that value, whichever write came last, and every other cell keeps its value |
| Screens.Screen.constructor | MiniGL/Rasterizer.cs:413-421 | a width × height screen whose every cell holds the default item |
| Screens.Screen.WithBackground | MiniGL/Rasterizer.cs:422-426 | a width × height screen whose every cell holds the background |
| Screens.Screen.Create | MiniGL/Rasterizer.cs:413-421 | an overflow error exactly when the width is negative, or the height is negative with a column to allocate; otherwise a fresh screen of that size whose every cell holds the item |
| Screens.Screen.CreateWithBackground | MiniGL/Rasterizer.cs:422-426 | the same error cases; otherwise a fresh screen whose every cell holds the background |
| Screens.Screen.Get | MiniGL/Rasterizer.cs:407-409 | the indexer returns the cell's item inside the screen and throws an index error outside it |
| Screens.Screen.Set | MiniGL/Rasterizer.cs:410 | writes exactly the one cell, or throws an index error outside the screen and changes nothing |
| Screens.Screen.Clear | MiniGL/Rasterizer.cs:428-435 | every cell of the width × height screen holds the background |
| Screens.InsertionKeepsFront | MiniGL/Rasterizer.cs:496-505 | an insertion never lowers a cell's depth, leaves it at or in front of the offered depth, and changes the item only together with storing the offered depth |
| Screens.ZBuffer.constructor | MiniGL/Rasterizer.cs:456-466 | every item is the default and every depth is -infinity |
| Screens.ZBuffer.WithBackground | MiniGL/Rasterizer.cs:467-477 | every item is the background and every depth is -infinity |
| Screens.ZBuffer.Create | MiniGL/Rasterizer.cs:456-466 | the same error cases, raised by the base constructor; otherwise every cell holds (-infinity, the item) |
| Screens.ZBuffer.CreateWithBackground | MiniGL/Rasterizer.cs:467-477 | the same error cases; otherwise every cell holds (-infinity, background) |
| Screens.ZBuffer.Get | MiniGL/Rasterizer.cs:446-449 | the getter is the screen's: the item inside the buffer, an index error outside it |
| Screens.ZBuffer.Insert | MiniGL/Rasterizer.cs:496-505 | answers true exactly when the stored depth is strictly below z, and then stores (z, item); no other cell changes; throws outside the buffer |
| Screens.FirstWriteKept | MiniGL/Rasterizer.cs:444-453 | writes through the `ZBuffer` indexer keep the first writer of a cleared cell, at depth 0, and change nothing on a cell at depth 0 or above |
| Screens.ZBuffer.Set | MiniGL/Rasterizer.cs:450-453 | the setter inserts at depth 0 and drops the answer |
| Screens.ZBuffer.Clear | MiniGL/Rasterizer.cs:479-482 | every cell holds (-infinity, background) |
| Screens.ZBuffer.ClearTo | MiniGL/Rasterizer.cs:483-494 | every cell holds (z, background) |
| Screens.FillNegInf | MiniGL/Rasterizer.cs:459-465 | every depth of the array is -infinity |
| Fills.EvenOdd | MiniGL/Rasterizer.cs:79-103 | the column scan is inside after row t exactly when an odd number of marks lie in rows 0..t and another mark lies below, so the spans between a mark and the next are filled and an unpaired last mark opens nothing |
| Fills.ColumnCellsSound | MiniGL/Rasterizer.cs:80-107 | the list variant emits, for a column, only unmarked rows the even-odd rule puts inside, each once and in increasing row order |
| Fills.ColumnCellsComplete | MiniGL/Rasterizer.cs:80-107 | every unmarked row the even-odd rule puts inside is emitted |
| Fills.ScanCellsSound | MiniGL/Rasterizer.cs:70-108 | `rasterPoly` into a list emits only unmarked cells of the bounding box that lie between a mark and the next one below it |
| Fills.EmptyRestored | MiniGL/Rasterizer.cs:85-88 | when every mark of the edges lies in the box, the scan resets them all, so the indicator map is all `EMPTY` again |
| Fills.MarksOfOnePaintNothing | MiniGL/Rasterizer.cs:160-193 | when every write into an all-`EMPTY` map has the value 1.0, no cell is painted and the list variant emits nothing |
| Fills.NextMark | MiniGL/Rasterizer.cs:173-181 | the look-ahead finds the nearest marked row at or after u, with only unmarked rows before it, or reports that there is none |
| Fills.ZStepKeeps | MiniGL/Rasterizer.cs:163-190 | one row of the ZBuffer variant keeps its `inside` flag equal to the even-odd rule and, while inside, keeps the running depth on course to reach the next mark's value |
| Fills.ZScanInside | MiniGL/Rasterizer.cs:160-192 | the ZBuffer variant is inside exactly on the rows the even-odd rule puts inside, and its running depth reaches the closing mark's value on the row just above that mark |
| Fills.ZScanFresh | MiniGL/Rasterizer.cs:157-162 | the `z` and `sz` carried over from the previous column do not change which rows are painted or the depths painted |
| Scans.PaintDepthReaches | MiniGL/Rasterizer.cs:171-188 | a painted depth leads linearly, one `sz` per row, to the value of the closing mark |
| Scans.ZScanPaints | MiniGL/Rasterizer.cs:160-190 | whatever state the previous column left, after row t the scan is inside exactly by the even-odd rule and its depth is the painted depth |
| Scans.NextMarkIs | MiniGL/Rasterizer.cs:173-181 | the first marked row strictly below t is the one the look-ahead finds |
| Scans.NextMarkIn | MiniGL/Rasterizer.cs:93-100 | the look-ahead returns the first marked row of the column below j down to the bottom, or none when all are unmarked; it throws only when it reads outside the map |
| Scans.ReadMark | MiniGL/Rasterizer.cs:85-102 | reading a mark resets exactly that cell to `EMPTY` and sets `inside` to the even-odd value for that row |
| Scans.ScanColumnList | MiniGL/Rasterizer.cs:80-107 | one column of the list variant appends exactly that column's `ColumnCells` and leaves the column cleared, or throws when the column leaves the map |
| Scans.LookAhead | MiniGL/Rasterizer.cs:93-100 | the look-ahead, run on the partly scanned map, finds a mark exactly when the unscanned column has one below j, and the same one |
| Scans.ScanColumnScreen | MiniGL/Rasterizer.cs:119-146 | one column of the screen variant paints the item into exactly the rows the even-odd rule puts inside and clears the column's marks |
| Scans.ReadMarkDepth | MiniGL/Rasterizer.cs:165-184 | reading a mark in the z-buffer variant resets that cell and updates `inside`, `z` and `sz` as one step of `ZStep` |
| Scans.ScanRowDepth | MiniGL/Rasterizer.cs:163-190 | one row of the z-buffer variant performs one `ZStep` and inserts the item at the running depth exactly when inside |
| Scans.ScanColumnDepth | MiniGL/Rasterizer.cs:160-192 | one column of the z-buffer variant inserts the item at the painted depth into exactly the rows the even-odd rule puts inside, and clears the column's marks |
| Scans.ColumnUntouched | MiniGL/Rasterizer.cs:80-84 | a column the scan has not reached still holds the edges' marks |
| Scans.ColumnCleared | MiniGL/Rasterizer.cs:80-107 | scanning one more column clears one more column of the box |
| Scans.ClearedBox | MiniGL/Rasterizer.cs:80-107 | a fully scanned map is the original map with the box cleared |
| Scans.ScanBoxColumnList | MiniGL/Rasterizer.cs:80-107 | one column of the pass over the box extends the output by that column's cells |
| Scans.ScanColumnsList | MiniGL/Rasterizer.cs:80-107 | the pass over all columns appends `ScanCells` of the map and clears the box, or throws exactly when the box does not fit the map |
| Scans.ScanBoxList | MiniGL/Rasterizer.cs:79-107 | the list variant appends `ScanCells` of the map as it was and leaves the map with the box cleared |
| Scans.ScanBoxScreen | MiniGL/Rasterizer.cs:118-146 | the screen variant paints exactly the `Painted` cells and clears the box; it succeeds when the box fits both the map and the screen |
| Scans.ScanBoxDepth | MiniGL/Rasterizer.cs:157-192 | the z-buffer variant inserts the item into exactly the `Painted` cells at the interpolated depth and clears the box; it succeeds when the box fits both the map and the buffer |
| Rasterizers.Advance | MiniGL/Rasterizer.cs:214-224 | the loop body's `e2` tests and updates take exactly one step of the line walk |
| Rasterizers.AdvanceDepth | MiniGL/Rasterizer.cs:297-309 | the depth loop's body takes one step of the walk and keeps z equal to the depth interpolated at the new pixel |
| Rasterizers.PaintLine | MiniGL/Rasterizer.cs:241-257 | paints the segment's pixels in order; the first pixel outside the screen throws, and exactly the pixels before it stay painted |
| Rasterizers.InsertLine | MiniGL/Rasterizer.cs:292-310 | inserts the segment's pixels in order, each at its interpolated depth; the first pixel outside the buffer throws, and exactly the pixels before it were inserted |
| Rasterizers.MarkEdge | MiniGL/Rasterizer.cs:329-345 | writes 0 into the edge's marks in order; the first mark outside the map throws, and exactly the marks before it are written |
| Rasterizers.MarkStep | MiniGL/Rasterizer.cs:333-344 | one iteration takes one step of the walk and writes 0 into the cell entered by an x-step; it throws exactly when that cell is outside the map |
| Rasterizers.MarkEdgeDepth | MiniGL/Rasterizer.cs:374-394 | writes into each of the edge's marks the depth interpolated at that cell; the first mark outside the map throws |
| Rasterizers.MarkStepDepth | MiniGL/Rasterizer.cs:379-393 | one iteration of the depth marking walk: one step, z kept equal to the interpolated depth, and that depth written on an x-step |
| Rasterizers.PolyBoxProper | MiniGL/Rasterizer.cs:150-151 | the scan box of a polygon is never empty |
| Rasterizers.EdgeInBox | MiniGL/Rasterizer.cs:111-116 | every mark of an edge lies in the polygon's scan box |
| Rasterizers.EdgeInBoxDepth | MiniGL/Rasterizer.cs:150-155 | every mark of a 3D edge lies in the scan box of the polygon's x and y |
| Rasterizers.PolyMarksInBox | MiniGL/Rasterizer.cs:72-77 | every mark the edge pass writes lies in the polygon's scan box |
| Rasterizers.PolyMarksDepthInBox | MiniGL/Rasterizer.cs:150-155 | every mark the 3D edge pass writes lies in the scan box |
| Rasterizers.PolyScanRestores | MiniGL/Rasterizer.cs:70-108 | an indicator map without marks has none again after a polygon is filled |
| Rasterizers.PolyScanDepthRestores | MiniGL/Rasterizer.cs:148-193 | the same for the z-buffer variant |
| Rasterizers.LevelEdge | MiniGL/Rasterizer.cs:347-398 | an edge between two vertices at the same depth marks every cell with that depth |
| Rasterizers.PolygonAtOnePaintsNothing | MiniGL/Rasterizer.cs:148-193 | a polygon whose vertices all lie at depth 1 paints no cell of the z-buffer |
| Rasterizers.EdgeStamped | MiniGL/Rasterizer.cs:316-346 | a map that differs from the old one exactly on the edge's marks, where it holds 0, is the old map with the edge's writes applied |
| Rasterizers.EdgeStampedDepth | MiniGL/Rasterizer.cs:347-395 | the same for a 3D edge, whose marks hold the interpolated depths |
| Rasterizers.PolyFits | MiniGL/Rasterizer.cs:72-77 | the marks of a polygon all fit the map when its scan box does |
| Rasterizers.PolyFitsDepth | MiniGL/Rasterizer.cs:150-155 | the same for a 3D polygon |
| Rasterizers.Rasterizer.constructor | MiniGL/Rasterizer.cs:20-34 | stores the size and the offsets, and every cell of the indicator map starts `EMPTY` |
| Rasterizers.Rasterizer.Create | MiniGL/Rasterizer.cs:20-34 | an overflow error exactly when the width is negative, or the height is negative with a column to allocate; otherwise the size and offsets are stored and every indicator cell is `EMPTY` |
| Rasterizers.Rasterizer.IndicateScanLine | MiniGL/Rasterizer.cs:316-346 | writes 0 into the edge's marks in order; the first mark outside the map throws |
| Rasterizers.Rasterizer.IndicateScanLineDepth | MiniGL/Rasterizer.cs:347-395 | an edge without horizontal extent writes nothing; otherwise each mark gets the depth interpolated from the first end point with half the depth change per axis when the edge also has vertical extent |
| Rasterizers.Rasterizer.RasterLine | MiniGL/Rasterizer.cs:195-226 | appends the segment's pixels, from the first end point to the second, to the list |
| Rasterizers.Rasterizer.RasterLineScreen | MiniGL/Rasterizer.cs:227-258 | paints the segment's pixels in order until one falls outside the screen, which throws |
| Rasterizers.Rasterizer.RasterLineDepth | MiniGL/Rasterizer.cs:259-311 | inserts the segment's pixels at depths interpolated from the first end point's z with the per-axis increments divided by the number of moving axes |
| Rasterizers.Rasterizer.IndicateEdge | MiniGL/Rasterizer.cs:114-116 | marking edge k succeeds exactly when its marks fit the map, and then applies the edge's writes |
| Rasterizers.Rasterizer.IndicateNext | MiniGL/Rasterizer.cs:114-116 | marking edge k after edges 0..k-1 applies its writes after theirs |
| Rasterizers.Rasterizer.IndicatePoly | MiniGL/Rasterizer.cs:114-116 | the edge pass, every vertex to the next and then the last to the first, succeeds exactly when all marks fit the map, and applies all their writes in order |
| Rasterizers.Rasterizer.IndicateEdgeDepth | MiniGL/Rasterizer.cs:153-155 | marking 3D edge k succeeds exactly when its marks fit the map, and then applies its depth writes |
| Rasterizers.Rasterizer.IndicateNextDepth | MiniGL/Rasterizer.cs:153-155 | marking 3D edge k after the earlier edges applies its writes after theirs |
| Rasterizers.Rasterizer.IndicatePolyDepth | MiniGL/Rasterizer.cs:153-155 | the 3D edge pass succeeds exactly when all marks fit the map, and applies all their depth writes in order |
| Rasterizers.Rasterizer.PolyBounds | MiniGL/Rasterizer.cs:72-73 | the scan box is `GetBounds` of the vertices, truncated and shifted by the offsets, and is never empty |
| Rasterizers.Rasterizer.RasterPoly | MiniGL/Rasterizer.cs:70-108 | appends exactly the cells inside by the even-odd rule, succeeds exactly when the box fits the map, and leaves the map with the box cleared, so a map without marks stays without marks |
| Rasterizers.Rasterizer.RasterPolyScreen | MiniGL/Rasterizer.cs:109-147 | paints exactly the `Painted` cells of the marked map, marked cells that open a span included, and restores the indicator map |
| Rasterizers.Rasterizer.RasterPolyDepth | MiniGL/Rasterizer.cs:148-193 | inserts the item into exactly the `Painted` cells at the depth interpolated between the marks, and restores the indicator map |
| Rasterizers.Rasterizer.Rasterize | MiniGL/Rasterizer.cs:42-50 | no vertex adds nothing; one vertex reads a second vertex that is not there and throws; two vertices append the line; more append the polygon fill |
| Rasterizers.Rasterizer.RasterizeNew | MiniGL/Rasterizer.cs:36-41 | the array-returning overload gives the same pixels from an empty list |
| Rasterizers.Rasterizer.RasterizeScreen | MiniGL/Rasterizer.cs:51-59 | one vertex is painted at its truncated, unshifted position; two paint the line; more paint the polygon fill |
| Rasterizers.Rasterizer.RasterizeDepth | MiniGL/Rasterizer.cs:60-68 | one vertex is inserted at its truncated x, y and z, unshifted; two insert the line; more insert the polygon fill |
| ViewTransformers.OrthographicCorners | MiniGL/ViewTransformer.cs:31-44 | the orthographic matrix sends the viewport corner (l, t) at depth -n to (-1, -1, -1) and the corner (r, b) at depth -f to (1, 1, 1) |
| ViewTransformers.PerspectiveEntries | MiniGL/ViewTransformer.cs:45-58 | the perspective matrix's entries satisfy their defining equations, e.g. m[0]·(r - l) = 2n, with the fixed zeros and the -1 in the last row |
| ViewTransformers.PerspectivePlanes | MiniGL/ViewTransformer.cs:45-58 | after the division by w, the perspective matrix sends the near corners (l, t, -n) and (r, b, -n) to (-1, -1, -1) and (1, 1, -1), and every point of the far plane z = -f to depth 1 |
| ViewTransformers.ToWindowCorners | MiniGL/ViewTransformer.cs:247-252 | `toWindow` sends the cube corners (-1, -1, -1) and (1, 1, 1) to the viewport corners at the two ends of the depth range |
| ViewTransformers.MapToWindow | MiniGL/ViewTransformer.cs:173 | every point is mapped to the window, in order |
| ViewTransformers.Emit | MiniGL/ViewTransformer.cs:79-91 | one step of a pass appends at most two points: the crossing, the vertex, or both |
| ViewTransformers.PassPrefixInside | MiniGL/ViewTransformer.cs:79-91 | a pass over vertices all inside its plane emits exactly those vertices |
| ViewTransformers.PassPrefixOutside | MiniGL/ViewTransformer.cs:79-91 | a pass over vertices all outside its plane emits nothing |
| ViewTransformers.PassPrefixBound | MiniGL/ViewTransformer.cs:79-91 | a pass emits at most two points per vertex |
| ViewTransformers.ClipInside | MiniGL/ViewTransformer.cs:70-180 | vertices all inside the cube come out as their window images, in the same order and number |
| ViewTransformers.PassInside | MiniGL/ViewTransformer.cs:79-178 | every pass keeps vertices that are all inside the cube unchanged |
| ViewTransformers.ClipOutsidePlane | MiniGL/ViewTransformer.cs:70-180 | vertices all outside any one of the six planes are clipped away entirely |
| ViewTransformers.ClipInCube | MiniGL/ViewTransformer.cs:70-180 | every vertex `clip` returns is the window image of a point of the cube |
| ViewTransformers.PassKeepsInside | MiniGL/ViewTransformer.cs:78-178 | a pass leaves its output inside its own plane and inside every earlier plane its input was inside |
| ViewTransformers.PassSides | MiniGL/ViewTransformer.cs:78-91 | a pass emits only points inside its plane, and keeps a polygon on whichever side of another plane it was |
| ViewTransformers.CutOnPlane | MiniGL/ViewTransformer.cs:85-89 | for a segment not parallel to a plane, the crossing computed with that plane's three points lies on the plane |
| ViewTransformers.CutBetween | MiniGL/ViewTransformer.cs:82-89 | between ends on opposite sides, the crossing lies on the plane and on the segment |
| ViewTransformers.SegmentSide | MiniGL/ViewTransformer.cs:78-91 | a point of a segment whose ends are on one side of a plane is on that side |
| ViewTransformers.ClipBound | MiniGL/ViewTransformer.cs:70-180 | the six passes emit at most 64 points per input vertex |
| ViewTransformers.Clip2ThroughKeeps | MiniGL/ViewTransformer.cs:182-242 | an end inside every plane is never moved and the segment is never dropped |
| ViewTransformers.Clip2ThroughDrops | MiniGL/ViewTransformer.cs:182-242 | a segment whose ends are both outside any one of the planes is dropped |
| ViewTransformers.Clip2StepMoves | MiniGL/ViewTransformer.cs:184-192 | one step gives up exactly when both ends are outside; an inside end stays, an outside end moves onto the plane, and both new ends are inside it and on the old segment |
| ViewTransformers.Clip2ThroughSegment | MiniGL/ViewTransformer.cs:182-242 | the ends `clip2` keeps lie on the given segment |
| ViewTransformers.Clip2ThroughInside | MiniGL/ViewTransformer.cs:182-242 | the ends `clip2` keeps are inside every plane |
| ViewTransformers.Clip2ThroughFace | MiniGL/ViewTransformer.cs:182-242 | each end `clip2` keeps is the given end or lies on one of the planes |
| ViewTransformers.Clip2Properties | MiniGL/ViewTransformer.cs:182-245 | `clip2` returns no points or two; an end inside the cube comes out as its window image in its place; a segment with both ends outside any one plane is dropped; the two points returned are window images of points of the cube on the segment, each the given end or on a face |
| ViewTransformers.Project | MiniGL/ViewTransformer.cs:64-66 | every vertex is multiplied by the matrix and divided by w, in order |
| ViewTransformers.ClipPass | MiniGL/ViewTransformer.cs:78-91 | the loop of a pass emits exactly `Pass` of its input |
| ViewTransformers.ViewTransformer.constructor | MiniGL/ViewTransformer.cs:18-23 | holds the given matrix itself, the depth range and the viewport; the projection type is orthogonal |
| ViewTransformers.ViewTransformer.Default | MiniGL/ViewTransformer.cs:24-27 | holds a fresh identity matrix, an all-zero viewport and depth range, and the orthogonal type |
| ViewTransformers.ViewTransformer.Calculate | MiniGL/ViewTransformer.cs:29-60 | replaces the matrix with a fresh orthographic or perspective matrix of the viewport and depth range, by the projection type; nothing else changes |
| ViewTransformers.ViewTransformer.TransformToWindow | MiniGL/ViewTransformer.cs:62-68 | projects and divides every vertex, then clips: an empty list throws, two vertices go to `clip2`, any other count to the six passes |
| ViewTransformers.ViewTransformer.Clip | MiniGL/ViewTransformer.cs:70-180 | two points go to `clip2`; an empty list throws where the first pass reads the last vertex; otherwise the six passes with their early exits on an empty list |
| ViewTransformers.ViewTransformer.BackPass | MiniGL/ViewTransformer.cs:164-179 | the last pass maps every point it emits to the window |
| ViewTransformers.ViewTransformer.Clip2 | MiniGL/ViewTransformer.cs:182-245 | the segment against the six planes in turn, then both ends to the window |
| GObjects.RunMinIsMin | MiniGL/GObject.cs:43-57 | the running minimum of the bounds loop is at most every coordinate and equals one of them; with no points it stays `double.MaxValue` |
| GObjects.RunMaxElseIsMax | MiniGL/GObject.cs:41-59 | because the maximum is only tested in the `else` branch, the running maximum bounds exactly the coordinates that did not lower the minimum, and is one of them or `double.MinValue` |
| GObjects.MaxAfterFirst | MiniGL/GObject.cs:41-59 | when a largest coordinate occurs after the first point, the else-if loop does find the true maximum |
| GObjects.SinglePointMax | MiniGL/GObject.cs:41-59 | for a single point the maximum is never updated and stays `double.MinValue`, so the bounds of one point are not that point |
| GObjects.QuotientOne | MiniGL/GObject.cs:165-166 | when every w is 1, the `X / W > maxX` test of the 3D loop agrees with the plain test |
| GObjects.QuotientAtInfinity | MiniGL/GObject.cs:165-166 | with points at infinity (w = 0) the quotient test can keep a smaller x: for x = 1, 5, 2 the stored maximum is 2 where the plain maximum is 5 |
| GObjects.NormalizeAllIdempotent | MiniGL/GObject.cs:162 | normalising every vertex twice is normalising once, and afterwards every w is 0 or 1 |
| GObjects.FiniteBounds3 | MiniGL/GObject.cs:152-177 | for finite points the right edge of the 3D bounds is the running else-if maximum of the x coordinates |
| GObjects.TriangleBounds | MiniGL/GObject.cs:41-59 | the two triangles that span a rectangle have exactly that rectangle as their bounds |
| GObjects.TwoValueBounds | MiniGL/GObject.cs:41-59 | coordinates taking only two values, the larger one after the first point, give those two values as minimum and maximum |
| GObjects.GObject2D.Triangle | MiniGL/GObject.cs:22-27 | a fresh array holding the three points, the given transformation maker, and bounds computed from the points |
| GObjects.GObject2D.Segment | MiniGL/GObject.cs:28-33 | a fresh array holding the two points, the given transformation maker, and bounds computed from the points |
| GObjects.GObject2D.Get | MiniGL/GObject.cs:19 | the indexer returns the point at an index inside the array and an index-out-of-range error otherwise |
| GObjects.GObject2D.Set | MiniGL/GObject.cs:19 | the indexer replaces exactly the point at a valid index, errs and changes nothing otherwise, and leaves the bounds as they were |
| GObjects.GObject2D.UpdateBoundaries | MiniGL/GObject.cs:41-59 | the stored bounds become the else-if running minimum and maximum of the x and y coordinates, points unchanged |
| GObjects.GObject.Triangle | MiniGL/GObject.cs:135-140 | a fresh array holding the three points normalised, the given transformation maker, and bounds of the normalised points |
| GObjects.GObject.Segment | MiniGL/GObject.cs:141-146 | a fresh array holding the two points normalised, the given transformation maker, and bounds of the normalised points |
| GObjects.GObject.Get | MiniGL/GObject.cs:132 | the indexer returns the vertex at an index inside the array and an index-out-of-range error otherwise |
| GObjects.GObject.Set | MiniGL/GObject.cs:132 | the indexer replaces exactly the vertex at a valid index, errs and changes nothing otherwise, and leaves the bounds as they were |
| GObjects.GObject.UpdateBoundaries | MiniGL/GObject.cs:152-177 | every vertex is normalised in place and the bounds become the running minima and else-if maxima of the normalised coordinates, with the `X / W` test for the right edge |
| TMakers2D.Elementary2 | MiniGL/TMaker2D.cs:56-74 | the translation matrix moves a point with w = 1 by the offsets and the scaling matrix multiplies its coordinates |
| TMakers2D.Emit | MiniGL/TMaker2D.cs:132-144 | one step of a clipping pass appends at most two vertices |
| TMakers2D.PassPrefixInside | MiniGL/TMaker2D.cs:132-144 | a pass over vertices all on the inner side of the edge keeps them all, in order |
| TMakers2D.PassPrefixOutside | MiniGL/TMaker2D.cs:132-144 | a pass over vertices all strictly outside the edge emits nothing |
| TMakers2D.PassPrefixBound | MiniGL/TMaker2D.cs:132-144 | a pass emits at most two vertices per input vertex |
| TMakers2D.ClipInside | MiniGL/TMaker2D.cs:126-198 | a polygon lying inside the viewport comes out of `clip` unchanged and in order |
| TMakers2D.PassInside | MiniGL/TMaker2D.cs:126-198 | each of the four passes keeps a polygon that lies inside the viewport |
| TMakers2D.ClipLeftOfViewport | MiniGL/TMaker2D.cs:145-146 | a polygon entirely left of the viewport is clipped to nothing by the first pass |
| TMakers2D.ClipBound | MiniGL/TMaker2D.cs:126-198 | `clip` returns at most sixteen times as many vertices as it is given |
| TMakers2D.ClipPass | MiniGL/TMaker2D.cs:131-144 | the loop of one pass builds exactly the pass's output list, starting from the last vertex |
| TMakers2D.Project | MiniGL/TMaker2D.cs:116-117 | every point is mapped by the matrix and divided by its homogeneous coordinate, in order |
| TMakers2D.TMaker2D.constructor | MiniGL/TMaker2D.cs:11-14 | the matrix is a fresh identity and the viewport is the default all-zero rectangle |
| TMakers2D.TMaker2D.WithMatrix | MiniGL/TMaker2D.cs:15-18 | the maker holds the given matrix object itself, not a copy |
| TMakers2D.TMaker2D.Clone | MiniGL/TMaker2D.cs:20-24 | the clone holds a fresh copy of the matrix with the same entries and the default all-zero viewport, not a copy of this one's |
| TMakers2D.TMaker2D.LoadIdentity | MiniGL/TMaker2D.cs:25-28 | the matrix becomes a fresh identity and the viewport is kept |
| TMakers2D.TMaker2D.Load | MiniGL/TMaker2D.cs:30-33 | the maker holds the caller's matrix object itself |
| TMakers2D.TMaker2D.GetMatrix | MiniGL/TMaker2D.cs:34-37 | the held matrix object is returned, not a copy |
| TMakers2D.TMaker2D.GetInverse | MiniGL/TMaker2D.cs:38-43 | a new maker with the default all-zero viewport over `Inverse3` of a copy of the matrix, this one unchanged (a right inverse by `Inverse3Right`); a singular matrix gives the identity |
| TMakers2D.TMaker2D.Rotate | MiniGL/TMaker2D.cs:45-54 | the matrix becomes the rotation by (cos, sin) times the old matrix |
| TMakers2D.TMaker2D.Translate | MiniGL/TMaker2D.cs:56-62 | the matrix becomes the translation times the old matrix |
| TMakers2D.TMaker2D.ScaleUniform | MiniGL/TMaker2D.cs:64-67 | the matrix becomes the uniform scaling by u times the old matrix |
| TMakers2D.TMaker2D.Scale | MiniGL/TMaker2D.cs:68-74 | the matrix becomes the scaling by x and y times the old matrix |
| TMakers2D.TMaker2D.ApplyCustomTransform | MiniGL/TMaker2D.cs:75-78 | the matrix becomes the given matrix times the old one (premultiplication) |
| TMakers2D.TMaker2D.ApplyCustomTransformOf | MiniGL/TMaker2D.cs:79-82 | the matrix becomes the other maker's matrix times the old one |
| TMakers2D.TMaker2D.SetViewport | MiniGL/TMaker2D.cs:84-91 | the viewport becomes the given rectangle and the matrix is kept |
| TMakers2D.TMaker2D.Transform | MiniGL/TMaker2D.cs:93-96 | the point is multiplied by the current matrix |
| TMakers2D.TMaker2D.TransformToWin | MiniGL/TMaker2D.cs:108-124 | the projected points in order, or, when clipping, `clip` of them, which fails on an object with no points |
| TMakers2D.TMaker2D.TransformToWinIn | MiniGL/TMaker2D.cs:98-102 | the viewport is stored first and the projected points are then clipped against it |
| TMakers2D.TMaker2D.Clip | MiniGL/TMaker2D.cs:126-198 | an out-of-range error on an empty list; otherwise the left, top, right and bottom passes, stopping with no vertices as soon as one pass returns none |
| QuadTrees.Leaf | MiniGL/QuadTree.cs:25-33 | a new node is a valid empty leaf with the given bounds and threshold, holding nothing and counting nothing |
| QuadTrees.Create | MiniGL/QuadTree.cs:25-33 | an overflow error exactly when the threshold is negative; otherwise a valid empty leaf with the given bounds and threshold |
| QuadTrees.Add | MiniGL/QuadTree.cs:146-157 | `add` appends the item to the live entries, never shrinks the array, keeps the node valid, and fails only when the doubled length overflows or is 0 |
| QuadTrees.AddDoubles | MiniGL/QuadTree.cs:149-154 | a full array of positive length is doubled; a full array of length 0 stays too short and the store throws |
| QuadTrees.AddAll | MiniGL/QuadTree.cs:191-192 | adding a list appends it in order and keeps the node valid |
| QuadTrees.With | MiniGL/QuadTree.cs:15 | replacing one child leaves the other three, swaps that child's items in the quad's items, and keeps the quad valid and placed |
| QuadTrees.InsertOrderSkipsTr | MiniGL/QuadTree.cs:52 | `Insert` offers an item to tl (twice), br and bl: some child takes it exactly when tl, br or bl contains it, never tr |
| QuadTrees.SplitOrderTriesAll | MiniGL/QuadTree.cs:172 | `split` offers each item to tl, tr, bl and br: a child takes it exactly when one of the four contains it |
| QuadTrees.Kept | MiniGL/QuadTree.cs:169-175 | the items `split` keeps at the node are items of the old array that no quadrant contains |
| QuadTrees.Insert | MiniGL/QuadTree.cs:46-71 | an item outside the bounds is refused and nothing changes; otherwise it is accepted and stored exactly once in the subtree, the node stays valid with the same bounds and threshold, and items stay within their nodes' bounds |
| QuadTrees.Settle | MiniGL/QuadTree.cs:52-60 | with children, a child that took the item raises the counter by one; otherwise the item is appended at the node and the counter is kept |
| QuadTrees.Offer | MiniGL/QuadTree.cs:52 | the `||` chain stops at the first child that accepts: the item is taken exactly when one of the offered children contains it, stored once there, and otherwise nothing changes |
| QuadTrees.Distribute | MiniGL/QuadTree.cs:169-175 | the loop of `split` moves each item into the first quadrant that takes it and keeps the rest, in order; moved and kept items together are the old items |
| QuadTrees.Quadrants | MiniGL/QuadTree.cs:161-167 | the four new quadrants are valid empty leaves |
| QuadTrees.QuadrantsPlaced | MiniGL/QuadTree.cs:164-167 | empty quadrants hold no item outside their bounds |
| QuadTrees.Split | MiniGL/QuadTree.cs:159-176 | `split` builds the midpoint quadrants, keeps exactly the items none of them takes, loses no item, and leaves the counter unchanged |
| QuadTrees.QuadrantsInside | MiniGL/QuadTree.cs:162-167 | the quadrants lie inside the node's bounds and meet at the midpoints |
| QuadTrees.LeafInsert | MiniGL/QuadTree.cs:62-66 | a leaf below its threshold appends the item to its own entries |
| QuadTrees.InsertSkipsTr | MiniGL/QuadTree.cs:52-60 | an item that only the tr quadrant contains stays at the node, appended to its own items, with the counter unchanged |
| QuadTrees.InsertAll | MiniGL/QuadTree.cs:37-38 | inserting each item in order stores exactly the items the bounds contain |
| QuadTrees.Inside | MiniGL/QuadTree.cs:48 | the items whose bounds the node's bounds contain, in order |
| QuadTrees.FromItems | MiniGL/QuadTree.cs:34-39 | a negative threshold gives an overflow error; otherwise the constructor with an item array gives a valid tree over the given bounds holding exactly the items inside those bounds |
| QuadTrees.FromItem | MiniGL/QuadTree.cs:40-44 | a negative threshold gives an overflow error; otherwise the constructor with one item gives a valid tree holding that item when the bounds contain it, and nothing otherwise |
| QuadTrees.GetItems | MiniGL/QuadTree.cs:101-118 | `GetItems` lists only stored items, reads the children only while the counter is positive, and of a node with counter 0 lists exactly its own entries |
| QuadTrees.QuadGetItems | MiniGL/QuadTree.cs:111-114 | the children's lists, tl, tr, bl, br, hold only items of the children |
| QuadTrees.Intersecting | MiniGL/QuadTree.cs:139-143 | the filter keeps exactly the items whose bounds meet the query rectangle |
| QuadTrees.GetIntersecting | MiniGL/QuadTree.cs:120-144 | `GetIntersecting` lists only items that `GetItems` lists and whose bounds meet the query |
| QuadTrees.QuadGetIntersecting | MiniGL/QuadTree.cs:131-137 | the children's answers hold only intersecting items the children list |
| QuadTrees.GetIntersectingIsFilter | MiniGL/QuadTree.cs:126-144 | when every item lies within its node's bounds, skipping nodes that miss the query loses nothing: the result is `GetItems` filtered by intersection, in the same order |
| QuadTrees.NothingIntersects | MiniGL/QuadTree.cs:128-129 | items inside a rectangle that misses the query all miss it |
| QuadTrees.IndexOf | MiniGL/QuadTree.cs:85-90 | the search loop stops at the first equal item, or at the end when there is none |
| QuadTrees.RemoveOwn | MiniGL/QuadTree.cs:85-98 | the item is found exactly when the node holds it; the entries after it shift down one place, while `numItems` is not decreased and the entry count stays the same |
| QuadTrees.RemoveLastOwnItem | MiniGL/QuadTree.cs:91-95 | removing the last live entry reports success but changes nothing, so the item is still there |
| QuadTrees.Collected | MiniGL/QuadTree.cs:183-190 | the items `removeChildren` gathers come from the children |
| QuadTrees.RemoveChildren | MiniGL/QuadTree.cs:178-198 | `removeChildren` drops the children, sets the counter to 0 and appends the gathered items, in order, to the node's own |
| QuadTrees.Remove | MiniGL/QuadTree.cs:73-99 | an item outside the bounds is refused; a failed removal changes nothing; the tree stays valid and holds no new item |
| QuadTrees.RemoveBelow | MiniGL/QuadTree.cs:78-98 | with a positive counter the children are tried first and then the node's own items; the tree stays valid and holds no new item |
| QuadTrees.Shrink | MiniGL/QuadTree.cs:80-82 | after a child removed the item, the counter drops by one, and the children are merged up only when the count falls below the threshold |
| QuadTrees.ShrinkPlaced | MiniGL/QuadTree.cs:80-81 | merging the children up keeps every item within its node's bounds |
| QuadTrees.Withdraw | MiniGL/QuadTree.cs:78 | the `||` chain stops at the first child that removes the item; a failed chain changes nothing |
| QuadTrees.RemoveFinds | MiniGL/QuadTree.cs:73-99 | for a tree whose items lie within their nodes' bounds, `Remove` succeeds exactly for the items `GetItems` lists, and keeps items within bounds |
| QuadTrees.RemoveBelowFinds | MiniGL/QuadTree.cs:78-98 | the same for a node with a positive counter: success exactly for the items its children or own entries list |
| QuadTrees.WithdrawFinds | MiniGL/QuadTree.cs:78 | the chain over the children succeeds exactly when one of the children asked lists the item |
| QuadTrees.ListedInFour | MiniGL/QuadTree.cs:111-114 | asking the four children in order finds exactly the items the children list |
| QuadTrees.SplitHidesMovedItems | MiniGL/QuadTree.cs:169-175 | with threshold 1, inserting a second item that fits no quadrant splits the node and moves the first item down without counting it: `GetItems` and `ItemCount` then see only the second item, though both are stored |
| QuadTrees.SplitMovesFirst | MiniGL/QuadTree.cs:159-176 | the split in that scenario moves the first item into tl and keeps nothing at the node |
| QuadTrees.KeepsSecond | MiniGL/QuadTree.cs:52-60 | the insertion after that split keeps the second item at the node, with the counter still 0 |
| OctTrees.Leaf | MiniGL/OctTree.cs:27-33 | a new node is a valid empty leaf: no children, count 0, and `Collect` lists nothing |
| OctTrees.CollectIsBag | MiniGL/OctTree.cs:113-125 | `Collect` lists every item stored in the subtree, with multiplicity: the node's own items, then each child's |
| OctTrees.CollectFromIsBag | MiniGL/OctTree.cs:135-139 | `collectFromChildren` lists exactly the items stored in the children |
| OctTrees.CountedCount | MiniGL/OctTree.cs:24 | on a tree whose counters match its children, `Count` is the number of items `Collect` lists |
| OctTrees.OctantBounds | MiniGL/OctTree.cs:141-155 | `split` passes the half sizes where the far corner is expected, so every child's far corner is (w/2, h/2, d/2) |
| OctTrees.Octants | MiniGL/OctTree.cs:147-155 | the eight new children are valid empty leaves with those bounds and the parent's threshold |
| OctTrees.OctantsMissOffOrigin | MiniGL/OctTree.cs:143-155 | for a node whose left side lies beyond half its width, no child contains any item, so nothing can move down |
| OctTrees.FirstFit | MiniGL/OctTree.cs:47-54 | the loop over the children stops at the first child whose bounds contain the item |
| OctTrees.Insert | MiniGL/OctTree.cs:40-64 | an item outside the bounds is refused and nothing changes; otherwise it is accepted and stored exactly once in the subtree, the node stays valid, items stay within their nodes' bounds and right counters stay right |
| OctTrees.Keep | MiniGL/OctTree.cs:49-63 | a child that took the item raises the counter by one; otherwise the item is appended to the node's own list |
| OctTrees.InsertFrom | MiniGL/OctTree.cs:47-54 | the item goes into exactly the first child that contains it, the others unchanged, and nothing changes when no child does |
| OctTrees.Put | MiniGL/OctTree.cs:49-52 | replacing the child that took the item adds exactly that item to the children's items |
| OctTrees.Unfit | MiniGL/OctTree.cs:175-176 | the items `dump` keeps are items of the old list that no child contains |
| OctTrees.Dump | MiniGL/OctTree.cs:160-179 | `dump` moves each item into the first child that takes it and keeps the rest, in order; the number moved is the length lost, and moved and kept items together are the old items |
| OctTrees.DumpFirst | MiniGL/OctTree.cs:163-177 | one item of `dump` is kept exactly when no child takes it |
| OctTrees.Split | MiniGL/OctTree.cs:141-158 | `split` gives eight children with the bounds above, keeps exactly the items no child takes, adds the number moved to the counter, and loses no item |
| OctTrees.Adopt | MiniGL/OctTree.cs:157 | the node takes the filled children, keeps the unplaced items, and counts the moved ones |
| OctTrees.LeafInsert | MiniGL/OctTree.cs:56-63 | a leaf whose item count differs from the threshold appends the item |
| OctTrees.OverfullLeafAppends | MiniGL/OctTree.cs:56 | the split test is `==`, so a leaf already holding more than the threshold (as a merge can leave it) never splits again and just appends |
| OctTrees.Half | MiniGL/OctTree.cs:77 | C#'s integer `/ 2` truncates toward zero |
| OctTrees.IndexOf | MiniGL/OctTree.cs:86 | the position of the first equal item, or the end when there is none |
| OctTrees.RemoveOwn | MiniGL/OctTree.cs:86 | `items.Remove` drops exactly the first equal item and reports whether there was one |
| OctTrees.Remove | MiniGL/OctTree.cs:66-87 | an item outside the bounds is refused; a failed removal changes nothing; a successful one removes exactly one copy of the item and keeps the node valid |
| OctTrees.RemoveBelow | MiniGL/OctTree.cs:71-86 | with children, they are tried in index order before the node's own list, with the same guarantees |
| OctTrees.Merge | MiniGL/OctTree.cs:77-82 | after a child removed the item, the counter drops by one, and when half the remaining count is at most the threshold the children's items move up and the children are dropped |
| OctTrees.RemoveFrom | MiniGL/OctTree.cs:73-84 | the loop over the children stops at the first one that removes the item; otherwise nothing changes |
| OctTrees.Intersecting | MiniGL/OctTree.cs:106-110 | the filter keeps exactly the items whose bounds meet the volume |
| OctTrees.CollectIntersection | MiniGL/OctTree.cs:89-111 | `CollectIntersection` lists only stored items whose bounds meet the volume |
| OctTrees.CollectIntersectionFrom | MiniGL/OctTree.cs:102-103 | the children's answers hold only intersecting items stored in the children |
| OctTrees.InsertCollected | MiniGL/OctTree.cs:40-64 | after a successful insertion, `Collect` lists the items it listed before plus the new one |
| OctTrees.RemoveFinds | MiniGL/OctTree.cs:66-87 | `Remove` keeps items within their nodes' bounds and, on such a tree, succeeds exactly when the item is stored in it |
| OctTrees.RemoveFromFinds | MiniGL/OctTree.cs:73-84 | the loop over the children succeeds exactly when a child from the current one on stores the item |
| OctTrees.MergeMiscounts | MiniGL/OctTree.cs:77-81 | a merge keeps the decremented counter though no children are left, so `Count` then exceeds what `Collect` lists by the old counter less one |
| OctTrees.PruneMissesIntersecting | MiniGL/OctTree.cs:95-98 | because of the reversed depth test, a flat item stored at the root intersects itself, yet `CollectIntersection` with it as the volume finds nothing |
| GManagers.VInfo.Split | MiniGL/GManager.cs:34-57 | a line splits into two pieces and a triangle into four, each tagged with the same object id and with as many vertices as the original; a blank slot has no vertex array and throws |
| GManagers.HomogeneousMidpoint | MiniGL/GManager.cs:40 | the homogeneous sum of two finite points is, once divided by w, their midpoint |
| GManagers.SplitPieces | MiniGL/GManager.cs:34-57 | for finite corners, every vertex of every piece is a corner of the original or the midpoint of two of its corners |
| GManagers.GObject.constructor | MiniGL/GManager.cs:162-165 | the object holds the given transformation maker |
| GManagers.Wrap32 | MiniGL/GManager.cs:86 | C#'s unchecked 32-bit increment stays in `int` range and is the plain sum when that is in range |
| GManagers.GrownSize | MiniGL/GManager.cs:150 | the resize length is twice the old length while that fits, and negative once the doubling overflows |
| GManagers.Resized | MiniGL/GManager.cs:151 | `Array.Resize` keeps the first entries and leaves new slots blank |
| GManagers.AddTo | MiniGL/GManager.cs:146-154 | `add` either fails on a negative size and changes nothing, or raises the fill level by one; its only errors are the negative size and the store past the end |
| GManagers.AddAppends | MiniGL/GManager.cs:146-154 | while the length is within half of `int`'s range, `add` keeps the live entries, stores the new one after them, and doubles a full array |
| GManagers.AddToEmptyFails | MiniGL/GManager.cs:148-153 | with storage of length 0 the doubled length is 0 again and the store throws, after the fill level was already raised |
| GManagers.RemoveFrom | MiniGL/GManager.cs:109-113 | the removal loop keeps the storage length and never raises the fill level |
| GManagers.RemoveClears | MiniGL/GManager.cs:106-114 | when the removal completes, no live entry carries the removed id |
| GManagers.RemoveDropsLastEntry | MiniGL/GManager.cs:112 | the matching entry is overwritten with the slot one past the last live entry, so the last live entry is lost and a blank slot becomes live |
| GManagers.DrawFrom | MiniGL/GManager.cs:122-133 | the loop makes one call per live entry from the current index on |
| GManagers.DrawCached | MiniGL/GManager.cs:122-133 | once the cached object agrees with the dictionary, the loop succeeds exactly when every remaining entry is drawable (written, its id present, its object non-null and holding a transformation maker), and each call uses the object its entry's id names |
| GManagers.DrawStorageCalls | MiniGL/GManager.cs:118-134 | `DrawStorage` succeeds exactly when every live entry is written and names a present, non-null object that holds a transformation maker, and the first is not tagged -1; it then draws every live entry in order; a first entry tagged -1 meets the null initial cache and throws |
| GManagers.DrawBeforeAddGObject | MiniGL/GManager.cs:120-131 | vertices added before any object carry id -1, which matches the initial cache, so drawing them throws a null reference |
| GManagers.DrawWithoutMaker | MiniGL/GManager.cs:131 | an object without a transformation maker throws a null reference when its transform is applied |
| GManagers.DrawAfterClear | MiniGL/GManager.cs:138-144 | after `Clear`, vertices added before the next object carry id 0, which the dictionary lacks, so drawing them throws |
| GManagers.GManager.constructor | MiniGL/GManager.cs:66-73 | blank storage of the given size, fill level 0, active id -1, and a dictionary holding only a fresh placeholder object under -1 |
| GManagers.GManager.Create | MiniGL/GManager.cs:66-73 | an overflow error exactly when the initial size is negative; otherwise blank storage of that size, fill level 0, active id -1 and a dictionary holding only -1 |
| GManagers.GManager.GetObjectByHash | MiniGL/GManager.cs:77-80 | the object stored under the id, or a key-not-found error exactly when the id is absent |
| GManagers.GManager.AddGObject | MiniGL/GManager.cs:84-88 | the active id is incremented with 32-bit wrap-around; the object is bound to it exactly when it was free, otherwise a duplicate-key error leaves the dictionary unchanged; the vertex storage is untouched |
| GManagers.GManager.Add | MiniGL/GManager.cs:146-154 | the storage, fill level and outcome are those of `AddTo`; the ids and objects are untouched |
| GManagers.GManager.AddVertices | MiniGL/GManager.cs:92-95 | a triangle tagged with the active id is added as by `add` |
| GManagers.GManager.AddVerticesLine | MiniGL/GManager.cs:99-102 | a line tagged with the active id is added as by `add` |
| GManagers.GManager.RemoveObjectByHash | MiniGL/GManager.cs:106-114 | the id is unbound, and the storage and fill level become those of the removal loop, which may throw reading past the end |
| GManagers.GManager.DrawStorage | MiniGL/GManager.cs:118-134 | the calls made are exactly those of the drawing loop over the live entries |
| GManagers.GManager.Clear | MiniGL/GManager.cs:138-144 | active id 0, fill level 0, and a dictionary holding only a fresh placeholder under -1; the storage array is kept |

## Left out

- File and XML input/output are not part of this model. This covers `ImportExport.cs`, `ReadXml`/`WriteXml`, and the parameterless constructors kept for serialization.
- `Painter.cs` is not part of this model: it only builds a buffer and a rasterizer and delegates to them.
- `MarkContour` and `MarkCluster` are left out. Their wall-following loop stops only when it returns to its start, and it has no decreasing measure.
- `Polygon2Triangles`, `PointInTri` and `TMaker2D.pointInTriangle` are left out: they are division-based floating-point tests that nothing in the core calls.
- All `ToString` methods are left out, and so is `Vec4.GetHashCode`, which reinterprets the bits of a double.
- `Length` needs a square root, so it is left out. So are `Normalize` on `Vec2`/`Vec3` and `Vec4.MakeUnit`. `Length2` and `Vec3.WeightThis` are unused by the core and also left out.
- These matrix members are left out: `Trace`, the three `Apply(Func)` overloads, `Matrix4(double[][])`, `SetRow` and `SetCollumn`. They take delegates or jagged arrays and nothing in the core uses them.
- `Det()` of each matrix class is the specification function `Det2`/`Det3`/`Det4`. Matrix times vector is `Apply2`/`Apply3`/`Apply4`.
- `RectI.Continues` and the `Vec3(Vec2, z)` / `Vec4(Vec3, w)` constructors are left out, because the core does not use them.
- `GObject2D.TransformToWindow` is a one-line delegation to `TMaker2D.TransformToWin(obj, true)`, which is modelled. It has no member of its own. `GObject.TransformToWindow` calls a `TMaker.TransformToWin` that `TMaker.cs` does not define, so it is not part of this model.
- Floating-point rounding, infinities and NaN are not modelled: `double` and `float` are `real`. Division by zero, which gives an infinity or NaN in C#, is 0 in the model (`Div`). The only infinite value kept is the `-inf` depth, which is an explicit bottom value.
- The `Rasterizer` polygon paths require every coordinate to lie within `double`'s range. Beyond that range `GetBounds`' initial `double.MaxValue`/`double.MinValue` would not bound the polygon, and only infinities lie beyond it.
- `Math.Cos` and `Math.Sin` are parameters `c` and `s` of the rotations.
- `Matrices.Matrix4.Inverse`: does not promise `M * M^-1 = I`, because the source's cofactors are wrong (see Findings). `Inverse4CorrectedRight` proves it for the corrected formulas.
- `Matrices.InverseNonSingular`: states the source's scaled adjugate, not a right inverse, for the same reason.
- `TMakers.TMaker.GetInverse`: promises a right inverse only for single rotations, translations and scalings (`ElementaryInverses`), not for composites (`TurnThenLiftNotInverted`).
- `Vectors.Vec2I` and `Vectors.Vec3I` arithmetic, and the Bresenham differences `dx`, `dy` and `err` of `Rasterizer.cs`, use unbounded ints: the 32-bit wrap-around of sums and products far from zero is not modelled. (The active id of `GManager.AddGObject` does wrap.)
- `Numerics.Abs`: never fails, while C#'s `Math.Abs(int.MinValue)` throws an `OverflowException`; the model does not reach `int.MinValue` because its differences do not wrap.
- `Numerics.Trunc`: the `(int)` cast of a double outside `int` range gives an unspecified value in C#; the model truncates toward zero without a bound.
- Negative sizes are modelled: each constructor that allocates requires sizes the allocation accepts, and a `Create` beside it returns `Err(Overflow)` for the others.
- When a C# method throws halfway, the model's `Err` result does not always carry the partial state the exception leaves behind. `GManager.add` and `RemoveObjectByHash` are the exceptions: there, the raised fill level and the lowered fill level are modelled.
- `QuadTrees.Insert` and `OctTrees.Insert` take a depth bound `fuel`. In the source, insertion recurses through `split` without a bound: equal point items keep splitting the same quadrant, and with a threshold of 0 any item that fits a child keeps splitting (every new child has the same threshold, so it splits before it can hold the item). The model returns `Err(Diverged)` once the bound is used up, so it does not describe runs deeper than the bound.
- `QuadTree` and `OctTree` nodes are values, and `Insert`, `Remove`, `split`, `dump` and `removeChildren` are functions from the old node to the new one. No node is shared between two parents in the source, so no aliasing is lost. Update in place is not captured.
- `GetItems`, `GetIntersecting`, `Collect` and `CollectIntersection` append to a list passed in by the caller. They are modelled as functions that return the appended part.
- `OctTree.GetEnumerator` enumerates `Collect()` and is not modelled separately.
- `Rasterizers.Rasterizer.RasterLineScreen`, `Rasterizers.Rasterizer.RasterPolyScreen` and `Rasterizers.Rasterizer.RasterizeScreen` take a `Screens.Screen` and write with `Screen.Set`. In the source `ZBuffer<T>` derives from `Screen<T>` and overrides the indexer's setter with `Insert(x, y, 0, value)` (`Rasterizer.cs:444-453`), so the same calls on a `ZBuffer<T>` keep the first item written to each cell. In the model the two classes are unrelated, so that dispatch is not modelled. `Screens.FirstWriteKept` states what the overridden setter does to one cell under a run of writes.
- `GManager.DrawStorage` refers to types that are not part of this model: `ViewTransformator` and `Rasterize(int, ZBuffer, ...)`. It is modelled as the sequence of calls it makes. Each call is an id, the object found for it, and the entry's vertices. The transform and rasterization of each call are not composed.
- The `GObject` class that `GManager.cs` declares is modelled as `GManagers.GObject`, a holder for a transformation maker.

## Findings

| source | as written | input that shows it | evidently intended | confidence | as-written member | corrected member |
|---|---|---|---|---|---|---|
| MiniGL/GUtility.cs:1382, 1411, 1446, 1518 | cofactors 3, 5 and 10 of `Matrix4.Inverse`, and the fourth term of `Matrix4.Det`, each use one wrong factor (`v[5]` for `v[6]`, `v[8]*v[12]` for `v[12]*v[2]`, `v[4]*v[12]` for `v[12]*v[1]`) | the permutation `Swap4` (determinant 1): the product with its computed inverse has 0 at (1, 1); the cyclic shift `Shift4`: `Det` gives 0, so `Inverse` returns the identity; `RotateZ(0.6, 0.8)` then `Translate(0, 0, 1)` | the adjugate over the true determinant, so that `M * M^-1 = I` | not executed | Matrices.Inverse4NotRightInverse | Matrices.Inverse4CorrectedRight |
