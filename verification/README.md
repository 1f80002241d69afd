# ANGLE's utility and sample layer: a verified model

This project models, in Dafny, the parts of ANGLE's `util`, `samples` and `scripts` directories that
carry real logic, and proves what they are for.

- **Matrices** (`Vectors`, `Determinants`, `Matrices`, `MatrixStorage`, `Rotations`, `Projections`).
  The inverse is specified from the determinant; the class `Matrix4` with its sixteen numbers in
  column order is proved to compute it.  Numbers are reals.  Cosine and sine are two numbers on the
  unit circle; a square root is a non-negative number with the right square.
- **Meshes** (`RowMajor`, `SphereMesh`, `SphereTopology`, `SphereProperties`, `CubeMesh`).  The sphere
  generator fills its arrays in nested loops and stores indices in 16 bits; what the buffers mean as
  a mesh is proved about the buffers, for every slice count.
- **Windows** (`ConfigSearch`, `Extensions`, `EglModel`, `EglOperations`, `EglLifecycle`, `EglWindow`).
  EGL is a value that follows EGL 1.4; its answers are inputs.  `aborted` records a failing `assert`
  of `destroyGL`.  The class `EGLWindow` carries the guarantees proved about runs.
- **Colour conversion** (`Nv12`), **GL objects** (`ShaderUtils`, `ShaderSessions`), **events and the
  frame loop** (`OsWindow`, `FrameLoop`, `SampleApplication`, which drives an `EGLWindow`) and the
  **multi-window sample** (`MultiWindow`).  `Options` holds the option type.

Results where the code does less than one might expect, each with its exact condition and an input:

- `invert(a * b) == invert(b) * invert(a)` fails when one factor is singular, unless the other is the
  identity (`Matrices.InverseOfProduct`, `Matrices.InverseOfProductFails`).
- `transform` divides by the four-dimensional length, not by w (`Projections.TransformIsNotDivision`,
  `Projections.TransformFails`).
- With more than 361 slices the stored sphere indices wrap: two triangles share a directed edge
  (`SphereTopology.StoredEdgesDistinctIff`), and a boundary edge is met a second time
  (`SphereTopology.StoredReverseIff`).  Both proofs construct the two edges for every such count.
- Initialising a window that still holds handles can fail the asserts of `destroyGL`
  (`EglLifecycle.InitDisplaySafeIff`), and initialising a context while one is held loses the first
  whenever it succeeds (`EglLifecycle.InitContextSafeIff`).
- A GL error pending at the link check leaves the program and both shaders behind
  (`ShaderUtils.ZeroResultRestoresIff`, `ShaderUtils.PendingErrorLeaks`).
- The NV12 script averages chroma over two pixels of a column, not over the four of a block
  (`Nv12.BlockMeanIff`, `Nv12.BlockMeanFails`).
- It ends with an IndexError for some image sizes (`Nv12.FitsIff`, `Nv12.TwoByThreeFails`).
- The comment above `FindEGLConfig` says EGL_FALSE is returned if a configuration is found; the code
  returns EGL_TRUE then, and the model follows the code.

## Model

| member | source | states |
|---|---|---|
| `Determinants.ProductRule` | util/Matrix.cpp:188-189 | the determinant of rows of linear combinations is the product of the determinants, from alternation and linearity alone |
| `Matrices.FirstColumnExpansion` | util/Matrix.cpp:188-189 | the expansion along the first column that the source uses is the determinant |
| `Matrices.DetMul` | util/Matrix.cpp:188-256 | the determinant computed in `invert` is multiplicative over `operator*` |
| `Matrices.DetTranspose` | util/Matrix.cpp:203-208 | transposing keeps the determinant |
| `Matrices.MulAssociative` | util/Matrix.cpp:222-256 | `operator*` is associative |
| `Matrices.ApplyMul` | util/Matrix.cpp:283-289 | multiplying matrices composes the maps they stand for |
| `Matrices.MulAdjugate` | util/Matrix.cpp:138-186 | a matrix times its cofactor matrix is its determinant times the identity |
| `Matrices.InverseBothSides` | util/Matrix.cpp:136-201 | for a nonzero determinant `invert` gives an inverse on both sides |
| `Matrices.InverseUnique` | util/Matrix.cpp:136-201 | any right inverse is the one `invert` gives, and is a left inverse |
| `Matrices.FallbackIffNotInvertible` | util/Matrix.cpp:191-198 | the identity fallback is taken exactly for matrices that have no inverse |
| `Matrices.InverseInvolutive` | util/Matrix.cpp:136-201 | inverting twice gives the matrix back exactly when it is invertible |
| `Matrices.InverseOfProduct` | util/Matrix.cpp:136-256 | exactly when `invert(a * b) == invert(b) * invert(a)` |
| `Matrices.InverseOfProductFails` | util/Matrix.cpp:191-198 | for diag(2, 1, 1, 1) and diag(0, 1, 1, 1) the two sides differ |
| `Matrices.InverseTranspose` | util/Matrix.cpp:136-208 | `invert` and `transpose` commute, singular matrices included |
| `Matrices.InverseUndoes` | util/Matrix.cpp:136-289 | the inverse takes every image back to its source, and conversely |
| `MatrixStorage.Matrix4.constructor` | util/Matrix.cpp:38-71 | row-by-row arguments are stored column by column |
| `MatrixStorage.Matrix4.Identity` | util/Matrix.cpp:73-77 | the identity matrix |
| `MatrixStorage.Matrix4.Times` | util/Matrix.cpp:222-256 | the sixteen sums are the matrix product |
| `MatrixStorage.Matrix4.TimesInPlace` | util/Matrix.cpp:258-262 | the in-place product, also when both operands are one object |
| `MatrixStorage.Matrix4.ScaleInPlace` | util/Matrix.cpp:274-281 | every entry is multiplied |
| `MatrixStorage.Matrix4.ScaledCopy` | util/Matrix.cpp:264-272 | a scaled copy, the operand untouched |
| `MatrixStorage.Matrix4.TimesVector` | util/Matrix.cpp:283-289 | the image of a vector under the matrix |
| `MatrixStorage.Matrix4.Transposed` | util/Matrix.cpp:203-208 | the transposed matrix |
| `MatrixStorage.Matrix4.Equals` | util/Matrix.cpp:291-301 | true exactly for equal matrices |
| `MatrixStorage.Matrix4.Cofactors` | util/Matrix.cpp:138-186 | the sixteen six-term polynomials are the adjugate |
| `MatrixStorage.Matrix4.Invert` | util/Matrix.cpp:136-201 | cofactors, determinant, scaling and fallback give the specified inverse |
| `Rotations.Rodrigues` | util/Matrix.cpp:86-94 | the rotation matrix acts by Rodrigues' formula and keeps w |
| `Rotations.Compose` | util/Matrix.cpp:79-95 | two rotations about one axis multiply to the rotation by the sum of the angles |
| `Rotations.RotationOrthogonal` | util/Matrix.cpp:79-95 | a rotation matrix is orthogonal and its inverse turns back |
| `Rotations.RotationDet` | util/Matrix.cpp:79-95 | a rotation matrix has determinant one |
| `Rotations.RotateProper` | util/Matrix.cpp:79-95 | for every axis of nonzero length: orthogonal, determinant one, and the axis is fixed |
| `Rotations.RotateTurns` | util/Matrix.cpp:79-95 | about an axis of any length, the matrix turns by Rodrigues' formula about the unit axis |
| `Rotations.OrthogonalPreservesDot` | util/Matrix.cpp:203-289 | orthogonal matrices preserve all products, so lengths and angles |
| `Rotations.RollPitchYawProper` | util/Matrix.cpp:130-134 | every such matrix is a proper rotation, undone by the opposite turns in opposite order |
| `Projections.TranslationMoves` | util/Matrix.cpp:97-101 | points are moved by the vector |
| `Projections.TranslationInverse` | util/Matrix.cpp:97-101 | `invert` of a translation is the opposite translation |
| `Projections.FrustumClips` | util/Matrix.cpp:109-114 | a point lies in the view frustum exactly when its image lies in the clip volume |
| `Projections.FrustumPlanes` | util/Matrix.cpp:109-114 | each of the six planes goes to its own side of the clip volume: left to -w, near to -w, and so on |
| `Projections.FrustumInvertible` | util/Matrix.cpp:109-114 | the frustum matrix is invertible exactly when neither plane passes through the eye |
| `Projections.OrthoClips` | util/Matrix.cpp:123-128 | a point lies in the box exactly when its image lies in the clip volume, planes in either order |
| `Projections.OrthoPlanes` | util/Matrix.cpp:123-128 | each of the six faces of the box goes to its own side of the clip volume |
| `Projections.TransformIsNotDivision` | util/Matrix.cpp:210-220 | `transform` agrees with division by w exactly when x, y and z of the image vanish |
| `Projections.TransformFails` | util/Matrix.cpp:216-220 | the point (3, 0, 0, 4) becomes 3/5 instead of 3/4 |
| `MultiWindow.BoundingBox` | samples/multi_window/MultiWindow.cpp:110-123 | each edge of the box is the extreme over all windows, and is attained |
| `MultiWindow.ModelMatrixTurns` | samples/multi_window/MultiWindow.cpp:128-130 | the conjugated matrix is the plane rotation about the middle |
| `MultiWindow.ModelMatrixFixesMiddle` | samples/multi_window/MultiWindow.cpp:125-130 | the point turned about is as far from one edge of the box as from the other, and is fixed |
| `MultiWindow.ModelMatrixRigid` | samples/multi_window/MultiWindow.cpp:128-130 | squared distances between any two points are preserved |
| `SphereMesh.NumberingBijective` | util/geometry_utils.cpp:26-37 | row-major numbering is a bijection onto the vertex count |
| `SphereMesh.FillVertices` | util/geometry_utils.cpp:26-37 | every vertex ends up with the direction of its grid point and its multiple |
| `SphereMesh.PushIndices` | util/geometry_utils.cpp:39-55 | the buffer has the reserved length and holds the corners of the cells in order, cut to 16 bits |
| `SphereMesh.CreateSphereGeometry` | util/geometry_utils.cpp:17-56 | both together, into fresh arrays |
| `SphereMesh.EdgesDistinct` | util/geometry_utils.cpp:41-55 | for every slice count, no directed edge occurs twice |
| `SphereMesh.ReverseOccursIffInterior` | util/geometry_utils.cpp:41-55 | for every slice count, an edge is met in the opposite direction exactly when it is interior |
| `SphereTopology.CastsLosslessIff` | util/geometry_utils.cpp:45-53 | all casts to 16 bits are lossless exactly for up to 361 slices |
| `SphereTopology.StoredEdgesDistinctIff` | util/geometry_utils.cpp:39-55 | stored directed edges are distinct exactly for up to 361 slices |
| `SphereTopology.StoredReverseIff` | util/geometry_utils.cpp:39-55 | in the stored buffer exactly the interior edges are met in both directions, exactly for up to 361 slices |
| `SphereProperties.OnSphere` | util/geometry_utils.cpp:30-35 | normals have length one and positions lie on the sphere |
| `SphereProperties.PoleAndFirstSlice` | util/geometry_utils.cpp:30-35 | the first parallel is the pole (0, 1, 0), and the first slice runs from there through +z |
| `SphereProperties.TrianglesFaceOut` | util/geometry_utils.cpp:26-55 | for every slice count: the cross product of a triangle's edges, along the normal of any of its three vertices, is sin(row) times the squares of the step's sine and of the radius |
| `SphereProperties.StoredTrianglesFaceOut` | util/geometry_utils.cpp:26-55 | the same for the stored indices, for each triangle whose three casts are lossless |
| `SphereProperties.DegenerateIffTwoOnPole` | util/geometry_utils.cpp:26-55 | for every slice count: a triangle is degenerate exactly when two of its vertices lie on a pole row, and otherwise its front faces outward at all three vertices |
| `CubeMesh.CubeWinding` | util/geometry_utils.cpp:58-175 | the vertices of a triangle share a normal, its edges' cross product is 4 * radius^2 times it, its face lies at the radius |
| `CubeMesh.FacesComplete` | util/geometry_utils.cpp:58-175 | each face has four different corners and a normal of its own, and its two triangles share a diagonal and use all four |
| `ConfigSearch.FindEGLConfig` | util/EGLWindow.cpp:476-510 | the lowest-index configuration that matches every pair not marked DONT_CARE; none exactly if none matches |
| `ConfigSearch.AttributesMean` | util/EGLWindow.cpp:233-258 | the list is terminated and asks for exactly the wanted sizes, sample buffers and component type |
| `ConfigSearch.MatchesIffSuits` | util/EGLWindow.cpp:233-258 | the list matches exactly the configurations that have every size asked for, the sample buffers and the component type |
| `ConfigSearch.RequestedSizesSurvive` | util/EGLWindow.cpp:267-273 | each of the seven sizes becomes the configuration's if it knows the attribute and stays otherwise; sizes asked for are the sizes read back |
| `ConfigSearch.ReadBackSelectsSame` | util/EGLWindow.cpp:233-273 | asking again with the sizes read back selects the same configuration |
| `Extensions.CheckFindsTokens` | util/EGLWindow.cpp:523-528 | for every name, found exactly when its space-separated tokens stand side by side among those of the list |
| `Extensions.CheckFindsWord` | util/EGLWindow.cpp:523-528 | a name without spaces is found exactly when it is one of the tokens, empty ones included |
| `Extensions.JoinSplit` | util/EGLWindow.cpp:523-528 | splitting at single spaces loses nothing |
| `EglWindow.EGLWindow.constructor` | util/EGLWindow.cpp:99-131 | a new window satisfies the invariant and is released |
| `EglWindow.EGLWindow.Configure` | util/EGLWindow.h:68-96 | each setting and size is the one set, the client version and present path stay, and the invariant is kept |
| `EglWindow.EGLWindow.DestroyGL` | util/EGLWindow.cpp:443-465 | the new state, with a failing assert as an outcome, settings and sizes untouched; under the invariant nothing is left and everything was destroyed once |
| `EglWindow.EGLWindow.InitializeDisplayAndSurface` | util/EGLWindow.cpp:170-300 | succeeds exactly when nothing required is missing and some configuration suits, and then takes over its seven sizes; from the released state the invariant is kept, with a surface or nothing held |
| `EglWindow.EGLWindow.InitializeContext` | util/EGLWindow.cpp:302-441 | fails exactly for one of the listed reasons: a setting without its extension, a client version above 2 without EGL 1.5 or the extension, or a failing EGL call; without a context held the invariant is kept, with the pair current or nothing held |
| `EglWindow.EGLWindow.InitializeGL` | util/EGLWindow.cpp:163-168 | the exact condition for true, in terms of the settings, sizes and answers; from the released state everything is then initialised and current, and otherwise nothing is left |
| `EglWindow.EGLWindow.MakeCurrent` | util/EGLWindow.cpp:512-515 | keeps the invariant; the held pair becomes current, or nothing changes |
| `EglWindow.LessIsStrictTotalOrder` | util/EGLWindow.cpp:67-97 | `operator<` is lexicographic in the order of the fields, a strict total order that agrees with `operator==` |
| `EglLifecycle.DestroyQuiets` | util/EGLWindow.cpp:443-465 | after `destroyGL` nothing exists, is current or is pending, even if handles had been lost |
| `EglLifecycle.DestroyIdempotent` | util/EGLWindow.cpp:443-465 | a second `destroyGL` changes nothing |
| `EglLifecycle.InitDisplayMeans` | util/EGLWindow.cpp:170-300 | exactly when the first phase succeeds; it selects the first configuration that suits and takes over its sizes and the version of the display |
| `EglLifecycle.InitContextRefuses` | util/EGLWindow.cpp:302-441 | the reasons for which the second phase fails, and no others |
| `EglLifecycle.InitGLMeans` | util/EGLWindow.cpp:163-441 | exactly when both phases succeed, from any state |
| `EglLifecycle.AllOrNothing` | util/EGLWindow.cpp:163-441 | from the released state: true exactly when every answer was good, then all is initialised and current; otherwise all is released |
| `EglLifecycle.MakeCurrentOutcome` | util/EGLWindow.cpp:512-515 | the held pair becomes current exactly when both are held and EGL agrees |
| `EglLifecycle.InitDisplaySafeIff` | util/EGLWindow.cpp:170-300 | exactly from the released state no answers make an assert of `destroyGL` fail, and all answers keep the invariant |
| `EglLifecycle.InitContextSafeIff` | util/EGLWindow.cpp:302-441 | the second phase keeps the invariant for all answers exactly when no context is held; a context held before is lost, still existing, exactly when the second phase succeeds |
| `EglLifecycle.RunSafe` | util/EGLWindow.cpp:163-465 | over every legal run, with settings changed at any time, the asserts hold, and releasing leaves nothing behind with each surface and context destroyed exactly once |
| `EglLifecycle.ReinitialiseSelectsSame` | util/EGLWindow.cpp:233-273 | initialising, releasing and initialising again selects the same configuration |
| `Nv12.LimitedRange` | scripts/bmp_to_nv12.py:55-57 | luma in 16..235, chroma in 16..240 |
| `Nv12.CloseToStandard` | scripts/bmp_to_nv12.py:55-57 | less than one code value from the formulas of section 2.5 of ITU-R BT.601-7 |
| `Nv12.ColourMeans` | scripts/bmp_to_nv12.py:55-57 | each code is the weighted sum over 256 rounded to the nearest integer, which leaves one value, and is near the standard |
| `Nv12.ConvertPixels` | scripts/bmp_to_nv12.py:50-57 | every pixel is replaced by the luma and chroma of its colour, with blue, green and red in its bytes 0, 1 and 2 |
| `Nv12.Downsample` | scripts/bmp_to_nv12.py:60-67 | every chroma byte is the floored mean of two pixels and is written exactly once, in order; IndexError exactly if some access is out of bounds |
| `Nv12.FitsIff` | scripts/bmp_to_nv12.py:60-67 | the exact image sizes for which no access is out of bounds |
| `Nv12.TwoByThreeFails` | scripts/bmp_to_nv12.py:60-67 | an image of width 2 and height 3 is one that fails |
| `Nv12.EvenSizesWork` | scripts/bmp_to_nv12.py:60-67 | for even width and height every access is in bounds |
| `Nv12.ExtractY` | scripts/bmp_to_nv12.py:70-72 | the luma plane, each byte the luma of its pixel's red, green and blue |
| `Nv12.Convert` | scripts/bmp_to_nv12.py:50-72 | each luma byte is that of its pixel, each chroma byte the floored mean of U or V over two pixels one below the other, all in terms of the image's bytes; failure exactly for the other sizes |
| `Nv12.PlanesInRange` | scripts/bmp_to_nv12.py:50-72 | all bytes of both planes are in limited range |
| `Nv12.GreyImage` | scripts/bmp_to_nv12.py:56-67 | a grey image has chroma 128 everywhere |
| `Nv12.EvenImagePair` | scripts/bmp_to_nv12.py:61-67 | for even sizes, the pair at chroma row r and even column c is the mean over pixels (2r, c) and (2r + 1, c) |
| `Nv12.BlockMeanIff` | scripts/bmp_to_nv12.py:61-67 | exactly when a stored chroma byte equals the mean over the block of four pixels, for U and for V |
| `Nv12.BlockMeanFails` | scripts/bmp_to_nv12.py:61-67 | a black column beside a blue one: 128 is stored where the block mean is 184 |
| `ShaderUtils.CompileShader` | util/shader_utils.cpp:33-69 | zero exactly on failure, otherwise a new shader of the given kind; deleting the result leaves no trace |
| `ShaderUtils.CheckLinkStatusAndReturnProgram` | util/shader_utils.cpp:82-117 | nonzero exactly when no error is pending and the program exists and is linked; after a zero result without a pending error the program is gone, or flagged if it is in use |
| `ShaderUtils.CompileProgramWithTransformFeedback` | util/shader_utils.cpp:119-160 | nonzero exactly when both shaders compile, the program links and no error is pending; then it holds one shader of each kind and the varyings; exactly when a zero result restores the objects, and that deleting a nonzero one does |
| `ShaderUtils.FailedCompileRestores` | util/shader_utils.cpp:125-136 | if a shader does not compile, every object made is gone again |
| `ShaderUtils.NonzeroIff` | util/shader_utils.cpp:82-160 | a program is returned exactly when both shaders compile, it links and no error is pending |
| `ShaderUtils.ZeroResultRestoresIff` | util/shader_utils.cpp:84-160 | a zero result restores the objects, except exactly when both shaders compile and an error is pending |
| `ShaderUtils.PendingErrorLeaks` | util/shader_utils.cpp:84-85 | with no objects at the start and an error pending, a program and two shaders are left |
| `ShaderUtils.NonzeroThenDeleteRestores` | util/shader_utils.cpp:119-160 | a nonzero result is linked with the given varyings and one shader of each kind, and deleting it restores the objects, both flagged shaders included |
| `ShaderSessions.SessionConserves` | util/shader_utils.cpp:33-160 | over every session of compilations, deletions and changes of the program in use, in any order: once every returned program is deleted and the first program is in use again, the objects are those of the start exactly if no compilation was left with an error pending |
| `OsWindow.OSWindow.PopEvent` | util/OSWindow.cpp:274-286 | the oldest event leaves the queue; popped followed by queued events stay the pushed ones |
| `OsWindow.OSWindow.PushEvent` | util/OSWindow.cpp:288-309 | the event joins the queue; a move sets the position and a resize the size, and nothing else does |
| `OsWindow.OSWindow.DidTestEventFire` | util/OSWindow.cpp:311-323 | removes the shortest prefix that ends in a test event, or everything |
| `OsWindow.LastMeans` | util/OSWindow.cpp:243-299 | the tracked position and size are those of the last move and resize events, and zero without one |
| `SampleApplication.SampleApplication.DrainEvents` | samples/sample_util/SampleApplication.cpp:145-154 | all events are popped in order, and a close event stops the loop |
| `SampleApplication.SampleApplication.Run` | samples/sample_util/SampleApplication.cpp:112-174 | the result on every path; one step per frame begun, one draw, swap and pump per frame drawn, none if `initialize()` failed or called `exit()`; whenever it returns, the window is released with nothing left in EGL and everything destroyed once |
| `FrameLoop.LoopCounts` | samples/sample_util/SampleApplication.cpp:138-167 | the loop steps in every frame it begins, draws, swaps and pumps in exactly those in which neither `step` exits nor a close event is left, drains exactly the events left, and ends exactly in a frame that does not draw or whose drawing exits |
| `FrameLoop.LoopOrder` | samples/sample_util/SampleApplication.cpp:138-167 | a frame begins by stepping, swaps right after drawing and pumps messages right after swapping |
| `FrameLoop.RunMeans` | samples/sample_util/SampleApplication.cpp:126-174 | the result and the numbers of actions of a whole run, and the order of its teardown |
| `FrameLoop.NoDrawAfterClose` | samples/sample_util/SampleApplication.cpp:138-167 | once a close event is drained the loop neither draws nor swaps |
| `FrameLoop.SwapFollowsDraw` | samples/sample_util/SampleApplication.cpp:161-162 | the loop swaps exactly after drawing |

## Left out

- Floating-point rounding, infinities and NaN: reals are used, so a zero divisor (equal planes, an axis of length zero) is excluded where the source would produce a non-number.
- 32-bit overflow of window coordinates in the bounding box.
- `perspective` and `scale`: they add nothing beyond `frustum` and a diagonal.
- Texture coordinates of the cube; and its element-by-element assignments, which are modelled by the tables they leave.
- Sine and cosine of the sphere's angles: they enter through the identities named in the contracts.
- Extension strings inside `EGLWindow`: each `strstr` test is a boolean input; the attribute vectors for the display, surface and context are not modelled.
- Other windows on the same display, other threads, `eglSwapInterval` and failing `eglDestroySurface` or `eglDestroyContext` calls on live handles.
- Reading and writing files in the NV12 script, files shorter than their header says, negative sizes and BMP row padding.
- Failing creation of GL objects, compute programs and the binary program loaders.
- Platform windows under `util/windows` and `util/x11`, event printing, timers and random numbers.
- The frame loop is followed for a given number of frames; callbacks act on it only through `exit()` and the event queue, and do not touch the EGL window.
