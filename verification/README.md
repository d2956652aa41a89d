# black_sheep core, modelled in Dafny

This project models the core of `black_sheep`, a small Rust rendering and
physics toy. The model is pure Dafny functions over immutable datatypes.
Every panic the Rust code can reach is a `Panic` result, and every value the
GPU, the clock or a square root hands back is a parameter.

The modules follow the program's structure:

- `Collision`: the circle physics of `algorithms/mod.rs`.
  - Sweep-and-prune broad phase, with its integer X keys, stable sort, stack sweep and dedup.
  - Brute-force pair search.
  - Reflection response.
  - Window bounce.
- `Softbody`: the position-based soft body.
  - Tetrahedral lattice and its edge list.
  - Pre-solve and post-solve integration.
  - Edge relaxation and floor clamp.
- `Tetra`: the tetrahedron of `math.rs`.
  - Volume and its four gradient constraints.
- `ShaderMacro`: the `ShaderProgram` derive.
  - Fields are classified through `splitn(3, '_')`.
  - Its panics are modelled, including the identifier check `format_ident!` makes on a uniform's name.
  - The generated setters, `setup` calls and `new` are described.
- `Canvas`: the annotation canvas's event state machine and its line helpers.
- `DebthStack`: the counting stack of the script interpreter.
- `Script`: game objects, conditions, actions and instruction lists of the scripting layer.
- `Generators`: square quads and the point circle.
- `Grids`: point grids, the voxel grid and the point cube.
- `Geometry`: the unique index, meshes and the mesh repository with its binary-search lookup.
- `InputFlags` and `GameState`: the current input bit set, the movement direction and mouse look.
- `KeyboardFlags`: the older twelve-key bit set of `gamestate.rs`, related bit for bit to the current one.
- `GlQuery`: the three-state GPU timer query.
- `LoopTiming`: the fixed-step catch-up timer and the main loop's catch-up.

Conventions:

- `f32` is read as `real`.
- `|v| < s` is decided exactly as `s > 0 && v·v < s²`.
- Rust's `as i32` from a float truncates toward zero and saturates (`TruncI32`).
- Integer `/` on `i32` truncates toward zero (`TruncDiv`).
- `usize as i32` wraps (`WrapI32`).

## Model

| member | source | states |
|---|---|---|
| Collision.XEndpointsCount | src/black_sheep/algorithms/mod.rs:10-16 | every circle index below `n` appears exactly twice among the X endpoints, and no other index appears |
| Collision.SortByKey | src/black_sheep/algorithms/mod.rs:17 | sorting by key gives a list of the same length, ordered by key |
| Collision.SortByKeyPermutation | src/black_sheep/algorithms/mod.rs:17 | the sorted endpoints are a permutation of the input |
| Collision.SortByKeyIsStable | src/black_sheep/algorithms/mod.rs:17 | the sort is stable: for every key, the endpoints with that key keep their input order |
| Collision.SortByKeyCount | src/black_sheep/algorithms/mod.rs:17 | sorting keeps how often each circle index occurs |
| Collision.InsertByKeySorted | src/black_sheep/algorithms/mod.rs:17 | inserting into a key-sorted list keeps it sorted |
| Collision.SweepFrom | src/black_sheep/algorithms/mod.rs:21-31 | the stack sweep never leaves the same index twice in a row on the stack, and only leaves indices that were on it or appear among the endpoints |
| Collision.SweepFromAppend | src/black_sheep/algorithms/mod.rs:21-31 | sweeping two endpoint lists one after the other is sweeping their concatenation |
| Collision.AdjacentEndpointsCancel | src/black_sheep/algorithms/mod.rs:21-31 | a circle whose two endpoints are adjacent in the sweep order is pushed and popped again, so it is not left on the stack |
| Collision.SortDedup | src/black_sheep/algorithms/mod.rs:33-34 | `sort` followed by `dedup` yields a strictly increasing list with exactly the elements of the input |
| Collision.XCandidates | src/black_sheep/algorithms/mod.rs:8-34 | the X candidates are strictly increasing indices of existing circles |
| Collision.AdjacentXEndpointsNotCandidate | src/black_sheep/algorithms/mod.rs:17-34 | a circle whose two X endpoints are neighbours after sorting is never an X candidate |
| Collision.YEndpoints | src/black_sheep/algorithms/mod.rs:38-41 | Y endpoints are produced only for X candidates |
| Collision.YCandidates | src/black_sheep/algorithms/mod.rs:36-57 | the Y pass yields strictly increasing indices |
| Collision.YSubsetX | src/black_sheep/algorithms/mod.rs:36-57 | every Y candidate is an X candidate |
| Collision.PairsFrom | src/black_sheep/algorithms/mod.rs:65-72 | the inner loop for circle `i` lists exactly the later circles whose moved discs overlap circle `i`, in increasing order |
| Collision.Colliders | src/black_sheep/algorithms/mod.rs:59-73 | the collider list holds exactly the overlapping pairs `i < y` whose first member is a candidate; it is lexicographically increasing when the candidates are increasing |
| Collision.SapPairs | src/black_sheep/algorithms/mod.rs:3-73 | the pairs sweep and prune reports are exactly the overlapping pairs whose first member survived both sweeps, in lexicographic order |
| Collision.BrutePairs | src/black_sheep/algorithms/mod.rs:99-112 | the brute-force pair list holds exactly the overlapping pairs `i < y`, in lexicographic order |
| Collision.SapPairsSubsetOfBrute | src/black_sheep/algorithms/mod.rs:3-131 | every pair sweep and prune reports is also reported by the brute-force search |
| Collision.ReflectKeepsSpeed | src/black_sheep/algorithms/mod.rs:84-90 | reflecting a direction about a unit vector keeps its length |
| Collision.RespondPair | src/black_sheep/algorithms/mod.rs:74-91 | responding to one pair changes at most the two directions of that pair |
| Collision.Respond | src/black_sheep/algorithms/mod.rs:74-91 | the response pass leaves the direction of every circle in no reported pair unchanged |
| Collision.SweepAndPrune | src/black_sheep/algorithms/mod.rs:3-92 | panics exactly when `dirs` or `rads` is shorter than `positions`; otherwise every circle in no reported pair, and every extra direction, keeps its direction |
| Collision.BruteForceCollision | src/black_sheep/algorithms/mod.rs:94-131 | the same contract as sweep and prune, with the brute-force pair list |
| Collision.SingleCircleUnchanged | src/black_sheep/algorithms/mod.rs:3-92 | a lone circle never collides, so its direction is unchanged |
| Collision.NestedIntervalsMissed | src/black_sheep/algorithms/mod.rs:21-31 | two concentric circles overlap and the brute-force search reports them, but the stack sweep leaves no X candidate, so sweep and prune reports no pair |
| Collision.PreventOutOfBound | src/black_sheep/algorithms/mod.rs:133-152 | each direction component flips exactly when the moved disc leaves the window on that axis; the right edge is 300 pixels in from the window width; directions without a position and radius are untouched; flipping keeps each component's magnitude |
| Collision.BoundaryExample | src/black_sheep/algorithms/mod.rs:145-147 | a disc about to cross the left edge has its x direction reversed |
| Softbody.BuildTetragrid | src/black_sheep/softbody.rs:14-50 | `l³` particles, all red, at rest, with zero scratch positions; the edge list is built from them with rest length `a` |
| Softbody.TetragridLayout | src/black_sheep/softbody.rs:24-37 | the particle at y-major, then z, then x index `(y, z, x)` is the lattice point of those coordinates |
| Softbody.LatticeOffsets | src/black_sheep/softbody.rs:26-33 | the half-spacing x offset is present exactly on even rows, the two-thirds z offset exactly on even layers |
| Softbody.EdgePairs | src/black_sheep/softbody.rs:117-138 | the outer loop from particle `i` lists exactly the near pairs `i ≤ p < q`, in lexicographic order |
| Softbody.BuildEdges | src/black_sheep/softbody.rs:117-138 | the flat edge list, read two entries at a time, holds exactly the pairs of distinct particles closer than the rest length plus 0.01, each once, lower index first |
| Softbody.StridedFlatten | src/black_sheep/softbody.rs:83-88 | reading the pushed edge list back at stride two gives the pairs again |
| Softbody.FlattenStrided | src/black_sheep/softbody.rs:83-88 | flattening an even-length list's stride-two reading gives the list again |
| Softbody.BuildEdgesInRange | src/black_sheep/softbody.rs:117-138 | every entry of the edge list names a particle |
| Softbody.BuildEdgesNoSelfLoop | src/black_sheep/softbody.rs:117-138 | no edge joins a particle to itself |
| Softbody.PreSolve | src/black_sheep/softbody.rs:62-72 | panics exactly when a per-particle array is shorter than the particles; otherwise gravity is integrated into each velocity, the old position is saved, and the position moves by the new velocity |
| Softbody.PostSolve | src/black_sheep/softbody.rs:74-81 | panics exactly when an array is too short; otherwise each velocity times `dt` is the particle's displacement since pre-solve |
| Softbody.PrePostRoundTrip | src/black_sheep/softbody.rs:62-81 | with nothing in between, post-solve recovers exactly the velocities pre-solve integrated with |
| Softbody.Relax | src/black_sheep/softbody.rs:89-105 | one relaxation moves only its two particles, by opposite amounts |
| Softbody.Edge | src/black_sheep/softbody.rs:83-107 | panics exactly when the edge list has odd length or names a missing particle; otherwise the particle count is kept and particles on no edge stay put |
| Softbody.EdgeKeepsSum | src/black_sheep/softbody.rs:83-107 | without self-loops, edge relaxation keeps the sum of positions, and so the centre of mass |
| Softbody.Harddeck | src/black_sheep/softbody.rs:109-115 | every particle ends at or above the floor; particles above it stay, those below are lifted straight onto it |
| Softbody.HarddeckIdempotent | src/black_sheep/softbody.rs:109-115 | clamping twice is clamping once |
| Softbody.Simulate | src/black_sheep/softbody.rs:55-60 | a step panics exactly when the arrays are misaligned or the edge list is invalid; otherwise every particle is at or above the floor, and the sizes, colours, edges and rest length are kept |
| Softbody.SimulateFreeFall | src/black_sheep/softbody.rs:55-115 | a particle on no edge falls freely for one step, then is clamped to the floor |
| Tetra.Constraints | src/black_sheep/math.rs:25-36 | four constraint vectors; the fourth is the normal of the base triangle |
| Tetra.New | src/black_sheep/math.rs:8-17 | the base triangle lies in the plane y = 0, the apex sits on the y axis at height √3·√3·r, and the rest length is 2√3·r |
| Tetra.Zero | src/black_sheep/math.rs:18-24 | the degenerate tetrahedron has zero volume, zero rest length and zero constraints |
| Tetra.NewVolume | src/black_sheep/math.rs:8-17 | the volume of `new` is −x·r·h, negative for positive inputs |
| Tetra.ConstraintsGiveVolume | src/black_sheep/math.rs:25-44 | each constraint dotted with its vertex's edge from a neighbour is six times the volume: each is the volume's gradient at its vertex |
| Tetra.ConstraintsSumToZero | src/black_sheep/math.rs:25-36 | the four constraints sum to zero |
| Tetra.VolumeTranslationInvariant | src/black_sheep/math.rs:37-44 | moving all vertices by the same vector keeps the volume |
| Tetra.SwapNegatesVolume | src/black_sheep/math.rs:37-44 | swapping any two vertices negates the volume |
| ShaderMacro.Find | shader_macro/src/lib.rs:45 | the first occurrence of a separator, or none when it is absent |
| ShaderMacro.SplitN | shader_macro/src/lib.rs:45 | `splitn(n, sep)` gives between 1 and `n` parts; only the last may contain the separator, and only when there are `n` parts |
| ShaderMacro.JoinSplitN | shader_macro/src/lib.rs:45 | joining the parts of `splitn` with the separator gives back the identifier |
| ShaderMacro.SplitNJoin | shader_macro/src/lib.rs:45 | splitting a join of `n` parts, none but the last containing the separator, gives back the parts |
| ShaderMacro.SplitKeepsTail | shader_macro/src/lib.rs:45-52 | `uniform_vec3_light_pos` splits into `uniform`, `vec3` and `light_pos`: the uniform name keeps its underscores |
| ShaderMacro.ParseUniformType | shader_macro/src/lib.rs:63-72 | exactly the six type tags `f`, `i`, `i1v`, `vec3`, `vec4` and `mat4` are recognised |
| ShaderMacro.FieldStep | shader_macro/src/lib.rs:25-80 | one field panics exactly when its path type has no segment, it has no identifier, or it is a uniform field whose name is empty or starts with a digit or whose type tag is unknown |
| ShaderMacro.FieldStepEffect | shader_macro/src/lib.rs:37-79 | a field that does not panic adds its uniform if it is one, sets the program-id flag if it is `program_id: u32`, and clears the only-shader flag if it is an `i32` that is not a uniform |
| ShaderMacro.UniformOf | shader_macro/src/lib.rs:48-52 | the uniform read off a field joins back, as `uniform_<type>_<name>`, to the field's identifier, and its name is one `format_ident!` accepts |
| ShaderMacro.UniformField | shader_macro/src/lib.rs:45-75 | a field `uniform_<tag>_<name>: i32` is accepted exactly when the name is non-empty, does not start with a digit and the tag is one of the six; it then adds the uniform with that tag and name |
| ShaderMacro.NoIdentPanics | shader_macro/src/lib.rs:52-61 | the legal fields `uniform_f_` and `uniform_f_2` panic, because their uniform names are no identifiers |
| ShaderMacro.NonI32FieldIgnored | shader_macro/src/lib.rs:37-42 | a field whose type is not `i32` adds no uniform and keeps the only-shader flag; it can only set the program-id flag |
| ShaderMacro.FieldLoop | shader_macro/src/lib.rs:24-80 | the loop panics exactly when some field panics; otherwise it collects the uniforms of all fields in order, finds `program_id` exactly when some field is it, and keeps only-shader exactly when every `i32` field is a uniform |
| ShaderMacro.Generated | shader_macro/src/lib.rs:55-75 | one generated name per uniform, the prefix followed by the uniform's name, in field order |
| ShaderMacro.Derive | shader_macro/src/lib.rs:11-137 | the derive succeeds exactly on a struct with no panicking field and a `program_id: u32` field; a non-struct panics with `no data in struct`; on success there is one setter and one `setup_` function, called from `setup`, per uniform, and `new` is emitted exactly when every `i32` field is a uniform, initialising those fields |
| Canvas.New | src/black_sheep/canvas/mod.rs:73-98 | a new canvas waits for a box start, with no annotations, no lines, no dots and no colours |
| Canvas.HandleEvent | src/black_sheep/canvas/mod.rs:100-177 | events right of the canvas and other events change nothing. A press at box start opens a new annotation at the pixel and waits for the box end. A press at a key point stores it in the last annotation and moves on; after the last key point it goes back to box start, and past it, it panics. Motion records the mouse and, during a box, drags the box corner. Release at box end starts key points. Nothing but annotations, state and mouse position ever changes |
| Canvas.HandleEventKeepsInv | src/black_sheep/canvas/mod.rs:100-177 | from a consistent state (a key-point index in range, an annotation present unless at box start) an event never panics and keeps the state consistent |
| Canvas.NewInv | src/black_sheep/canvas/mod.rs:73-98 | a new canvas is consistent |
| Canvas.AnnotationsOnlyGrow | src/black_sheep/canvas/mod.rs:100-177 | an event adds an annotation exactly on a press at box start, and never changes any annotation but the last |
| Canvas.Run | src/black_sheep/canvas/mod.rs:100-177 | any event sequence from a consistent canvas keeps it consistent and keeps its size and lines |
| Canvas.OneAnnotation | src/black_sheep/canvas/mod.rs:100-177 | press, drag, release, then two presses leave one annotation with the dragged box and the two key points, back at box start |
| Canvas.AddLine | src/black_sheep/canvas/uitl.rs:6-9 | appends the two end points and nothing else |
| Canvas.AddDot | src/black_sheep/canvas/uitl.rs:11-13 | appends the dot and nothing else |
| Canvas.AddCross | src/black_sheep/canvas/uitl.rs:15-43 | appends a horizontal line at the cursor across the canvas width, a vertical one down its height, and four cyan colours |
| Canvas.AddSquare | src/black_sheep/canvas/uitl.rs:45-74 | appends four segments: `start` to `(start.x, end.y)`, `start` to `(end.x, start.y)`, `end` to `(start.x, end.y)` and `end` to `(end.x, start.y)`; each is axis-aligned and the canvas is otherwise unchanged |
| Canvas.SquareSidesDistinct | src/black_sheep/canvas/uitl.rs:45-74 | for corners that differ in both coordinates the four segments are the four distinct sides of the box, none of zero length |
| DebthStack.New | src/black_sheep/script/debth_stack.rs:5-7 | a new stack is empty |
| DebthStack.Push | src/black_sheep/script/debth_stack.rs:8-10 | pushing appends one entry whose counter and length are both the given length, keeping the others |
| DebthStack.Advance | src/black_sheep/script/debth_stack.rs:14-29 | advancing returns how many counters were zero and removes exactly that many entries |
| DebthStack.AdvanceOrigin | src/black_sheep/script/debth_stack.rs:14-29 | each surviving entry is an earlier entry with its counter decremented |
| DebthStack.AdvancePosition | src/black_sheep/script/debth_stack.rs:14-29 | an entry with a positive counter survives, decremented, shifted down by the zeros before it |
| DebthStack.AdvanceKeepsOrder | src/black_sheep/script/debth_stack.rs:14-29 | surviving entries keep their relative order |
| DebthStack.Track | src/black_sheep/script/debth_stack.rs:14-29 | after `j` advances, an entry whose counter was at least `j` is still there with its counter lowered by `j` |
| DebthStack.PushedEntryLifetime | src/black_sheep/script/debth_stack.rs:8-29 | an entry pushed with length `k` reaches zero after exactly `k` advances, and the advance after that reports a removal |
| DebthStack.Next | src/black_sheep/script/debth_stack.rs:46-51 | the iterator yields the entry at its position while there is one, then `None`, and always moves on |
| DebthStack.TakeYieldsEntries | src/black_sheep/script/debth_stack.rs:30-51 | iterating from position `i` yields the stack's entries in order, then `None` |
| Script.NewWarrior | src/black_sheep/script/impls.rs:11-16 | a new warrior is at the origin with speed 0 |
| Script.NewMark | src/black_sheep/script/impls.rs:61-65 | a new mark is at the origin |
| Script.MoveTo | src/black_sheep/script/impls.rs:38-53 | a warrior closer to its target than its speed lands on it; otherwise it moves by its speed along the unit direction; its speed is kept |
| Script.IsMet | src/black_sheep/script/impls.rs:127-179 | `Iterations` answers whether its count is positive and counts down; `Not` negates its inner answer; `IsCloseEnough` is unanswered exactly when a name is unbound, and otherwise answers whether the two objects are closer than the distance |
| Script.IterationsAnswers | src/black_sheep/script/impls.rs:164-179 | `Iterations(n)` answers yes exactly the first `n` times it is asked |
| Script.NotNot | src/black_sheep/script/impls.rs:119-130 | a doubly negated condition answers like the condition |
| Script.Act | src/black_sheep/script/impls.rs:100-108 | `MoveAtoB` always answers `None` and binds the same names; only `a` can change, and only when both names are bound and `a` can move, in which case it moves towards `b` |
| Script.MoveArrives | src/black_sheep/script/impls.rs:38-108 | a warrior closer to the target than its speed reaches it in one action |
| Script.ToStr | src/black_sheep/script/mod.rs:35-43 | the name is one of the five variant names |
| Script.ToStrDistinguishesVariants | src/black_sheep/script/mod.rs:35-43 | two instructions have the same name exactly when they are the same variant |
| Script.NewScript | src/black_sheep/script/mod.rs:52-54 | a new script has no variables and no instructions |
| Script.PushInstruction | src/black_sheep/script/mod.rs:56-58 | pushing appends the instruction and keeps the rest |
| Script.AddGameObject | src/black_sheep/script/mod.rs:60-62 | adding binds the name to the object, replacing any earlier binding, and keeps every other binding |
| Script.ScanDecidesBalanced | src/black_sheep/script/mod.rs:74-129 | a single left-to-right depth scan decides whether a list's while loops are well nested |
| Script.InitScript2 | src/black_sheep/script/mod.rs:74-129 | the demo script binds `warrior`, `mark1` and `mark2`, with the warrior at (0, −1) and speed 1, and holds thirteen instructions |
| Script.InitScript2Balanced | src/black_sheep/script/mod.rs:74-129 | every loop the demo script opens is closed, and none is closed before it is opened |
| Generators.NewComposition | src/black_sheep/generators/squares.rs:24-27 | a new composition has no squares |
| Generators.AddSquare | src/black_sheep/generators/squares.rs:29-31 | adding appends the square |
| Generators.GenerateColoredTriangles | src/black_sheep/generators/squares.rs:32-73 | four corners and colours and six element indices per square; square `k` fills slots `4k…4k+3` and indexes only its own corners |
| Generators.Circle | src/black_sheep/generators/point_circle.rs:3-20 | `pont_c` points of radius `rad` in the y = 0 plane, point `i` at the sine and cosine of its angle, and segment `i` joins point `i` to point `i+1`, wrapping round |
| Generators.CircleEndsArePermutation | src/black_sheep/generators/point_circle.rs:9-18 | the segments close the loop: every point ends exactly one segment |
| Grids.PointGridI32 | src/black_sheep/point_grid.rs:3-17 | `columns·lines` points, column-major, each the truncated quotients of `c·scale / columns` and `l·scale / lines`, with elements numbered in order; nothing for a non-positive count |
| Grids.GridPointInRange | src/black_sheep/point_grid.rs:8-14 | for positive sizes every grid point lies in the square `[0, scale)²` |
| Grids.PointGridF32 | src/black_sheep/generators/point_grid.rs:3-20 | the same grid, cast to floats after the integer divisions |
| Grids.VoxelGrid | src/black_sheep/generators/voxels.rs:5-24 | `width·height·debth` voxels in w, h, d order, spaced by `space`, with elements numbered in order |
| Grids.VoxelAtCell | src/black_sheep/generators/voxels.rs:10-20 | the voxel at row-major index `(w, h, d)` is at `space·(w, h, d)` |
| Grids.PointCube | src/black_sheep/point_cloud.rs:5-35 | `size³` points with colours and elements numbered in order; nothing for a non-positive size |
| Grids.CubeAtCell | src/black_sheep/point_cloud.rs:18-32 | the point at index `(x, y, z)` is the offset lattice cell scaled by `1/size` |
| Grids.CubeOffsets | src/black_sheep/point_cloud.rs:18-32 | the half-unit x offset is present exactly on even z, the `a` z offset exactly on even y |
| Geometry.GetNext | src/black_sheep/rendering/geometry/unique_index.rs:8-12 | returns the current counter and advances it by one |
| Geometry.DrawsCount | src/black_sheep/rendering/geometry/unique_index.rs:5-12 | successive draws are consecutive and so never repeat |
| Geometry.NewMesh | src/black_sheep/rendering/geometry/mod.rs:19-25 | a new mesh has no buffers and vertex count −1 |
| Geometry.AddFloatBuffer | src/black_sheep/rendering/geometry/mod.rs:27-38 | panics exactly on a negative attribute size; otherwise it records the buffer and sets the vertex count to the data length, wrapped to `i32` |
| Geometry.AddElementArrayBuffer | src/black_sheep/rendering/geometry/mod.rs:40-43 | records the buffer and keeps the vertex count |
| Geometry.NewRepo | src/black_sheep/rendering/geometry/mod.rs:76-81 | a new repository is empty and its index starts at 0 |
| Geometry.AddMesh | src/black_sheep/rendering/geometry/mod.rs:83-94 | the initialised mesh is stored under the next index, the token carries that index, and the store stays sorted |
| Geometry.GetMesh | src/black_sheep/rendering/geometry/mod.rs:96-102 | binary search finds a mesh stored under the id, or returns `None` exactly when no mesh has it |
| Geometry.AddMeshDense | src/black_sheep/rendering/geometry/mod.rs:83-94 | adding a mesh keeps the stored ids exactly `0…n−1` in order, as they are from a new repository |
| Geometry.DenseLookup | src/black_sheep/rendering/geometry/mod.rs:83-102 | in such a repository an id is found exactly when it is below the mesh count |
| InputFlags.FlagsAreDistinctBits | src/black_sheep/gamestate/input_flags.rs:7-23 | the fourteen flags are single, pairwise distinct bits and `WS` is `W` or `S` |
| InputFlags.FromKey | src/black_sheep/gamestate/input_flags.rs:27-46 | only unlisted keys map to no flag |
| InputFlags.FromKeyBits | src/black_sheep/gamestate/input_flags.rs:27-46 | a key maps to at most one bit, never to close or captured mouse |
| InputFlags.KeyDown | src/black_sheep/gamestate/input_flags.rs:49-52 | sets the key's bit and no other |
| InputFlags.KeyUp | src/black_sheep/gamestate/input_flags.rs:53-56 | clears the key's bit and no other |
| InputFlags.KeyDownIdempotent | src/black_sheep/gamestate/input_flags.rs:49-56 | pressing twice is pressing once; releasing after a press is releasing alone |
| InputFlags.Close | src/black_sheep/gamestate/input_flags.rs:57-59 | a close is requested exactly when the close bit is set |
| InputFlags.KeysKeepClose | src/black_sheep/gamestate/input_flags.rs:27-59 | no key press or release requests or cancels a close |
| GameState.RawMovement | src/black_sheep/gamestate/mod.rs:106-133 | each axis of the direction is the difference of its two keys: x is D minus A, y is X minus Y, z is S minus W |
| GameState.GetMovement | src/black_sheep/gamestate/mod.rs:106-133 | no movement exactly when no flag is set; otherwise the normalised key direction |
| GameState.MovementWithoutDirection | src/black_sheep/gamestate/mod.rs:106-133 | holding only the close bit, or W with S, still gives a movement: the normalised zero vector |
| GameState.OnMouseMotion | src/black_sheep/gamestate/mod.rs:92-102 | without a captured mouse nothing turns; otherwise a non-zero horizontal motion calls `rotate_v` and then a non-zero vertical motion calls `rotate_h`, each by a tenth of a degree per pixel |
| KeyboardFlags.KeysAreDistinctBits | src/black_sheep/gamestate.rs:14-32 | the twelve flags are single, pairwise distinct bits |
| KeyboardFlags.KeyFlag | src/black_sheep/gamestate.rs:63-99 | only unlisted keys select no flag |
| KeyboardFlags.LayoutsAgree | src/black_sheep/gamestate.rs:63-80 | each listed key selects the flag the older match names for it, and that flag shifted up by one bit is the newer layout's flag for the key |
| KeyboardFlags.KeyDown | src/black_sheep/gamestate.rs:63-80 | sets the key's bit and no other |
| KeyboardFlags.KeyUp | src/black_sheep/gamestate.rs:82-99 | clears the key's bit and no other |
| KeyboardFlags.OtherKeysIgnored | src/black_sheep/gamestate.rs:63-99 | unlisted keys change nothing |
| KeyboardFlags.KeyDownThenUp | src/black_sheep/gamestate.rs:63-99 | pressing twice is pressing once; releasing after a press is releasing alone |
| KeyboardFlags.GetMovement | src/black_sheep/gamestate.rs:34-61 | no movement exactly when no key is held; otherwise the normalised key direction |
| KeyboardFlags.NonMovingKeys | src/black_sheep/gamestate.rs:34-61 | holding only keys that do not move, or W with S, gives the normalised zero vector |
| KeyboardFlags.MovementAgrees | src/black_sheep/gamestate.rs:34-61 | both layouts give the same movement for the same held keys |
| GlQuery.New | src/black_sheep/gl_debug.rs:49-60 | a new query is ready |
| GlQuery.Start | src/black_sheep/gl_debug.rs:62-70 | a ready query starts running; otherwise nothing changes |
| GlQuery.End | src/black_sheep/gl_debug.rs:72-80 | a running query ends; otherwise nothing changes |
| GlQuery.GetTime | src/black_sheep/gl_debug.rs:82-98 | a time comes back exactly from an ended query whose result is non-zero; it is that result and resets the query to ready; otherwise nothing changes |
| GlQuery.RunTimesPositive | src/black_sheep/gl_debug.rs:82-98 | every reported time is positive |
| GlQuery.TimesBoundedByEnds | src/black_sheep/gl_debug.rs:62-98 | a run reports at most one time per measured stretch |
| GlQuery.FrameCycle | src/black_sheep/gl_debug.rs:49-98 | start, end and a successful poll report the one time and leave the query as new |
| LoopTiming.MsPerUpdateIs40ms | src/black_sheep/settings.rs:3-5 | one update is 40 ms at 25 updates per second |
| LoopTiming.New | src/black_sheep/loop_timing.rs:14-20 | a new timer has no lag and has read no time |
| LoopTiming.UpdateLag | src/black_sheep/loop_timing.rs:22-30 | panics exactly when the clock went backwards; otherwise the lag grows by the time since the last reading, which is recorded, and the new lag is returned |
| LoopTiming.GetIv | src/black_sheep/loop_timing.rs:32-34 | the interpolation value is non-negative, and below 1 while the lag is below one update |
| LoopTiming.Update | src/black_sheep/loop_timing.rs:36-38 | panics exactly when the lag is below one update; otherwise it consumes one update's worth |
| LoopTiming.UpdateLagAccounted | src/black_sheep/loop_timing.rs:22-30 | reading the clock keeps "lag plus consumed time equals time read" |
| LoopTiming.UpdateAccounted | src/black_sheep/loop_timing.rs:36-38 | an update keeps that account with one more update counted |
| LoopTiming.CatchUp | src/black_sheep/mod.rs:199-240 | the catch-up loop runs exactly `lag / MS_PER_UPDATE` updates, never panics, and leaves the remainder as lag |
| LoopTiming.Frame | src/black_sheep/mod.rs:176-240 | a frame panics exactly when the clock went backwards; otherwise the total number of updates so far is the elapsed time divided by `MS_PER_UPDATE`, and less than one update of lag remains |

## Left out

- OpenGL, SDL, ImGui and the file system are left out. Every id, query result or buffer the GPU returns is an input, and draw and bind calls are not modelled. Neither is `shader_program` or the token streams the derive emits: the expansion is described by the identifiers it generates.
- Square roots, `normalize`, `magnitude`, `sin` and `cos`, and the fast inverse square root are left out. They are parameters, because Dafny's reals have no square root. The distance tests need none, since they compare squares.
- Floating-point rounding, NaN and infinities are left out. `f32` is read as an exact real, so the `partial_cmp().unwrap()` of the Y sort never panics in the model.
- Collision.SweepAndPrune: states which directions stay unchanged, not the reflected values of the colliding ones. Those values depend on the `normalize` parameter; `RespondPair` fixes them.
- Collision.BruteForceCollision: the same weakening, for the same reason.
- Softbody.PostSolve: requires `dt ≠ 0`. With `dt = 0` the f32 division yields infinities or NaN, which exact reals cannot represent.
- Softbody.Simulate: requires `dt ≠ 0`, for the same reason.
- Softbody.BuildTetragrid: the `usize` and `u32` index arithmetic is unbounded. The `tetras` field and its commented-out construction are left out; no operation reads them.
- Canvas.AddCross: the source extends a field `l_colors` that `Canvas` does not declare. The model extends `colors`, the only colour list there is.
- Canvas.HandleEvent: pixel coordinates are cast exactly. The `println!` of the undefined branches is left out; they change nothing.
- The canvas's `build` and `draw` are rendering and are left out.
- Grids.PointGridI32: `c * scale` and `l * scale` are unbounded integers. The source's `i32` multiplication would overflow for very large grids.
- Grids.PointGridF32: the same unbounded multiplication.
- Generators.GenerateColoredTriangles, Grids.PointGridI32, Grids.PointGridF32, Grids.VoxelGrid, Grids.PointCube: the element counter is a `nat`. The source counts in a `u32`, which overflows past 2³² entries; such meshes are far beyond what the program builds.
- ShaderMacro.FieldStep: a uniform name is taken as an identifier unless it is empty or starts with an ASCII digit. Non-ASCII characters that may continue but not start a Rust identifier are not distinguished, because the model has no Unicode tables.
- Script.ScanDecidesBalanced: branches (`IfCFlow`, `EndIfCFlow`) are not checked for nesting. The interpreters reach `todo!()` on them, so no nesting rule for them exists in the source.
- Geometry.GetMesh: requires the store to be sorted by id with fewer than 2³² meshes. `AddMesh` from `NewRepo` keeps the store sorted, and more meshes would overflow the `u32` ids.
- Script.MoveTo: the unit direction is a parameter. Moving onto the current position, where the source normalises a zero vector, is left unconstrained.
- The script interpreter that walks the instruction list (`structogram.rs`) and the `print` helpers are not part of this model.
- The `RefCell` borrows in `gl_debug.rs` are left out. They always succeed in the single-threaded program, so their `unwrap` never panics.
- `setup_debug` and the GL message callback are left out.
- LoopTiming.Frame: stated for timers whose lag and update count account for all time read, with less than one update of lag. `New` starts there, and `CatchUp` returns there, so the main loop never leaves that set.
- `Duration` is whole nanoseconds without its `u64` seconds limit, and the start instant is replaced by the elapsed time as an input.
- The body of each main-loop update (ImGui windows, `game_state.update`) is left out.
- `GameFlags` in `gamestate.rs`, the camera's internals and the game state's `update` and `draw` are left out. The model records the calls mouse motion makes on the camera.
- `src/black_sheep/gamestate.rs` and `src/black_sheep/gamestate/mod.rs` are modelled side by side, as `KeyboardFlags` and `InputFlags`/`GameState`. `MovementAgrees` relates the two.

## Findings

| source | as written | input that shows it | evidently intended | confidence | as-written member | corrected member |
|---|---|---|---|---|---|---|
| src/black_sheep/algorithms/mod.rs:21-31 | the candidates are the indices left on the stack after the sweep, and an endpoint pops the stack when its circle is on top; the inner circle of a nested pair is pushed and popped back to back, the outer circle's own end then pops it, and neither is left as a candidate | two circles both at (10, 0) with radii 5 and 1: the sorted X keys are 5, 9, 11 and 15, the stack ends empty, and the overlapping pair is never tested | every circle whose X interval overlaps another's stays a collision candidate, so every overlapping pair is tested | not executed | Collision.NestedIntervalsMissed | Collision.BrutePairs |
