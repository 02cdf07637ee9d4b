# Legate core: launch assembly, solver expressions, communicator cache, buffer allocator

This project models four pieces of the Legate core runtime:

- **Task-launch assembly** (`legate/core/launcher.py`):
  - the permission sets kept per (region, field) (`ProjectionSet`) and per region
    (`FieldSet`);
  - the way `FieldSet.coalesce` groups fields under one requirement key;
  - the consecutive numbering of region requirements and the index table behind
    `get_requirement_index`;
  - the order in which `add_store`, `add_shape` and the `pack` methods of the argument objects
    append typed values to the argument buffer;
  - the coalesce-then-pack sequence of `build_task` and `build_single_task`.
- **The partitioning solver's value algebra** (`legate/core/solver.py`): `Shape` arithmetic with
  integer broadcasting, its lexicographic `<=`, `drop`/`update`/`insert`; and the expression tree
  `Offset`/`Tile`/`Dimension` with `closed`, `collapse`, `substitute`, `invert`, `find_term`,
  and the `Match`/`Subsume` constraints.
- **The communicator cache** (`legate/core/communicator.py`): the `_comms` memo table of the
  abstract `Communicator`.
- **The deferred buffer allocator** (`src/core/data/allocator.cc`, `src/core/utilities/allocator.h`):
  the pointer-keyed table of live buffers.

Modules:

| module | file | contents |
|---|---|---|
| `Errors` | errors.dfy | `Option`, `Result`, `Outcome` and the exception kinds |
| `Dicts` | dicts.dfy | insertion-ordered dictionaries as sequences of pairs |
| `LaunchTypes` | launch_types.dfy | `Permission`, projection descriptors, `RegionReq`, `get_requirement_index` |
| `ProjectionSets` | projection_sets.dfy | the pure `insert`/`coalesce` semantics and the class `ProjectionSet` |
| `FieldSets` | field_sets.dfy | the specification of grouping and the class `FieldSet` |
| `ArgPacking` | arg_packing.dfy | argument objects, the token stream, `pack`, and a reader for the block |
| `TaskLaunch` | task_launch.dfy | requirement numbering and the class `TaskLauncher` |
| `SolverShape` | solver_shape.dfy | `Shape` and `_cast_tuple` |
| `SolverExpr` | solver_expr.dfy | expressions and constraints |
| `Communicators` | communicators.dfy | the class `Communicator` |
| `DeferredAllocators` | deferred_allocators.dfy | the class `DeferredBufferAllocator` |

How the source maps to Dafny:

- Mutable objects are classes:
  - `ProjectionSet`, `FieldSet` and `TaskLauncher`; `BufferBuilder`; `Communicator`;
    `DeferredBufferAllocator`.
  - Each class has the source's fields and methods with `modifies` clauses.
  - A ghost `Model` or `RegionModel` ties the nested objects to pure values.
- Python dicts keep insertion order, so they are sequences of pairs.
- The requirement index table is a `map`.
- The argument buffer is a sequence of typed tokens. `I32`, `U32` and `I64` are the 32-bit
  signed, 32-bit unsigned and 64-bit signed values.
- Exceptions are `Result`/`Outcome` values. Where the source raises part-way through, the state
  mutated before the raise is kept: a grown WRITE bucket, a created field set, tokens already in
  the buffer, requirements already numbered.
- Calls into the execution engine are parameters:
  - the handle `_initialize` returns;
  - the start address `create_buffer` returns;
  - the dimension of a region.
- The engine's requirement calls appear only through the assertion they make first.

## Model

| member | source | states |
|---|---|---|
| LaunchTypes.ProjEquals | legate/core/launcher.py:170-219 | `Broadcast.__eq__`/`Project.__eq__` hold exactly for structurally equal descriptors |
| LaunchTypes.RegionReqEquals | legate/core/launcher.py:240-247 | `RegionReq.__eq__` holds exactly for equal five-field requirements |
| LaunchTypes.RequirementIndex | legate/core/launcher.py:385-392 | the exact (key, field) entry wins; else the READ_WRITE entry for that key; KeyError exactly when both are missing |
| LaunchTypes.MaterializeOutcome | legate/core/launcher.py:139-205 | adding a requirement passes unless its descriptor has a reduction operator and the permission is not REDUCTION; in that case AssertionError |
| ProjectionSets.AddEntryBuckets | legate/core/launcher.py:254-261 | one insert grows only its own bucket, by exactly the descriptor; it raises "Interfering requirements found" exactly when a WRITE bucket then holds more than one |
| ProjectionSets.NonWriteInsertAccepts | legate/core/launcher.py:257-271 | READ, NO_ACCESS and REDUCTION inserts always succeed and add the descriptor |
| ProjectionSets.ReadWriteIsReadThenWrite | legate/core/launcher.py:263-266 | inserting READ_WRITE equals inserting READ then WRITE |
| ProjectionSets.ReadWriteNeverStored | legate/core/launcher.py:263-271 | READ_WRITE never becomes a key of the permission dict |
| ProjectionSets.WriteRejectsSecond | legate/core/launcher.py:257-261 | a WRITE bucket holding one descriptor rejects a different one, after the bucket has grown |
| ProjectionSets.DistinctWritesInterfere | legate/core/launcher.py:257-261 | two different WRITE descriptors interfere in either order, whatever came before |
| ProjectionSets.WriteReinsertUnchanged | legate/core/launcher.py:257-261 | re-adding the sole WRITE descriptor leaves the dict unchanged and passes |
| ProjectionSets.InsertRecords | legate/core/launcher.py:254-271 | an insert keeps every recorded access and records its own, even when it raises |
| ProjectionSets.CoalesceOnePermission | legate/core/launcher.py:274-276 | with one permission key, exactly one key per distinct descriptor of that bucket, and nothing else |
| ProjectionSets.CoalescePromotes | legate/core/launcher.py:277-293 | with two or more non-NO_ACCESS permissions and a one-descriptor union, exactly one READ_WRITE key for that descriptor |
| ProjectionSets.CoalescePromotionInterferes | legate/core/launcher.py:277-291 | with two or more non-NO_ACCESS permissions and a union of two or more descriptors (NO_ACCESS included), coalescing raises ValueError with the coalesce-time message, distinct from the insert-time one |
| ProjectionSets.NoAccessFallsThrough | legate/core/launcher.py:295-298 | NO_ACCESS next to exactly one other permission returns the raw pairs |
| ProjectionSets.ReadAndWriteSameCoalesce | legate/core/launcher.py:263-293 | READ then WRITE of one descriptor, or READ_WRITE of it, coalesce to the single READ_WRITE key |
| ProjectionSets.ReadAndWriteDifferentInterfere | legate/core/launcher.py:263-291 | READ of one descriptor and WRITE of another make coalescing raise ValueError with the coalesce-time message |
| ProjectionSets.ProjectionSet.Insert | legate/core/launcher.py:254-271 | the dict and the outcome after `insert` are those of the pure insertion |
| ProjectionSets.ProjectionSet.Coalesce | legate/core/launcher.py:273-298 | the loop-built union and `pop` give the result of the pure `coalesce` |
| FieldSets.FieldSet.Insert | legate/core/launcher.py:308-314 | the field's projection set, new or existing, receives the access; other fields are unchanged |
| FieldSets.FieldSet.InsertAt | legate/core/launcher.py:309-314 | an existing field's projection set is updated in place; nothing else changes |
| FieldSets.FieldSet.Append | legate/core/launcher.py:311-314 | a new field is appended with a fresh projection set holding the access |
| FieldSets.FieldInsertRecords | legate/core/launcher.py:308-314 | `FieldSet.insert` records its access, even when it raises, and keeps every earlier one |
| FieldSets.FieldSet.Coalesce | legate/core/launcher.py:316-326 | raises exactly when some field's coalescing fails, with the first such exception in dict order; otherwise returns an exact grouping |
| FieldSets.GroupField | legate/core/launcher.py:319-324 | the inner loop keeps the grouping exact for the field being added |
| FieldSets.GroupingStep | legate/core/launcher.py:320-324 | appending a field id to a present key, or creating the key, keeps keys distinct, members exact and keys ordered by first field |
| FieldSets.GroupingEmptyField | legate/core/launcher.py:318-324 | a field with no keys changes no grouping |
| FieldSets.FirstErrIsFirst | legate/core/launcher.py:317-319 | the reported exception is that of a field all of whose predecessors coalesce; none exactly when all coalesce |
| FieldSets.FirstErrorIsFirst | legate/core/launcher.py:317-319 | the same, stated on the field dict |
| FieldSets.FirstErrStep | legate/core/launcher.py:317-319 | one turn of the outer loop either raises the overall first exception or extends the error-free prefix |
| FieldSets.NoAccessFieldFails | legate/core/launcher.py:295-324 | a field with NO_ACCESS next to one other permission makes `FieldSet.coalesce` raise TypeError |
| FieldSets.CoveredKeyPresent | legate/core/launcher.py:273-293 | a recorded access appears among its field's keys, under its own permission or promoted to READ_WRITE |
| FieldSets.GroupedAccess | legate/core/launcher.py:316-326 | a recorded access of a field lies in a group listing that field under its key or the READ_WRITE key |
| FieldSets.SharedReadOneGroup | legate/core/launcher.py:316-326 | two fields read through one descriptor form one group listing both, in insertion order |
| FieldSets.ReadThenWriteTwoGroups | legate/core/launcher.py:316-326 | one field read and one written through one descriptor form two groups, READ first |
| ArgPacking.Pack | legate/core/launcher.py:56-115 | each `pack` appends exactly the argument's tokens, keeping what it appended before raising |
| ArgPacking.PackValues | legate/core/launcher.py:62-64 | the elements of an array argument, one serializer call each, in order |
| ArgPacking.PackRegion | legate/core/launcher.py:98-115 | dim (N of the transform when present), redop or -1, the requirement index, the field id, then the transform |
| ArgPacking.PackTransform | legate/core/launcher.py:104-115 | M, N, the matrix row by row and the M offsets, or a single -1 |
| ArgPacking.PackMatrix | legate/core/launcher.py:108-111 | the M x N matrix in row-major order |
| ArgPacking.PackInt64s | legate/core/launcher.py:112-113 | the offsets as 64-bit integers, in order |
| ArgPacking.EncodeFailsIff | legate/core/launcher.py:56-67 | `pack` raises exactly for an unknown scalar type (ValueError), an element-type tuple not of length one (AssertionError), an unknown element type or an unresolved requirement (KeyError) |
| ArgPacking.DecodeEncodeArg | legate/core/launcher.py:56-115 | a packed argument is read back from the front of the block, whatever follows it |
| ArgPacking.TransformRoundTrip | legate/core/launcher.py:104-115 | the transform part is read back to the same transform |
| ArgPacking.UnflattenFlatten | legate/core/launcher.py:108-111 | the row-major entries give back the matrix |
| ArgPacking.EncodeArgsPrefix | legate/core/launcher.py:474-475 | the buffer only grows: a prefix's block is a prefix of the block; after a raise nothing more is packed |
| ArgPacking.EncodeArgsAllPass | legate/core/launcher.py:474-475 | a block packed without exception is every argument's tokens, concatenated |
| ArgPacking.DecodeEncodeArgs | legate/core/launcher.py:474-475 | the whole block decodes to exactly the arguments' meanings, in order |
| ArgPacking.PackAll | legate/core/launcher.py:474-475 | the loop packs the arguments in declaration order and stops at the first exception |
| ArgPacking.PackNext | legate/core/launcher.py:474-475 | one turn of the loop appends the next argument after the earlier ones |
| TaskLaunch.Int64ArrayLayout | legate/core/launcher.py:57-64 | an int64 array packs as a signed 32-bit count followed by the elements |
| TaskLaunch.ShapeLayout | legate/core/launcher.py:454-463 | `add_shape` packs the shape array, then the projection id and the chunk array, or -1 |
| TaskLaunch.StoreHeaderLayout | legate/core/launcher.py:395-399 | `add_store` first packs the future flag, ndim, the dtype, the shape array and -1 |
| TaskLaunch.AddGroups | legate/core/launcher.py:372-377 | each group of a region becomes a requirement numbered by the current length and indexed under all its fields |
| TaskLaunch.IndexFieldsOf | legate/core/launcher.py:375-376 | every field of a group is indexed under the group's number |
| TaskLaunch.IndexFieldsLookup | legate/core/launcher.py:375-376 | the listed fields map to the number; every other entry is unchanged |
| TaskLaunch.NumberedLookup | legate/core/launcher.py:369-377 | with distinct requirements, every (requirement, field) maps to its position counted from the starting length |
| TaskLaunch.NumberedAppend | legate/core/launcher.py:369-377 | numbering two runs one after the other numbers their concatenation |
| TaskLaunch.AllRequirementsDistinct | legate/core/launcher.py:369-377 | distinct regions with distinct keys give distinct requirements |
| TaskLaunch.GroupResolves | legate/core/launcher.py:369-377 | a field listed in a group is indexed under that group's requirement |
| TaskLaunch.GroupNext | legate/core/launcher.py:370-371 | the next region's `coalesce` either raises that region's first exception or extends the grouping |
| TaskLaunch.AppendRegion | legate/core/launcher.py:372-377 | the next region's requirements are appended and numbered after the earlier regions' |
| TaskLaunch.CoalesceRegions | legate/core/launcher.py:369-377 | regions in dict order; the first failing region's exception ends the loop, with earlier requirements kept and numbered |
| TaskLaunch.RegionErrorAt | legate/core/launcher.py:370-371 | the reported exception is that of the first region whose field set fails |
| TaskLaunch.RegionInsertFound | legate/core/launcher.py:411-417 | a region already present has its entry updated in place |
| TaskLaunch.RegionInsertNew | legate/core/launcher.py:413-417 | a new region is appended with a new field set |
| TaskLaunch.RegionInsertRecords | legate/core/launcher.py:411-417 | `add_store` records its own access and keeps every earlier one |
| TaskLaunch.ResolvesAfterCoalesce | legate/core/launcher.py:385-392 | after every region is grouped and numbered, a recorded access resolves through `get_requirement_index` |
| TaskLaunch.RecordedResolves | legate/core/launcher.py:385-392 | the same, for the requirement key a region-field argument carries |
| TaskLaunch.ArgsResolve | legate/core/launcher.py:385-392 | every region-field argument of the launcher resolves after a successful coalesce |
| TaskLaunch.NewFieldSet | legate/core/launcher.py:414-417 | a fresh field set that has received its first access |
| TaskLaunch.TaskLauncher.constructor | legate/core/launcher.py:330-346 | ids and tag stored; every list, dict, the sharding space and the point empty |
| TaskLaunch.TaskLauncher.AddScalarArg | legate/core/launcher.py:379-380 | a scalar argument appended |
| TaskLaunch.TaskLauncher.AddArrayArg | legate/core/launcher.py:379-380 | a scalar argument with a tuple of element types appended |
| TaskLaunch.TaskLauncher.AddDtypeArg | legate/core/launcher.py:382-383 | a dtype argument appended |
| TaskLaunch.TaskLauncher.AddPoint | legate/core/launcher.py:451-452 | a point argument appended |
| TaskLaunch.TaskLauncher.AddFuture | legate/core/launcher.py:445-446 | the future appended |
| TaskLaunch.TaskLauncher.AddFutureMap | legate/core/launcher.py:448-449 | the future map appended |
| TaskLaunch.TaskLauncher.SetShardingSpace | legate/core/launcher.py:465-466 | the sharding space set |
| TaskLaunch.TaskLauncher.SetPoint | legate/core/launcher.py:468-469 | the point set |
| TaskLaunch.TaskLauncher.AddShape | legate/core/launcher.py:454-463 | the shape array, then the projection id and the chunk array, or -1; each assertion fails where the source's does, after the arguments before it |
| TaskLaunch.TaskLauncher.AddStore | legate/core/launcher.py:394-428 | the header always; then the future for a READ scalar store, ValueError for another scalar store, or the access recorded and the region-field argument appended when the insertion passes |
| TaskLaunch.TaskLauncher.AddStoreHeader | legate/core/launcher.py:395-399 | the future flag, ndim, dtype and shape arguments appended |
| TaskLaunch.TaskLauncher.AddRegionStore | legate/core/launcher.py:407-428 | the access recorded in the region's field set, then the region-field argument when the insertion passes |
| TaskLaunch.TaskLauncher.AddRegionFieldArg | legate/core/launcher.py:419-428 | the region-field argument of a recorded access appended |
| TaskLaunch.TaskLauncher.InsertAccess | legate/core/launcher.py:411-417 | the region's field set, found or created, receives the access; the table agrees with the pure insertion |
| TaskLaunch.TaskLauncher.InsertExisting | legate/core/launcher.py:411-417 | an existing field set is updated in place; the other regions are untouched |
| TaskLaunch.TaskLauncher.InsertNew | legate/core/launcher.py:413-417 | a new field set is created, appended and given the access |
| TaskLaunch.TaskLauncher.CoalesceRegionRequirements | legate/core/launcher.py:369-377 | requirements appended and numbered region by region, stopping at the first failing region; on success every region-field argument resolves |
| TaskLaunch.TaskLauncher.BuildTask | legate/core/launcher.py:471-494 | coalesce, then pack every argument in order, then add requirements, futures and future maps; the packed block reads back to the arguments' meanings |
| TaskLaunch.TaskLauncher.BuildSingleTask | legate/core/launcher.py:496-518 | the same for a single task, with the point, no future maps, and a local function when no region was touched |
| TaskLaunch.TaskLauncher.AddRequirements | legate/core/launcher.py:488-489 | requirements added in order, stopping at the first reduction-operator assertion that fails |
| SolverShape.CastTuple | legate/core/solver.py:154-162 | a shape gives its extents, a tuple gives itself, an int is repeated ndim times, and any other type raises ValueError naming the type |
| SolverShape.FloorDivMod | legate/core/solver.py:215-223 | Python's `//` and `%` satisfy `(a // b) * b + a % b == a`, with the remainder on the divisor's side |
| SolverShape.FloorDivUnique | legate/core/solver.py:215-223 | they are the only such quotient and remainder |
| SolverShape.Zip | legate/core/solver.py:200-223 | `zip` stops at the shorter tuple; each component is the pair's result; a zero divisor raises ZeroDivisionError |
| SolverShape.ArithComponentwise | legate/core/solver.py:200-223 | all five operators are componentwise after `_cast_tuple`; another operand type raises ValueError; a zero divisor raises ZeroDivisionError |
| SolverShape.ArithBroadcast | legate/core/solver.py:154-160 | an int operand is broadcast: ndim kept, each extent combined with it |
| SolverShape.ArithTruncates | legate/core/solver.py:200-213 | a tuple of another length gives the shorter length |
| SolverShape.AddSubInverse | legate/core/solver.py:200-208 | subtracting what was added gives the shape back |
| SolverShape.DivModShape | legate/core/solver.py:210-223 | `(s // t) * t + s % t == s` for nonzero divisors |
| SolverShape.LexLeIff | legate/core/solver.py:190-193 | tuple `<=` on equal lengths is equality or smaller at the first difference |
| SolverShape.LeIff | legate/core/solver.py:190-193 | `Shape.__le__` holds exactly for an equal-length operand that is equal or lexicographically smaller |
| SolverShape.LeNotComponentwise | legate/core/solver.py:190-193 | (1, 5) <= (2, 0) holds and (1, 0) <= (1,) does not: the order is not per component |
| SolverShape.ShapeOrder | legate/core/solver.py:190-198 | between shapes of one ndim, `<=` is reflexive, total and transitive, and both directions give `==` |
| SolverShape.EqBroadcast | legate/core/solver.py:195-198 | `s == n` compares every extent with n |
| SolverShape.DropSpec | legate/core/solver.py:225-226 | `drop(d)` removes exactly extent d and keeps the others in order |
| SolverShape.UpdateSpec | legate/core/solver.py:228-229 | `update(d, v)` replaces exactly extent d |
| SolverShape.InsertSpec | legate/core/solver.py:231-232 | `insert(d, v)` puts v at d and shifts the later extents |
| SolverShape.DropInsert | legate/core/solver.py:225-232 | dropping what was inserted gives the shape back |
| SolverShape.InsertDrop | legate/core/solver.py:225-232 | inserting the dropped extent where it was gives the shape back |
| SolverExpr.Base | legate/core/solver.py:29-31 | the bottom of an offset chain is a tile exactly when the expression is closed |
| SolverExpr.ClosedIff | legate/core/solver.py:29-86 | closed exactly when no variable is mentioned, and exactly when no coordinate is denoted |
| SolverExpr.CollapseSpec | legate/core/solver.py:36-41 | collapse succeeds exactly on closed expressions, giving the innermost tile's size with the outermost offset; a dimension raises |
| SolverExpr.FindTermSpec | legate/core/solver.py:50-51 | find_term returns the one variable of an open expression and raises on a closed one |
| SolverExpr.InvertSound | legate/core/solver.py:46-48 | inversion succeeds exactly on open expressions, keeps the equation's meaning under every assignment and keeps the variable |
| SolverExpr.SubstituteSound | legate/core/solver.py:109-110 | the substituted expression evaluates as the original with each replaced variable given its replacement's value |
| SolverExpr.SubstituteKeeps | legate/core/solver.py:69-70 | closed expressions, and everything under the empty substitution, are left as they are |
| SolverExpr.SubstituteCloses | legate/core/solver.py:43-44 | replacing the variable by a closed expression closes the expression |
| SolverExpr.SubstituteAsWrittenRaises | legate/core/solver.py:109-119 | as written, substitute raises AttributeError on every open expression |
| SolverExpr.SubstituteAsWrittenCounterexample | legate/core/solver.py:109-119 | `Dimension(0, (4,)).substitute({})` raises as written; the corrected version returns the dimension |
| SolverExpr.ConstraintSubstituteSpec | legate/core/solver.py:134-141 | substitution keeps the constraint's kind and operator, its closed sides, and its closedness |
| SolverExpr.ConstraintSubstituteAsWrittenRaises | legate/core/solver.py:138-141 | as written, a constraint survives substitute only when both sides are closed |
| Communicators.Communicator.constructor | legate/core/communicator.py:24-25 | empty cache, no calls made |
| Communicators.Communicator.GetCommunicator | legate/core/communicator.py:27-30 | a cached volume returns its handle without `_initialize`; a new one calls `_initialize` once and caches the result; other volumes are untouched |
| Communicators.Communicator.Destroy | legate/core/communicator.py:32-34 | `_finalize` once per cached entry, in insertion order; the cache is not cleared |
| Communicators.InitsFinalizations | legate/core/communicator.py:32-34 | `destroy` makes no `_initialize` call |
| DeferredAllocators.AlignedSizeRoundsUp | src/core/data/allocator.cc:34 | without wrap-around the size becomes the next multiple of 16 at or above the request |
| DeferredAllocators.AlignedSizeWraps | src/core/data/allocator.cc:34 | every size is a multiple of 16, and a request within 15 of SIZE_MAX wraps to 0 |
| DeferredAllocators.DeferredBufferAllocator.Default | src/core/utilities/allocator.h:30-41 | the default allocator targets system memory and tracks nothing |
| DeferredAllocators.DeferredBufferAllocator.constructor | src/core/data/allocator.cc:21 | only the memory kind is set; nothing is tracked |
| DeferredAllocators.DeferredBufferAllocator.Allocate | src/core/data/allocator.cc:29-42 | zero bytes returns null and changes nothing; otherwise the new buffer is tracked under its address and no other entry changes |
| DeferredAllocators.DeferredBufferAllocator.Deallocate | src/core/data/allocator.cc:44-53 | a tracked pointer's entry is removed and its buffer destroyed; any other pointer is ignored, and so is `n` |
| DeferredAllocators.DeferredBufferAllocator.Destroy | src/core/data/allocator.cc:23-27 | every tracked buffer is destroyed once and the table is emptied |
| DeferredAllocators.DestroyedEach | src/core/data/allocator.cc:23-27 | every buffer tracked before the destructor appears among the destroyed ones |

## Left out

- The thin wrappers `add_no_access`, `add_input`, `add_output`, `add_inout` and `add_reduction` are not modelled; each only fixes the permission of `add_store`.
- `execute` and `execute_single` are not modelled. The engine objects `IndexTask`, `SingleTask` and `ArgumentMap` are foreign calls: a launch is described by a `Launch` value, and each requirement call keeps only its reduction-operator assertion.
- `legion_task_id` and `legion_mapper_id` are not modelled: they call into the runtime context, so the launch keeps the library ids.
- Byte encoding is not modelled: `BufferBuilder` is a token stream. Float payloads, dtypes and points are opaque tokens, and `get_string`/`get_size` are not modelled.
- The coalesce-time conflict message is modelled only up to its colon: `InterferingSetMsg` leaves out the rendered set of descriptors that follows. It differs from the insert-time `InterferingMsg`, so the two conflicts stay apart.
- The `assert type(tag) != bool` of the launcher's constructor is not modelled: the tag is an `int`.
- The fields `_next_region_idx` and `_projections` are not modelled, because no modelled operation reads them. `__del__` is not modelled: it only clears collections.
- The requirement table and its index table are written back even when coalescing raises, as in the source. Calling `build_task` twice coalesces twice and appends requirements twice; no guard is added, following the code.
- Transforms are taken as well-formed (M rows of N entries and M offsets), as the accessor transform guarantees. `region.index_space.get_dim()` is a field of the store.
- The order of keys coming from one field's projection set is not fixed: Python iterates a set in unspecified order, so the grouping specification orders keys only by their first field.
- `NCCLCommunicator` is not modelled: it is GPU task plumbing. `_initialize` and `_finalize` are recorded as events, with the handle given as a parameter.
- `Shape.volume` and `compute_volume` are not part of this model; neither are `__str__`, `__repr__`, `__getitem__`, `__len__` and `Shape.__hash__`.
- The `Dimension` builders `__eq__`, `__le__` and `__add__` are not modelled: they only construct `Match`, `Subsume` and `Offset` values, which are datatype constructors here.
- A tile has no coordinate value under `Eval`: the semantics used for substitution and inversion covers offset chains over a variable.
- SolverExpr.SubstituteSound: requires every replacement to be open, because a closed replacement denotes a block rather than a coordinate.
- `create_buffer`, `ByteBuffer::ptr` and `ByteBuffer::destroy` are not modelled: the start address is a parameter assumed non-null and untracked, and a destruction is an entry in the `destroyed` log.
- DeferredAllocators.DeferredBufferAllocator.Allocate: a request that wraps to size 0 still receives a buffer at the given address; what the engine does with a zero-byte request is not modelled.
- DeferredAllocators.DeferredBufferAllocator.Destroy: states the destruction order only as the table's unspecified iteration order.

## Findings

| source | as written | input that shows it | evidently intended | confidence | as-written member | corrected member |
|---|---|---|---|---|---|---|
| legate/core/solver.py:109-119 | `Dimension.substitute` tests `self in subst`, which hashes `repr(self)`, which formats `self.shape.name`; `shape` is a tuple with no `name`, so every lookup raises AttributeError | `Dimension(0, [4]).substitute({})` | look the dimension up by its index and shape, replacing it when present and keeping it otherwise | not executed | SolverExpr.SubstituteAsWrittenCounterexample | SolverExpr.SubstituteSound |
