# embree4-rs construction paths, modelled in Dafny

This project models the safe wrapper that the `embree4-rs` crate puts around
the Embree 4 ray-tracing library's C API. It covers the code that builds the
wrapper's objects:

- `TriangleMeshGeometry::try_new` creates a triangle geometry and then, one
  stage after another, allocates and fills a vertex buffer, allocates and fills
  an index buffer, and commits the geometry.
- `UserGeometry::try_new` registers a user-defined geometry through seven
  backend calls. Each call is followed by a `device_error_or` check.
- `Scene::try_new` creates a scene. It then applies the build quality and the
  flags, each only when it differs from its default.
- `device_error_raw` and `device_error_or` turn the device's error slot into
  an `Option` or a `Result`.
- The `Drop` implementations and the `geometry()` accessors.

The backend is an oracle. Each native call returns what the caller supplies:
a handle or buffer pointer that may be null, and the error code the call
raises. The device state is the error slot plus a log of every call the
wrapper made, slot reads included. The slot follows the documentation of
`rtcGetDeviceError` in the Embree 4 API: a failing call stores its code only
when no earlier error is pending, and reading the slot returns the code and
clears it. Orderings, counts and absences of calls are stated about the log.

Modules:

- `Outcomes`: `Option`, and the three outcomes of a wrapper call: `Ok`, `Err`
  (the crate's `anyhow` error, kept as its text) and `Panic`.
- `Backend`: error codes, handles, the call log, the error slot and its read.
- `DeviceErrors`: the two helpers from `src/lib.rs`.
- `Triples`: the stride-3 layout of the vertex and index buffers and the copy
  loop.
- `TriangleMesh`, `UserGeometries`, `Scenes`: the three constructors.

Behaviour the model makes explicit:

- A triangle-mesh construction or user-geometry registration that fails
  midway never releases the handle it created. The wrapper that owns the
  handle is never built, so its `Drop` never runs.
- `Scene::try_new` does release the scene once when a setter fails, because
  the `Scene` value already exists by then.
- An error raised by a non-null `rtcNewGeometry` in the triangle mesh, or by a
  non-null `rtcNewScene`, is not read where it happens. It surfaces at the next
  check, under that check's message.
- When `rtcNewScene` returns null, the error text shows whatever code the slot
  holds. That can be `RTC_ERROR_NONE`.
- The user geometry's handle is never compared with null.

## Model

| member | source | states |
|---|---|---|
| DeviceErrors.DeviceErrorRaw | src/lib.rs:28-35 | `None` exactly when the slot holds NONE, otherwise `Some` of the pending code. The slot is read once and is clean afterwards. |
| DeviceErrors.DeviceErrorOr | src/lib.rs:37-41 | `Ok(ok_value)` exactly when the slot was clean, `Err` exactly when it was not. The error text is the message, `": "` and the code. The slot is read exactly once. |
| DeviceErrors.ErrorTextNamesCode | src/lib.rs:39 | An error text starts with its message and `": "`, and the rest reads back as the code it was built from. |
| DeviceErrors.ErrorTextInjective | src/lib.rs:39 | For a fixed message, two error texts are equal only if their codes are equal. |
| Backend.NameRoundTrip | src/lib.rs:39 | Every `{:?}` rendering of an error code reads back as that code, so distinct codes render distinctly. |
| Triples.Flatten | src/geometry/tri_mesh.rs:68-71 | The buffer holds three slots per triple. Slots `3i`, `3i+1` and `3i+2` hold the components of triple `i`. |
| Triples.UnflattenFlatten | src/geometry/tri_mesh.rs:68-71 | Reading a filled buffer back as triples gives the input triples. |
| Triples.FlattenUnflatten | src/geometry/tri_mesh.rs:64-71 | Every slot of a `3n`-element buffer is written by exactly one triple. |
| Triples.FillTriples | src/geometry/tri_mesh.rs:64-72 | The copy loop over a buffer of exactly `3n` elements leaves the stride-3 layout of the input, whatever the buffer held before. |
| TriangleMesh.TryNew | src/geometry/tri_mesh.rs:34-108 | `Ok` exactly when no check trips. On `Ok`: it wraps the created handle, both buffers hold their input in stride-3 layout, the calls are the seven of a full construction and the slot is clean. Whatever was filled is the flattened input. It never panics. |
| TriangleMesh.CreateStage | src/geometry/tri_mesh.rs:39-44 | A null handle is an error reporting the slot as an `Option`, after one slot read. A non-null handle is not followed by a slot read, so the error it raised stays pending. |
| TriangleMesh.BufferStage | src/geometry/tri_mesh.rs:46-62 | A null buffer pointer fails the null check. A non-null one with a pending code fails the `device_error_or` check. Otherwise the stage passes. Either way the slot is read exactly once. |
| TriangleMesh.IndexAndCommit | src/geometry/tri_mesh.rs:74-107 | After the vertex stage: a failed index check stops before the commit, leaving the index buffer unfilled. Otherwise the commit call and its slot read follow. |
| TriangleMesh.CommitStage | src/geometry/tri_mesh.rs:102-107 | `Ok` of the wrapped handle when the slot is clean, otherwise the commit error with the code. The slot is read once. |
| TriangleMesh.FailureReported | src/geometry/tri_mesh.rs:39-105 | A failed construction reports the first check that tripped, with the code that check read. |
| TriangleMesh.FailureFilled | src/geometry/tri_mesh.rs:64-100 | After a failure, the vertex buffer is filled exactly when the failure comes after the vertex stage. The index buffer is filled exactly when only the commit failed. |
| TriangleMesh.FailureStopsEarly | src/geometry/tri_mesh.rs:39-105 | A failed construction makes the calls of the stages up to the failing one and no later call. The failing check reads the slot once. |
| TriangleMesh.FailureTextsDistinct | src/geometry/tri_mesh.rs:84-90 | Two failures that differ in the check or in the code read give different texts. This holds even for the two index-buffer checks, which share a message. |
| TriangleMesh.DetailInjective | src/geometry/tri_mesh.rs:43 | Within one check, distinct codes render distinctly. This holds for the `Option` rendering and for the bare code. |
| TriangleMesh.ConstructionCalls | src/geometry/tri_mesh.rs:46-83 | Every buffer request targets the created geometry in slot 0 with a 12-byte stride and one item per input triple. Vertices are floats and indices unsigned integers. No call of a construction releases anything. |
| TriangleMesh.ReleasedOnlyByDrop | src/geometry/tri_mesh.rs:111-117 | Construction releases nothing, on failure as on success. After a success, `Drop` releases the handle exactly once. |
| TriangleMesh.IndexValuesUnchecked | src/geometry/tri_mesh.rs:96-100 | Index values are never checked against the vertex count. Index lists of equal length give the same outcome and the same calls. |
| TriangleMesh.Drop | src/geometry/tri_mesh.rs:111-117 | Drop makes one `rtcReleaseGeometry` of the owned handle. |
| UserGeometries.Check | src/geometry/user.rs:44-47 | A call followed by `device_error_or`: it passes exactly when the slot ends up clean, and otherwise fails with the step's message and the code. The slot is read once. |
| UserGeometries.RunChecked | src/geometry/user.rs:39-76 | A run of checked calls succeeds exactly when every check passes. Then the log holds each call followed by its slot read, in order. A run never panics. |
| UserGeometries.RunStopsAtFirstFailure | src/geometry/user.rs:39-76 | If check `k` fails first, the run reports step `k`'s message with the code it read. It makes no call after step `k`'s slot read. |
| UserGeometries.RunTrace | src/geometry/user.rs:39-76 | Whatever the outcome, the run's calls are the checked calls up to and including the first failed one, each followed by its slot read. |
| UserGeometries.Registration | src/geometry/user.rs:39-74 | Seven steps with the source's messages, in order. The primitive count is 1, and the one data pointer goes both to the user data and to the bounds function. |
| UserGeometries.TryNew | src/geometry/user.rs:32-77 | `Ok` exactly when each of the seven checks reads NONE. On `Ok` it wraps the created handle, the log is the seven calls each followed by a slot read, and the slot is clean. It never panics. |
| UserGeometries.RegistrationStopsAtFirstFailure | src/geometry/user.rs:39-76 | The first failed check is reported with its step's message and code. Nothing follows that step's slot read. |
| UserGeometries.RegisteredArguments | src/geometry/user.rs:44-67 | Every call carries the intended arguments. The count is 1 and the data pointer is the caller's data in both places. The three callbacks are the ones passed in and target the created handle. Nothing is released. |
| UserGeometries.CallsFollowRegistration | src/geometry/user.rs:39-76 | On any outcome, the calls made are a prefix of a full registration's calls. |
| UserGeometries.HandleNeverChecked | src/geometry/user.rs:39-42 | The created handle is never null-checked. Replacing it, even with null, changes an `Ok` only in the wrapped handle and leaves any failure unchanged. |
| UserGeometries.OutcomeIgnoresArguments | src/geometry/user.rs:42-74 | The outcome of a run depends only on the codes and the messages, not on the calls' arguments. |
| UserGeometries.ReleasedOnlyByDrop | src/geometry/user.rs:86-92 | Registration releases nothing, even on failure. After a success, `Drop` releases the handle exactly once. |
| UserGeometries.Drop | src/geometry/user.rs:86-92 | Drop makes one `rtcReleaseGeometry` of the owned handle. |
| Scenes.Discriminant | src/scene.rs:88-97 | The declared discriminants are 0, 1, 2, 4 and 8. The discriminant is 0 exactly for the default `None`. |
| Scenes.ToSysEnum | src/scene.rs:78-86 | Every wrapper quality maps to the backend quality of the same name, never to `Refit`. The mapping reads back. |
| Scenes.ToSysEnumInjective | src/scene.rs:78-86 | Distinct wrapper qualities map to distinct backend qualities. |
| Scenes.FromSysEnumRoundTrip | src/scene.rs:78-86 | The backend qualities that read back are exactly those `to_sys_enum` produces. |
| Scenes.SetBuildQuality | src/scene.rs:31-41 | One `rtcSetSceneBuildQuality` with the mapped quality, then one slot read. `Ok` exactly when the slot was clean, otherwise `Err` naming the code. It never panics. |
| Scenes.SetFlags | src/scene.rs:43-53 | One `rtcSetSceneFlags`, then one slot read. `Ok` exactly when the slot was clean, otherwise a panic naming the code. It never returns `Err`. |
| Scenes.Drop | src/scene.rs:56-62 | Drop makes one `rtcReleaseScene` of the owned handle. |
| Scenes.TryNew | src/scene.rs:11-29 | `Ok` exactly when the handle is non-null and each applied setter's check passes. `Err` exactly when the handle is null or the applied quality setter fails. On `Ok` it wraps the created handle. |
| Scenes.NullSceneFails | src/scene.rs:12-16 | A null handle is an error with the code read from the slot, even NONE. The log is the creation and one slot read. No option is applied and nothing is released. |
| Scenes.DefaultOptionsCreateOnly | src/scene.rs:18-28 | The default options are `Medium` and `None`. With them, a non-null scene is returned right after creation and no setter runs. |
| Scenes.SuccessCalls | src/scene.rs:18-28 | After a success the log holds the creation, then the setters whose option differs from the default, quality before flags. |
| Scenes.QualityFailure | src/scene.rs:20-22 | A failed quality setting is an `Err` naming the code. The flags are not touched, and the scene is released once. |
| Scenes.FlagsFailure | src/scene.rs:24-25 | A failed flags setting panics with the code, after the quality setting if there was one. Unwinding releases the scene once. |
| Scenes.CreationCalls | src/scene.rs:11-29 | The calls of each of the four paths (null, success, quality failure, flags failure), in order. |
| Scenes.ReleasedOnFailureOnly | src/scene.rs:18-28 | `try_new` releases the scene exactly once when it fails after creation, and never otherwise. |
| Scenes.ReleasedOnceByDrop | src/scene.rs:56-62 | After a successful `try_new`, dropping the scene releases it exactly once. |

## Left out

- Native calls: every Embree function is an oracle. Its return value and the
  error it raises are parameters. What Embree does with the buffers,
  callbacks and scenes is not modelled.
- Embree error slot: modelled from the Embree 4 API documentation of
  `rtcGetDeviceError`, since the library is not part of this model.
- `Device::try_new` and `Drop for Device` (`src/device.rs`): the device is
  taken as given.
- `Device::error`: called in `src/geometry/tri_mesh.rs` but defined in none
  of the source files. It is taken to read the slot once and return it as an
  `Option`, the way `device_error_raw` does.
- `SceneFlags::to_sys_flags` (`src/scene.rs:99-104`): it casts the address of
  the flags value, not its discriminant, to `u32`. The value it passes depends
  on memory layout, so `rtcSetSceneFlags` is logged without its argument.
- Scenes.SetFlags: does not record the flags value handed to the backend, for
  the reason just given.
- Backend.Name: the `{:?}` spelling of each error code is taken to be its
  `RTC_ERROR_*` variant name, since the bindings crate is not part of this
  model. The proofs rely only on the spellings being distinct and starting
  with `R`. `RTC_ERROR_LEVEL_ZERO_RAISE_FAILED` is not among the modelled
  codes.
- Panics: a panic is an outcome carrying its message. Unwinding is assumed,
  so `Drop` of the scene runs when `set_flags` panics. Under `panic = "abort"`
  the release would not happen.
- Lifetimes and borrowing (`Scene<'a>`, `&Device`) are not modelled. The
  pointer to the user's `data` is its address, a natural number.
- Machine integers: `usize` overflow of `3 * vertices.len()` is not modelled.
  Lengths and addresses are unbounded. Vertex components are of a generic
  type, since the copy does no arithmetic on them.
- Memory safety of `slice::from_raw_parts_mut`: the backend buffer is assumed
  to hold exactly `3 * len` elements.
- `src/geometry/mod.rs` declares `mod tri_mesh` but not `mod user`, so
  `user.rs` is not compiled into the crate as written. It is modelled anyway,
  as written.
- The examples (`examples/*.rs`): ray setup, hit decoding and parallel
  intersection are callers of the core, not part of it.
