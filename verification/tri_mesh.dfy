/** `TriangleMeshGeometry` (`src/geometry/tri_mesh.rs`): a staged pipeline that
    creates a triangle geometry, allocates and fills a vertex buffer, allocates
    and fills an index buffer, and commits.  Each stage has its own check and
    its own failure text; the first check that trips ends the construction.

    On failure the partially built geometry is not released: the wrapper value
    that owns the handle is never constructed, so its `Drop` never runs. */
module TriangleMesh {
  import opened Outcomes
  import opened Backend
  import opened DeviceErrors
  import opened Triples

  /** `3 * size_of::<f32>()`: one vertex is three 4-byte floats. */
  const VertexByteStride: nat := 3 * 4

  /** `3 * size_of::<u32>()`: one triangle is three 4-byte indices. */
  const IndexByteStride: nat := 3 * 4

  /** The wrapper value; it owns the geometry handle. */
  datatype TriangleMeshGeometry = TriangleMeshGeometry(handle: Ptr)
  {
    /** `Geometry::geometry`. */
    function Geometry(): Ptr
    {
      handle
    }
  }

  /** The oracle's answers for one construction: rtcNewGeometry, the two
      rtcSetNewGeometryBuffer calls, and rtcCommitGeometry. */
  datatype MeshReplies = MeshReplies(newGeometry: Reply, vertexBuffer: Reply, indexBuffer: Reply,
                                     commit: RtcError)

  /** The outcome of a construction, the device afterwards, and what was
      written into each backend buffer (`None` when it was never filled). */
  datatype MeshRun<F> = MeshRun(outcome: Outcome<TriangleMeshGeometry>, device: DeviceState,
                                vertexData: Option<seq<F>>, indexData: Option<seq<u32>>)

  /** The six checks of the pipeline, in the order they run. */
  datatype Check = CreateNull | VertexNull | VertexError | IndexNull | IndexError | CommitError

  /** The message each check reports, spelled as the source spells it. */
  function Message(c: Check): string
  {
    match c
    case CreateNull => "Failed to create geometry"
    case VertexNull => "Failed to create triangle mesh vertex buffer"
    case VertexError => "Failed not create triangle mesh vertex buffer"
    case IndexNull => "Failed to create triangle mesh index buffer"
    case IndexError => "Failed to create triangle mesh index buffer"
    case CommitError => "Failed to commit triangle mesh geometry"
  }

  /** Null checks render the slot as an `Option`; error-slot checks render the
      code itself. */
  predicate IsNullCheck(c: Check)
  {
    c == CreateNull || c == VertexNull || c == IndexNull
  }

  /** The slot read as `device.error()` returns it. */
  function AsOption(code: RtcError): Option<RtcError>
  {
    if code == ErrorNone then None else Some(code)
  }

  /** How check `c` renders the code it read. */
  function Detail(c: Check, code: RtcError): string
  {
    if IsNullCheck(c) then DebugOption(AsOption(code)) else Name(code)
  }

  /** The full error text of check `c` having read `code` from the slot. */
  function FailureText(c: Check, code: RtcError): string
  {
    Message(c) + ": " + Detail(c, code)
  }

  /** Reference for the decision: the first check that trips, from the replies
      alone.  An error raised by a non-null rtcNewGeometry is not read there and
      surfaces at the vertex-buffer check. */
  function FirstFailedCheck(pending: RtcError, replies: MeshReplies): Option<Check>
  {
    var afterVertex := Raise(Raise(pending, replies.newGeometry.raised), replies.vertexBuffer.raised);
    if replies.newGeometry.ret.Null? then Some(CreateNull)
    else if replies.vertexBuffer.ret.Null? then Some(VertexNull)
    else if afterVertex != ErrorNone then Some(VertexError)
    else if replies.indexBuffer.ret.Null? then Some(IndexNull)
    else if replies.indexBuffer.raised != ErrorNone then Some(IndexError)
    else if replies.commit != ErrorNone then Some(CommitError)
    else None
  }

  /** The code in the slot when check `c` reads it. */
  function CodeRead(pending: RtcError, replies: MeshReplies, c: Check): RtcError
  {
    match c
    case CreateNull => Raise(pending, replies.newGeometry.raised)
    case VertexNull => Raise(Raise(pending, replies.newGeometry.raised), replies.vertexBuffer.raised)
    case VertexError => Raise(Raise(pending, replies.newGeometry.raised), replies.vertexBuffer.raised)
    case IndexNull => replies.indexBuffer.raised
    case IndexError => replies.indexBuffer.raised
    case CommitError => replies.commit
  }

  /** The calls of a construction that passes every check, in order. */
  function SuccessTrace(g: Ptr, vertexCount: nat, indexCount: nat): seq<Call>
  {
    [ NewGeometry(TriangleGeometry),
      BufferCall(g, VertexBuffer, vertexCount), GetDeviceError,
      BufferCall(g, IndexBuffer, indexCount), GetDeviceError,
      CommitGeometry(g), GetDeviceError ]
  }

  /** The stages of a construction, in order; each owns one or two checks. */
  datatype Stage = Creating | VertexAllocation | IndexAllocation | Committing

  function StageOf(c: Check): Stage
  {
    match c
    case CreateNull => Creating
    case VertexNull | VertexError => VertexAllocation
    case IndexNull | IndexError => IndexAllocation
    case CommitError => Committing
  }

  /** The calls of a construction that stops in stage `s`: the stages up to
      and including that one, and the one slot read the failing check makes. */
  function StageTrace(s: Stage, g: Ptr, vertexCount: nat, indexCount: nat): seq<Call>
  {
    match s
    case Creating => [NewGeometry(TriangleGeometry), GetDeviceError]
    case VertexAllocation =>
      [NewGeometry(TriangleGeometry), BufferCall(g, VertexBuffer, vertexCount), GetDeviceError]
    case IndexAllocation =>
      [ NewGeometry(TriangleGeometry), BufferCall(g, VertexBuffer, vertexCount), GetDeviceError,
        BufferCall(g, IndexBuffer, indexCount), GetDeviceError ]
    case Committing => SuccessTrace(g, vertexCount, indexCount)
  }

  /** The calls of a construction that stops at check `c`. */
  function FailureTrace(c: Check, g: Ptr, vertexCount: nat, indexCount: nat): seq<Call>
  {
    StageTrace(StageOf(c), g, vertexCount, indexCount)
  }

  /** `TriangleMeshGeometry::try_new`. */
  function TryNew<F>(d: DeviceState, vertices: seq<(F, F, F)>, indices: seq<(u32, u32, u32)>,
                     replies: MeshReplies): (r: MeshRun<F>)
    ensures r.outcome.Ok? <==> FirstFailedCheck(d.pending, replies) == None
    ensures !r.outcome.Panic?
    ensures r.outcome.Ok? ==>
              && r.outcome.value.Geometry() == replies.newGeometry.ret
              && r.vertexData == Some(Flatten(vertices))
              && r.indexData == Some(Flatten(indices))
              && r.device == DeviceState(ErrorNone, d.trace + SuccessTrace(replies.newGeometry.ret, |vertices|, |indices|))
    ensures r.vertexData.Some? ==> r.vertexData.value == Flatten(vertices)
    ensures r.indexData.Some? ==> r.indexData.value == Flatten(indices)
  {
    var geometry := replies.newGeometry.ret;
    var (created, d1) := CreateStage(d, replies.newGeometry);
    if created.Err? then MeshRun(Err(created.message), d1, None, None)
    else
      var (vertexAllocated, d2) := BufferStage(d1, geometry, VertexBuffer, |vertices|, replies.vertexBuffer);
      if vertexAllocated.Err? then MeshRun(Err(vertexAllocated.message), d2, None, None)
      else
        StagedTraces(d.trace, geometry, |vertices|, |indices|);
        IndexAndCommit(d2, geometry, Flatten(vertices), indices, replies)
  }

  /** The stages after a passing vertex stage: the index buffer, then the
      commit.  The slot is read once per stage that runs. */
  function IndexAndCommit<F>(d: DeviceState, g: Ptr, vertexData: seq<F>, indices: seq<(u32, u32, u32)>,
                             replies: MeshReplies): (r: MeshRun<F>)
    ensures r.vertexData == Some(vertexData)
    ensures r.indexData.Some? ==> r.indexData.value == Flatten(indices)
    ensures var indexCall := [BufferCall(g, IndexBuffer, |indices|), GetDeviceError];
            if replies.indexBuffer.ret.Null? || Raise(d.pending, replies.indexBuffer.raised) != ErrorNone
            then r.device.trace == d.trace + indexCall && r.indexData == None
            else r.device.trace == d.trace + indexCall + [CommitGeometry(g), GetDeviceError]
  {
    var (indexAllocated, d3) := BufferStage(d, g, IndexBuffer, |indices|, replies.indexBuffer);
    if indexAllocated.Err? then MeshRun(Err(indexAllocated.message), d3, Some(vertexData), None)
    else
      var (committed, d4) := CommitStage(d3, g, replies.commit);
      MeshRun(committed, d4, Some(vertexData), Some(Flatten(indices)))
  }

  /** The log after each stage, stage by stage and as one list. */
  lemma StagedTraces(t: seq<Call>, g: Ptr, vertexCount: nat, indexCount: nat)
    ensures t + [NewGeometry(TriangleGeometry)] + [BufferCall(g, VertexBuffer, vertexCount), GetDeviceError]
            == t + FailureTrace(VertexNull, g, vertexCount, indexCount)
    ensures t + FailureTrace(VertexNull, g, vertexCount, indexCount)
            + [BufferCall(g, IndexBuffer, indexCount), GetDeviceError]
            == t + FailureTrace(IndexNull, g, vertexCount, indexCount)
    ensures t + FailureTrace(IndexNull, g, vertexCount, indexCount) + [CommitGeometry(g), GetDeviceError]
            == t + SuccessTrace(g, vertexCount, indexCount)
  {
  }

  lemma VertexStageTrace(t: seq<Call>, g: Ptr, vertexCount: nat, indexCount: nat)
    ensures t + [NewGeometry(TriangleGeometry)] + [BufferCall(g, VertexBuffer, vertexCount), GetDeviceError]
            == t + FailureTrace(VertexNull, g, vertexCount, indexCount)
  {
  }

  /** The creation stage: rtcNewGeometry, then a null check that reads the
      slot through `device.error()`.  A non-null handle is not followed by a
      slot read, so an error it raised stays pending. */
  function CreateStage(d: DeviceState, reply: Reply): (r: (Outcome<()>, DeviceState))
    ensures reply.ret.Addr? ==> r == (Ok(()), Invoke(d, NewGeometry(TriangleGeometry), reply.raised))
    ensures reply.ret.Null? ==>
              && r.0 == Err(FailureText(CreateNull, Raise(d.pending, reply.raised)))
              && r.1 == DeviceState(ErrorNone, d.trace + [NewGeometry(TriangleGeometry), GetDeviceError])
  {
    var d1 := Invoke(d, NewGeometry(TriangleGeometry), reply.raised);
    if reply.ret.Null? then
      var (e, d2) := DeviceErrorRaw(d1);
      (Err(Message(CreateNull) + ": " + DebugOption(e)), d2)
    else
      (Ok(()), d1)
  }

  /** The layout each buffer kind is requested with. */
  function BufferCall(g: Ptr, bufferType: BufferType, count: nat): Call
  {
    match bufferType
    case VertexBuffer => SetNewGeometryBuffer(g, VertexBuffer, 0, Float3, VertexByteStride, count)
    case IndexBuffer => SetNewGeometryBuffer(g, IndexBuffer, 0, Uint3, IndexByteStride, count)
  }

  /** The null check and the error-slot check of each buffer kind. */
  function NullCheckOf(bufferType: BufferType): Check
  {
    if bufferType == VertexBuffer then VertexNull else IndexNull
  }

  function ErrorCheckOf(bufferType: BufferType): Check
  {
    if bufferType == VertexBuffer then VertexError else IndexError
  }

  /** One buffer stage: rtcSetNewGeometryBuffer for `count` items, then a null
      check that reads the slot through `device.error()`, then a
      `device_error_or` check.  Either way the slot is read exactly once. */
  function BufferStage(d: DeviceState, g: Ptr, bufferType: BufferType, count: nat, reply: Reply)
    : (r: (Outcome<()>, DeviceState))
    ensures var code := Raise(d.pending, reply.raised);
            && (r.0.Ok? <==> reply.ret.Addr? && code == ErrorNone)
            && (reply.ret.Null? ==> r.0 == Err(FailureText(NullCheckOf(bufferType), code)))
            && (reply.ret.Addr? && code != ErrorNone ==> r.0 == Err(FailureText(ErrorCheckOf(bufferType), code)))
    ensures r.1 == DeviceState(ErrorNone, d.trace + [BufferCall(g, bufferType, count), GetDeviceError])
  {
    var d1 := Invoke(d, BufferCall(g, bufferType, count), reply.raised);
    if reply.ret.Null? then
      var (e, d2) := DeviceErrorRaw(d1);
      (Err(Message(NullCheckOf(bufferType)) + ": " + DebugOption(e)), d2)
    else
      DeviceErrorOr(d1, (), Message(ErrorCheckOf(bufferType)))
  }

  /** The commit stage: rtcCommitGeometry, then a `device_error_or` check whose
      success value wraps the created handle. */
  function CommitStage(d: DeviceState, g: Ptr, raised: RtcError): (r: (Outcome<TriangleMeshGeometry>, DeviceState))
    ensures var code := Raise(d.pending, raised);
            && (code == ErrorNone ==> r.0 == Ok(TriangleMeshGeometry(g)))
            && (code != ErrorNone ==> r.0 == Err(FailureText(CommitError, code)))
    ensures r.1 == DeviceState(ErrorNone, d.trace + [CommitGeometry(g), GetDeviceError])
  {
    var d1 := Invoke(d, CommitGeometry(g), raised);
    DeviceErrorOr(d1, TriangleMeshGeometry(g), Message(CommitError))
  }

  /** `Drop for TriangleMeshGeometry`: one rtcReleaseGeometry of the owned handle. */
  function Drop(d: DeviceState, g: TriangleMeshGeometry, raised: RtcError): (d': DeviceState)
    ensures d'.trace == d.trace + [ReleaseGeometry(g.Geometry())]
  {
    Invoke(d, ReleaseGeometry(g.handle), raised)
  }

  /** A failed construction reports the first check that tripped, with the
      code that check read. */
  lemma FailureReported<F>(d: DeviceState, vertices: seq<(F, F, F)>, indices: seq<(u32, u32, u32)>,
                           replies: MeshReplies)
    requires FirstFailedCheck(d.pending, replies).Some?
    ensures var failed := FirstFailedCheck(d.pending, replies).value;
            TryNew(d, vertices, indices, replies).outcome == Err(FailureText(failed, CodeRead(d.pending, replies, failed)))
  {
    var g := replies.newGeometry.ret;
    var (created, d1) := CreateStage(d, replies.newGeometry);
    if g.Addr? {
      assert d1.pending == Raise(d.pending, replies.newGeometry.raised);
      var (vertexAllocated, d2) := BufferStage(d1, g, VertexBuffer, |vertices|, replies.vertexBuffer);
      if vertexAllocated.Ok? {
        var (indexAllocated, d3) := BufferStage(d2, g, IndexBuffer, |indices|, replies.indexBuffer);
      }
    }
  }

  /** A failed construction has filled the buffers of the stages that passed,
      and no other. */
  lemma FailureFilled<F>(d: DeviceState, vertices: seq<(F, F, F)>, indices: seq<(u32, u32, u32)>,
                         replies: MeshReplies)
    requires FirstFailedCheck(d.pending, replies).Some?
    ensures var r := TryNew(d, vertices, indices, replies);
            var failed := FirstFailedCheck(d.pending, replies).value;
            && (r.vertexData.Some? <==> failed in {IndexNull, IndexError, CommitError})
            && (r.indexData.Some? <==> failed == CommitError)
  {
    var g := replies.newGeometry.ret;
    var (created, d1) := CreateStage(d, replies.newGeometry);
    if g.Addr? {
      assert d1.pending == Raise(d.pending, replies.newGeometry.raised);
      var (vertexAllocated, d2) := BufferStage(d1, g, VertexBuffer, |vertices|, replies.vertexBuffer);
      if vertexAllocated.Ok? {
        var (indexAllocated, d3) := BufferStage(d2, g, IndexBuffer, |indices|, replies.indexBuffer);
      }
    }
  }

  /** A construction stops at its first failing check: no later stage's call
      is made and the slot is read once for the failing check. */
  lemma FailureStopsEarly<F>(d: DeviceState, vertices: seq<(F, F, F)>, indices: seq<(u32, u32, u32)>,
                             replies: MeshReplies)
    requires FirstFailedCheck(d.pending, replies).Some?
    ensures var r := TryNew(d, vertices, indices, replies);
            var failed := FirstFailedCheck(d.pending, replies).value;
            r.device.trace == d.trace + FailureTrace(failed, replies.newGeometry.ret, |vertices|, |indices|)
  {
    var r := TryNew(d, vertices, indices, replies);
    var failed := FirstFailedCheck(d.pending, replies).value;
    var g := replies.newGeometry.ret;
    var nv, ni := |vertices|, |indices|;
    var (_, d1) := CreateStage(d, replies.newGeometry);
    StagedTraces(d.trace, g, nv, ni);
    if g.Null? {
      assert failed == CreateNull;
      assert r.device == d1;
    } else {
      var (vertexAllocated, d2) := BufferStage(d1, g, VertexBuffer, nv, replies.vertexBuffer);
      if vertexAllocated.Err? {
        assert StageOf(failed) == VertexAllocation;
        assert r.device == d2;
      } else {
        LateFailureStops(d, vertices, indices, replies);
      }
    }
  }

  /** The part of `FailureStopsEarly` after a passing vertex stage. */
  lemma LateFailureStops<F>(d: DeviceState, vertices: seq<(F, F, F)>, indices: seq<(u32, u32, u32)>,
                            replies: MeshReplies)
    requires FirstFailedCheck(d.pending, replies).Some?
    requires replies.newGeometry.ret.Addr?
    requires var d1 := CreateStage(d, replies.newGeometry).1;
             BufferStage(d1, replies.newGeometry.ret, VertexBuffer, |vertices|, replies.vertexBuffer).0.Ok?
    ensures var r := TryNew(d, vertices, indices, replies);
            var failed := FirstFailedCheck(d.pending, replies).value;
            r.device.trace == d.trace + FailureTrace(failed, replies.newGeometry.ret, |vertices|, |indices|)
  {
    var g := replies.newGeometry.ret;
    var nv, ni := |vertices|, |indices|;
    AfterVertexStage(d, vertices, indices, replies);
    LateFailureStage(d, nv, replies);
    LateStageTrace(d.trace, g, nv, Flatten(vertices), indices, replies, FirstFailedCheck(d.pending, replies).value);
  }

  /** After a passing vertex stage the construction is the index and commit
      stages from a clean slot. */
  lemma AfterVertexStage<F>(d: DeviceState, vertices: seq<(F, F, F)>, indices: seq<(u32, u32, u32)>,
                            replies: MeshReplies)
    requires replies.newGeometry.ret.Addr?
    requires var d1 := CreateStage(d, replies.newGeometry).1;
             BufferStage(d1, replies.newGeometry.ret, VertexBuffer, |vertices|, replies.vertexBuffer).0.Ok?
    ensures var g := replies.newGeometry.ret;
            var d2 := DeviceState(ErrorNone, d.trace + FailureTrace(VertexNull, g, |vertices|, |indices|));
            TryNew(d, vertices, indices, replies) == IndexAndCommit(d2, g, Flatten(vertices), indices, replies)
  {
    var r := TryNew(d, vertices, indices, replies);
    var g := replies.newGeometry.ret;
    VertexStageTrace(d.trace, g, |vertices|, |indices|);
    var d1 := CreateStage(d, replies.newGeometry).1;
    var d2 := BufferStage(d1, g, VertexBuffer, |vertices|, replies.vertexBuffer).1;
    assert d2 == DeviceState(ErrorNone, d.trace + FailureTrace(VertexNull, g, |vertices|, |indices|));
    assert r == IndexAndCommit(d2, g, Flatten(vertices), indices, replies);
  }

  /** After a passing vertex stage, the first failure lies in the index or
      the commit stage. */
  lemma LateFailureStage(d: DeviceState, vertexCount: nat, replies: MeshReplies)
    requires FirstFailedCheck(d.pending, replies).Some?
    requires replies.newGeometry.ret.Addr?
    requires var d1 := CreateStage(d, replies.newGeometry).1;
             BufferStage(d1, replies.newGeometry.ret, VertexBuffer, vertexCount, replies.vertexBuffer).0.Ok?
    ensures StageOf(FirstFailedCheck(d.pending, replies).value)
            == if replies.indexBuffer.ret.Null? || replies.indexBuffer.raised != ErrorNone
               then IndexAllocation else Committing
  {
    var d1 := CreateStage(d, replies.newGeometry).1;
    assert d1.pending == Raise(d.pending, replies.newGeometry.raised);
  }

  /** The index and commit stages, run after the vertex stage's calls, stop
      in the stage of the check that fails. */
  lemma LateStageTrace<F>(t: seq<Call>, g: Ptr, vertexCount: nat, vertexData: seq<F>, indices: seq<(u32, u32, u32)>,
                          replies: MeshReplies, failed: Check)
    requires StageOf(failed)
             == if replies.indexBuffer.ret.Null? || replies.indexBuffer.raised != ErrorNone
                then IndexAllocation else Committing
    ensures var d2 := DeviceState(ErrorNone, t + FailureTrace(VertexNull, g, vertexCount, |indices|));
            IndexAndCommit(d2, g, vertexData, indices, replies).device.trace
            == t + FailureTrace(failed, g, vertexCount, |indices|)
  {
    StagedTraces(t, g, vertexCount, |indices|);
  }

  /** The failure text tells which check failed and which code it read: two
      failures that differ in either give different texts.  The two index-buffer
      checks share a message and are told apart by their rendering of the code
      (`None`/`Some(..)` against a bare `RTC_ERROR_..`). */
  lemma FailureTextsDistinct(c1: Check, e1: RtcError, c2: Check, e2: RtcError)
    requires c1 != c2 || e1 != e2
    ensures FailureText(c1, e1) != FailureText(c2, e2)
  {
    if Marks(c1) == Marks(c2) {
      DetailsDiffer(c1, e1, c2, e2);
      SameMarksSameMessage(c1, c2);
      SamePrefixDistinct(Message(c1), Detail(c1, e1), Detail(c2, e2));
    } else {
      MessagesDiffer(c1, c2, Detail(c1, e1), Detail(c2, e2));
    }
  }

  /** Two checks that share a message (the two index-buffer checks) render
      the code differently; one check renders distinct codes distinctly. */
  lemma DetailsDiffer(c1: Check, e1: RtcError, c2: Check, e2: RtcError)
    requires c1 != c2 || e1 != e2
    requires Marks(c1) == Marks(c2)
    ensures Detail(c1, e1) != Detail(c2, e2)
  {
    if c1 == c2 {
      DetailInjective(c1, e1, e2);
    } else {
      assert IsNullCheck(c1) != IsNullCheck(c2);
      if IsNullCheck(c1) {
        OptionNotBare(AsOption(e1), e2);
      } else {
        OptionNotBare(AsOption(e2), e1);
      }
    }
  }

  /** An `Option` rendering never equals a bare code's rendering. */
  lemma OptionNotBare(o: Option<RtcError>, e: RtcError)
    ensures DebugOption(o) != Name(e)
  {
    DebugOptionFirstChar(o);
    NamePrefix(e);
    assert Name(e)[0] == 'R';
  }

  /** Only the two index-buffer checks share their marks, and they share
      their message too. */
  lemma SameMarksSameMessage(c1: Check, c2: Check)
    requires Marks(c1) == Marks(c2)
    ensures Message(c1) == Message(c2)
  {
    if c1 != c2 {
      assert c1 in {IndexNull, IndexError} && c2 in {IndexNull, IndexError};
    }
  }

  lemma SamePrefixDistinct(m: string, t1: string, t2: string)
    requires t1 != t2
    ensures m + ": " + t1 != m + ": " + t2
  {
    assert (m + ": " + t1)[|m| + 2..] == t1;
    assert (m + ": " + t2)[|m| + 2..] == t2;
  }

  /** Messages with different marks differ in some character, whatever follows. */
  lemma MessagesDiffer(c1: Check, c2: Check, s1: string, s2: string)
    requires Marks(c1) != Marks(c2)
    ensures Message(c1) + ": " + s1 != Message(c2) + ": " + s2
  {
    MessageMarks(c1);
    MessageMarks(c2);
    DiffersAtMarks(Message(c1), s1, Message(c2), s2);
  }

  lemma DiffersAtMarks(m1: string, s1: string, m2: string, s2: string)
    requires |m1| >= 25 && |m2| >= 25
    requires || m1[7] != m2[7] || m1[11] != m2[11] || m1[17] != m2[17]
             || (|m1| > 31 && |m2| > 31 && m1[31] != m2[31])
    ensures m1 + ": " + s1 != m2 + ": " + s2
  {
    if m1[7] != m2[7] {
      DiffersAt(m1, s1, m2, s2, 7);
    } else if m1[11] != m2[11] {
      DiffersAt(m1, s1, m2, s2, 11);
    } else if m1[17] != m2[17] {
      DiffersAt(m1, s1, m2, s2, 17);
    } else {
      DiffersAt(m1, s1, m2, s2, 31);
    }
  }

  /** The characters at which the messages part ways. */
  function Marks(c: Check): (char, char, char, char)
  {
    match c
    case CreateNull => ('t', 'r', 'g', ' ')
    case VertexNull => ('t', 'r', 't', 'v')
    case VertexError => ('n', 'c', ' ', ' ')
    case IndexNull => ('t', 'r', 't', 'i')
    case IndexError => ('t', 'r', 't', 'i')
    case CommitError => ('t', 'o', 't', 'g')
  }

  /** Where each message carries its marks; the create-geometry message is
      the only one too short for the fourth. */
  lemma MessageMarks(c: Check)
    ensures |Message(c)| >= 25
    ensures Message(c)[7] == Marks(c).0
    ensures Message(c)[11] == Marks(c).1
    ensures Message(c)[17] == Marks(c).2
    ensures |Message(c)| > 31 ==> Message(c)[31] == Marks(c).3
    ensures |Message(c)| <= 31 ==> c == CreateNull
  {
    match c
    case CreateNull => CreateNullMarks();
    case VertexNull => VertexNullMarks();
    case VertexError => VertexErrorMarks();
    case IndexNull => IndexMarks();
    case IndexError => IndexMarks();
    case CommitError => CommitErrorMarks();
  }

  lemma CreateNullMarks()
    ensures var m := Message(CreateNull);
            |m| == 25 && m[7] == 't' && m[11] == 'r' && m[17] == 'g'
  {
  }

  lemma VertexNullMarks()
    ensures var m := Message(VertexNull);
            |m| > 31 && m[7] == 't' && m[11] == 'r' && m[17] == 't' && m[31] == 'v'
  {
  }

  lemma VertexErrorMarks()
    ensures var m := Message(VertexError);
            |m| > 31 && m[7] == 'n' && m[11] == 'c'
  {
  }

  lemma IndexMarks()
    ensures var m := Message(IndexNull);
            && Message(IndexError) == m
            && |m| > 31 && m[7] == 't' && m[11] == 'r' && m[17] == 't' && m[31] == 'i'
  {
  }

  lemma CommitErrorMarks()
    ensures var m := Message(CommitError);
            |m| > 31 && m[7] == 't' && m[11] == 'o' && m[17] == 't' && m[31] == 'g'
  {
  }

  /** A check renders distinct codes distinctly. */
  lemma DetailInjective(c: Check, e1: RtcError, e2: RtcError)
    requires e1 != e2
    ensures Detail(c, e1) != Detail(c, e2)
  {
    NameRoundTrip(e1);
    NameRoundTrip(e2);
    if IsNullCheck(c) {
      var o1, o2 := DebugOption(AsOption(e1)), DebugOption(AsOption(e2));
      if e1 != ErrorNone && e2 != ErrorNone {
        assert o1[5..|o1| - 1] == Name(e1);
        assert o2[5..|o2| - 1] == Name(e2);
      } else {
        assert o1[0] != o2[0];
      }
    }
  }

  lemma DiffersAt(p1: string, s1: string, p2: string, s2: string, k: nat)
    requires k < |p1| && k < |p2| && p1[k] != p2[k]
    ensures p1 + ": " + s1 != p2 + ": " + s2
  {
    assert (p1 + ": " + s1)[k] == p1[k];
    assert (p2 + ": " + s2)[k] == p2[k];
  }

  /** What every call of a construction satisfies: a buffer request carries
      the fixed layout and the input's item count, and nothing is released. */
  predicate ConstructionCall(c: Call, g: Ptr, vertexCount: nat, indexCount: nat)
  {
    && (c.SetNewGeometryBuffer? ==>
          && c.geometry == g
          && c.slot == 0
          && c.byteStride == 3 * 4
          && (c.bufferType == VertexBuffer ==> c.format == Float3 && c.itemCount == vertexCount)
          && (c.bufferType == IndexBuffer ==> c.format == Uint3 && c.itemCount == indexCount))
    && !c.ReleaseGeometry?
    && !c.ReleaseScene?
  }

  /** The calls one construction makes, whatever its outcome.  Every buffer
      is requested in slot 0 with a 3-element stride (12 bytes) and one item
      per input triple, floats for vertices and unsigned integers for
      indices, and no call releases anything. */
  function ConstructionCalls<F>(d: DeviceState, vertices: seq<(F, F, F)>, indices: seq<(u32, u32, u32)>,
                                replies: MeshReplies): (s: seq<Call>)
    ensures TryNew(d, vertices, indices, replies).device.trace == d.trace + s
    ensures forall i :: 0 <= i < |s| ==> ConstructionCall(s[i], replies.newGeometry.ret, |vertices|, |indices|)
  {
    var failed := FirstFailedCheck(d.pending, replies);
    var g := replies.newGeometry.ret;
    TracesConform(g, |vertices|, |indices|);
    if failed.Some? then
      FailureStopsEarly(d, vertices, indices, replies);
      FailureTrace(failed.value, g, |vertices|, |indices|)
    else SuccessTrace(g, |vertices|, |indices|)
  }

  lemma TracesConform(g: Ptr, vertexCount: nat, indexCount: nat)
    ensures forall c: Check, i :: 0 <= i < |FailureTrace(c, g, vertexCount, indexCount)| ==>
              ConstructionCall(FailureTrace(c, g, vertexCount, indexCount)[i], g, vertexCount, indexCount)
    ensures forall i :: 0 <= i < |SuccessTrace(g, vertexCount, indexCount)| ==>
              ConstructionCall(SuccessTrace(g, vertexCount, indexCount)[i], g, vertexCount, indexCount)
  {
  }

  /** Construction never releases anything, on success or on failure: after a
      failure the created handle is leaked, and after a success only `Drop`
      releases it, exactly once. */
  lemma ReleasedOnlyByDrop<F>(d: DeviceState, vertices: seq<(F, F, F)>, indices: seq<(u32, u32, u32)>,
                              replies: MeshReplies, dropRaised: RtcError)
    ensures var r := TryNew(d, vertices, indices, replies);
            && |d.trace| <= |r.device.trace|
            && ReleasesNothing(r.device.trace[|d.trace|..])
            && (r.outcome.Ok? ==>
                  multiset(Drop(r.device, r.outcome.value, dropRaised).trace[|d.trace|..])
                    [ReleaseGeometry(replies.newGeometry.ret)] == 1)
  {
    var r := TryNew(d, vertices, indices, replies);
    var s := ConstructionCalls(d, vertices, indices, replies);
    assert forall i :: 0 <= i < |s| ==> ConstructionCall(s[i], replies.newGeometry.ret, |vertices|, |indices|);
    assert r.device.trace[|d.trace|..] == s;
    if r.outcome.Ok? {
      var release := ReleaseGeometry(replies.newGeometry.ret);
      var after := Drop(r.device, r.outcome.value, dropRaised);
      assert after.trace[|d.trace|..] == s + [release];
      assert release !in s;
      assert multiset(s + [release]) == multiset(s) + multiset{release};
    }
  }

  /** Index values are copied verbatim and never compared with the vertex
      count: two index lists of the same length, in range or not, lead to the
      same outcome and the same calls. */
  lemma IndexValuesUnchecked<F>(d: DeviceState, vertices: seq<(F, F, F)>,
                                indices1: seq<(u32, u32, u32)>, indices2: seq<(u32, u32, u32)>,
                                replies: MeshReplies)
    requires |indices1| == |indices2|
    ensures TryNew(d, vertices, indices1, replies).outcome == TryNew(d, vertices, indices2, replies).outcome
    ensures TryNew(d, vertices, indices1, replies).device == TryNew(d, vertices, indices2, replies).device
  {
  }
}
