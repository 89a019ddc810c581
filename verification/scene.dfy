/** `Scene` (`src/scene.rs`): creates a scene, then applies the build quality
    and the flags a caller asked for, each only when it differs from its
    default, quality first.  A failed quality setting is an error, a failed
    flags setting a panic; in both cases the scene already exists and its
    `Drop` releases it once. */
module Scenes {
  import opened Outcomes
  import opened Backend
  import opened DeviceErrors

  /** `SceneBuildQuality`; `Medium` is the `#[default]` variant. */
  datatype SceneBuildQuality = Low | Medium | High

  const DefaultBuildQuality: SceneBuildQuality := Medium

  /** `SceneFlags`, a `#[repr(u32)]` enum; `None` is the `#[default]` variant. */
  datatype SceneFlags = None | Dynamic | Compact | Robust | FilterFunction

  const DefaultFlags: SceneFlags := SceneFlags.None

  /** The declared discriminant of a flags variant. */
  function Discriminant(f: SceneFlags): (n: u32)
    ensures n == 0 <==> f == SceneFlags.None
  {
    match f
    case None => 0
    case Dynamic => 1
    case Compact => 2
    case Robust => 4
    case FilterFunction => 8
  }

  /** `SceneOptions`; its derived default takes each field's default. */
  datatype SceneOptions = SceneOptions(buildQuality: SceneBuildQuality, flags: SceneFlags)

  const DefaultOptions: SceneOptions := SceneOptions(DefaultBuildQuality, DefaultFlags)

  /** `SceneBuildQuality::to_sys_enum`. */
  function ToSysEnum(q: SceneBuildQuality): (r: RtcBuildQuality)
    ensures r != BuildQualityRefit
    ensures FromSysEnum(r) == Some(q)
  {
    match q
    case Low => BuildQualityLow
    case Medium => BuildQualityMedium
    case High => BuildQualityHigh
  }

  /** The wrapper's variant for a backend build quality, if it has one. */
  function FromSysEnum(r: RtcBuildQuality): Option<SceneBuildQuality>
  {
    match r
    case BuildQualityLow => Some(Low)
    case BuildQualityMedium => Some(Medium)
    case BuildQualityHigh => Some(High)
    case BuildQualityRefit => Option.None
  }

  /** Distinct variants map to distinct backend values. */
  lemma ToSysEnumInjective(a: SceneBuildQuality, b: SceneBuildQuality)
    requires ToSysEnum(a) == ToSysEnum(b)
    ensures a == b
  {
    assert FromSysEnum(ToSysEnum(a)) == Some(a);
    assert FromSysEnum(ToSysEnum(b)) == Some(b);
  }

  /** The backend values `to_sys_enum` produces are exactly those `FromSysEnum`
      reads back. */
  lemma FromSysEnumRoundTrip(r: RtcBuildQuality)
    ensures FromSysEnum(r).Some? ==> ToSysEnum(FromSysEnum(r).value) == r
  {
  }

  /** The wrapper value; it owns the scene handle. */
  datatype Scene = Scene(handle: Ptr)

  const CreateMessage: string := "Failed to create scene"
  const BuildQualityMessage: string := "Failed to set scene build quality"
  const FlagsMessage: string := "Failed to set scene flags"

  /** `Scene::set_build_quality`: one rtcSetSceneBuildQuality with the mapped
      quality, then one read of the slot; a code other than NONE is an error
      naming that code. */
  function SetBuildQuality(d: DeviceState, s: Scene, q: SceneBuildQuality, raised: RtcError)
    : (r: (Outcome<()>, DeviceState))
    ensures r.0 == Ok(()) <==> Raise(d.pending, raised) == ErrorNone
    ensures r.0.Err? <==> Raise(d.pending, raised) != ErrorNone
    ensures r.0.Err? ==> r.0.message == ErrorText(BuildQualityMessage, Raise(d.pending, raised))
    ensures r.1 == DeviceState(ErrorNone, d.trace + [SetSceneBuildQuality(s.handle, ToSysEnum(q)), GetDeviceError])
  {
    var (err, d') := ReadError(Invoke(d, SetSceneBuildQuality(s.handle, ToSysEnum(q)), raised));
    if err != ErrorNone then
      (Err(ErrorText(BuildQualityMessage, err)), d')
    else (Ok(()), d')
  }

  /** `Scene::set_flags`: one rtcSetSceneFlags, then one read of the slot; a
      code other than NONE panics with a message naming that code, so the
      call never returns an error.  The flags value passed to the backend is
      not modelled. */
  function SetFlags(d: DeviceState, s: Scene, flags: SceneFlags, raised: RtcError)
    : (r: (Outcome<()>, DeviceState))
    ensures r.0 == Ok(()) <==> Raise(d.pending, raised) == ErrorNone
    ensures r.0.Panic? <==> Raise(d.pending, raised) != ErrorNone
    ensures !r.0.Err?
    ensures r.0.Panic? ==> r.0.message == ErrorText(FlagsMessage, Raise(d.pending, raised))
    ensures r.1 == DeviceState(ErrorNone, d.trace + [SetSceneFlags(s.handle), GetDeviceError])
  {
    var (err, d') := ReadError(Invoke(d, SetSceneFlags(s.handle), raised));
    if err != ErrorNone then
      (Panic(ErrorText(FlagsMessage, err)), d')
    else (Ok(()), d')
  }

  /** `Drop for Scene`: one rtcReleaseScene of the owned handle. */
  function Drop(d: DeviceState, s: Scene, raised: RtcError): (d': DeviceState)
    ensures d'.trace == d.trace + [ReleaseScene(s.handle)]
  {
    Invoke(d, ReleaseScene(s.handle), raised)
  }

  /** The oracle's answers: rtcNewScene's handle and error, the errors the two
      setters raise, and the error the release raises. */
  datatype SceneReplies = SceneReplies(newScene: Reply, buildQuality: RtcError, flags: RtcError, release: RtcError)

  /** The outcome of `try_new` and the device afterwards. */
  datatype SceneRun = SceneRun(outcome: Outcome<Scene>, device: DeviceState)

  predicate QualityApplied(o: SceneOptions)
  {
    o.buildQuality != DefaultBuildQuality
  }

  predicate FlagsApplied(o: SceneOptions)
  {
    o.flags != DefaultFlags
  }

  /** The slot after rtcNewScene. */
  function CreatedPending(d: DeviceState, replies: SceneReplies): RtcError
  {
    Raise(d.pending, replies.newScene.raised)
  }

  /** The code the build-quality check reads. */
  function QualityCode(d: DeviceState, replies: SceneReplies): RtcError
  {
    Raise(CreatedPending(d, replies), replies.buildQuality)
  }

  /** The code the flags check reads: after a passing quality check the slot
      was cleared, otherwise it still holds what rtcNewScene left. */
  function FlagsCode(d: DeviceState, o: SceneOptions, replies: SceneReplies): RtcError
  {
    if QualityApplied(o) then replies.flags else Raise(CreatedPending(d, replies), replies.flags)
  }

  /** The setter calls a successful `try_new` makes, in order. */
  function SetterCalls(h: Ptr, o: SceneOptions): seq<Call>
  {
    (if QualityApplied(o) then [SetSceneBuildQuality(h, ToSysEnum(o.buildQuality)), GetDeviceError] else [])
    + (if FlagsApplied(o) then [SetSceneFlags(h), GetDeviceError] else [])
  }

  /** An error or panic from a setter, carried out of `try_new`. */
  function Escalate(o: Outcome<()>): (r: Outcome<Scene>)
    requires !o.Ok?
    ensures r.Err? == o.Err? && r.Panic? == o.Panic?
    ensures r.message == o.message
  {
    if o.Err? then Err(o.message) else Panic(o.message)
  }

  /** `Scene::try_new`. */
  function TryNew(d: DeviceState, o: SceneOptions, replies: SceneReplies): (r: SceneRun)
    ensures var h := replies.newScene.ret;
            && (r.outcome.Ok? <==>
                  && h != Null
                  && (QualityApplied(o) ==> QualityCode(d, replies) == ErrorNone)
                  && (FlagsApplied(o) ==> FlagsCode(d, o, replies) == ErrorNone))
            && (r.outcome.Err? <==>
                  h == Null || (QualityApplied(o) && QualityCode(d, replies) != ErrorNone))
            && (r.outcome.Ok? ==> r.outcome.value.handle == h)
  {
    var h := replies.newScene.ret;
    var d1 := Invoke(d, NewScene, replies.newScene.raised);
    if h.Null? then
      var (err, d2) := ReadError(d1);
      SceneRun(Err(ErrorText(CreateMessage, err)), d2)
    else
      var scene := Scene(h);
      var (quality, d2) :=
        if QualityApplied(o) then SetBuildQuality(d1, scene, o.buildQuality, replies.buildQuality)
        else (Ok(()), d1);
      if !quality.Ok? then
        SceneRun(Escalate(quality), Drop(d2, scene, replies.release))
      else
        var (flags, d3) :=
          if FlagsApplied(o) then SetFlags(d2, scene, o.flags, replies.flags)
          else (Ok(()), d2);
        if !flags.Ok? then
          SceneRun(Escalate(flags), Drop(d3, scene, replies.release))
        else
          SceneRun(Ok(scene), d3)
  }

  /** A null handle is reported at once with the code read from the slot,
      even when that code is NONE; no option is applied and nothing is
      released, since no `Scene` value exists yet. */
  lemma NullSceneFails(d: DeviceState, o: SceneOptions, replies: SceneReplies)
    requires replies.newScene.ret == Null
    ensures var r := TryNew(d, o, replies);
            && r.outcome == Err(ErrorText(CreateMessage, CreatedPending(d, replies)))
            && r.device == DeviceState(ErrorNone, d.trace + [NewScene, GetDeviceError])
  {
  }

  /** Default options apply nothing: a non-null scene is returned right after
      rtcNewScene, with whatever that call left in the slot. */
  lemma DefaultOptionsCreateOnly(d: DeviceState, replies: SceneReplies)
    requires replies.newScene.ret != Null
    ensures DefaultOptions == SceneOptions(Medium, SceneFlags.None)
    ensures TryNew(d, DefaultOptions, replies)
            == SceneRun(Ok(Scene(replies.newScene.ret)), DeviceState(CreatedPending(d, replies), d.trace + [NewScene]))
  {
  }

  /** A successful `try_new` makes rtcNewScene, then exactly the setters whose
      option differs from its default, quality before flags; the slot is clean
      if any setter ran. */
  lemma SuccessCalls(d: DeviceState, o: SceneOptions, replies: SceneReplies)
    requires TryNew(d, o, replies).outcome.Ok?
    ensures var r := TryNew(d, o, replies);
            var h := replies.newScene.ret;
            && r.device.trace == d.trace + [NewScene] + SetterCalls(h, o)
            && r.device.pending == (if SetterCalls(h, o) == [] then CreatedPending(d, replies) else ErrorNone)
  {
    var h := replies.newScene.ret;
    if QualityApplied(o) && FlagsApplied(o) {
      assert d.trace + [NewScene] + SetterCalls(h, o)
          == d.trace + [NewScene] + [SetSceneBuildQuality(h, ToSysEnum(o.buildQuality)), GetDeviceError]
             + [SetSceneFlags(h), GetDeviceError];
    }
  }

  /** A failed quality setting is an error naming the code; flags are never
      touched and the scene is released once. */
  lemma QualityFailure(d: DeviceState, o: SceneOptions, replies: SceneReplies)
    requires replies.newScene.ret != Null
    requires QualityApplied(o) && QualityCode(d, replies) != ErrorNone
    ensures var r := TryNew(d, o, replies);
            var h := replies.newScene.ret;
            && r.outcome == Err(ErrorText(BuildQualityMessage, QualityCode(d, replies)))
            && r.device.trace == d.trace + [NewScene, SetSceneBuildQuality(h, ToSysEnum(o.buildQuality)),
                                            GetDeviceError, ReleaseScene(h)]
  {
  }

  /** A failed flags setting panics with a message naming the code, after the
      quality setting if there was one; unwinding releases the scene once. */
  lemma FlagsFailure(d: DeviceState, o: SceneOptions, replies: SceneReplies)
    requires replies.newScene.ret != Null
    requires QualityApplied(o) ==> QualityCode(d, replies) == ErrorNone
    requires FlagsApplied(o) && FlagsCode(d, o, replies) != ErrorNone
    ensures var r := TryNew(d, o, replies);
            var h := replies.newScene.ret;
            && r.outcome == Panic(ErrorText(FlagsMessage, FlagsCode(d, o, replies)))
            && r.device.trace == d.trace + [NewScene] + SetterCalls(h, o) + [ReleaseScene(h)]
  {
    var h := replies.newScene.ret;
    if QualityApplied(o) {
      assert d.trace + [NewScene] + SetterCalls(h, o) + [ReleaseScene(h)]
          == d.trace + [NewScene] + [SetSceneBuildQuality(h, ToSysEnum(o.buildQuality)), GetDeviceError]
             + [SetSceneFlags(h), GetDeviceError] + [ReleaseScene(h)];
    }
  }

  /** The calls `try_new` makes on its own, in order. */
  function CreationCalls(d: DeviceState, o: SceneOptions, replies: SceneReplies): (s: seq<Call>)
    ensures TryNew(d, o, replies).device.trace == d.trace + s
  {
    var h := replies.newScene.ret;
    if h == Null then
      NullSceneFails(d, o, replies);
      [NewScene, GetDeviceError]
    else if TryNew(d, o, replies).outcome.Ok? then
      SuccessCalls(d, o, replies);
      [NewScene] + SetterCalls(h, o)
    else if QualityApplied(o) && QualityCode(d, replies) != ErrorNone then
      QualityFailure(d, o, replies);
      [NewScene, SetSceneBuildQuality(h, ToSysEnum(o.buildQuality)), GetDeviceError, ReleaseScene(h)]
    else
      FlagsFailure(d, o, replies);
      [NewScene] + SetterCalls(h, o) + [ReleaseScene(h)]
  }

  /** `try_new` releases the scene it created exactly once when it fails after
      creation, and never otherwise. */
  lemma ReleasedOnFailureOnly(d: DeviceState, o: SceneOptions, replies: SceneReplies)
    ensures var h := replies.newScene.ret;
            multiset(CreationCalls(d, o, replies))[ReleaseScene(h)]
            == (if TryNew(d, o, replies).outcome.Ok? || h == Null then 0 else 1)
  {
    var h := replies.newScene.ret;
    var s := CreationCalls(d, o, replies);
    var setters := SetterCalls(h, o);
    if h == Null {
      NotReleased([NewScene, GetDeviceError], h);
    } else if TryNew(d, o, replies).outcome.Ok? {
      SettersRelease(h, o);
      NotReleased([NewScene] + setters, h);
    } else if QualityApplied(o) && QualityCode(d, replies) != ErrorNone {
      ReleasedLast([NewScene, SetSceneBuildQuality(h, ToSysEnum(o.buildQuality)), GetDeviceError], h);
    } else {
      SettersRelease(h, o);
      ReleasedLast([NewScene] + setters, h);
    }
  }

  lemma SettersRelease(h: Ptr, o: SceneOptions)
    ensures ReleaseScene(h) !in [NewScene] + SetterCalls(h, o)
  {
  }

  lemma NotReleased(calls: seq<Call>, h: Ptr)
    requires ReleaseScene(h) !in calls
    ensures multiset(calls)[ReleaseScene(h)] == 0
  {
  }

  lemma ReleasedLast(before: seq<Call>, h: Ptr)
    requires ReleaseScene(h) !in before
    ensures multiset(before + [ReleaseScene(h)])[ReleaseScene(h)] == 1
  {
    assert multiset(before + [ReleaseScene(h)]) == multiset(before) + multiset{ReleaseScene(h)};
  }

  /** After a success, dropping the scene releases it exactly once. */
  lemma ReleasedOnceByDrop(d: DeviceState, o: SceneOptions, replies: SceneReplies, dropRaised: RtcError)
    requires TryNew(d, o, replies).outcome.Ok?
    ensures var r := TryNew(d, o, replies);
            multiset(Drop(r.device, r.outcome.value, dropRaised).trace[|d.trace|..])[ReleaseScene(r.outcome.value.handle)] == 1
  {
    var r := TryNew(d, o, replies);
    var s := CreationCalls(d, o, replies);
    var release := ReleaseScene(r.outcome.value.handle);
    ReleasedOnFailureOnly(d, o, replies);
    assert Drop(r.device, r.outcome.value, dropRaised).trace[|d.trace|..] == s + [release];
    assert multiset(s + [release]) == multiset(s) + multiset{release};
  }
}
