/** `UserGeometry` (`src/geometry/user.rs`): registers a user-defined geometry
    through seven backend calls, each followed by a `device_error_or` check.
    The first check that finds an error ends the registration with that step's
    message; the created handle is never null-checked and, on failure, never
    released. */
module UserGeometries {
  import opened Outcomes
  import opened Backend
  import opened DeviceErrors

  /** The wrapper value; it owns the geometry handle. */
  datatype UserGeometry = UserGeometry(handle: Ptr)
  {
    /** `Geometry::geometry`. */
    function Geometry(): Ptr
    {
      handle
    }
  }

  /** A backend call, the error the oracle has it raise, and the message of the
      `device_error_or` check that follows it. */
  datatype CheckedCall = CheckedCall(call: Call, raised: RtcError, message: string)

  /** The calls a run of checked calls makes: each call, then its slot read. */
  function Logged(steps: seq<CheckedCall>): (calls: seq<Call>)
    ensures |calls| == 2 * |steps|
  {
    if steps == [] then [] else [steps[0].call, GetDeviceError] + Logged(steps[1..])
  }

  /** The code check `k` reads when every earlier check passed: the first
      check also sees whatever was pending before the run, later checks see
      only their own call's error, since each passing read cleared the slot. */
  function CodeAt(pending: RtcError, steps: seq<CheckedCall>, k: nat): RtcError
    requires k < |steps|
  {
    if k == 0 then Raise(pending, steps[0].raised) else steps[k].raised
  }

  /** Every check of the run passes. */
  predicate AllPass(pending: RtcError, steps: seq<CheckedCall>)
  {
    forall k :: 0 <= k < |steps| ==> CodeAt(pending, steps, k) == ErrorNone
  }

  /** Check `k` is the first one to find an error. */
  predicate FailsFirstAt(pending: RtcError, steps: seq<CheckedCall>, k: nat)
  {
    && k < |steps|
    && CodeAt(pending, steps, k) != ErrorNone
    && forall j :: 0 <= j < k ==> CodeAt(pending, steps, j) == ErrorNone
  }

  /** The error a failed check of `step` reports, having read `code`. */
  function Failure(step: CheckedCall, code: RtcError): Outcome<()>
  {
    Err(ErrorText(step.message, code))
  }

  /** One checked call: the call, then `device_error_or` with its message. */
  function Check(d: DeviceState, step: CheckedCall): (r: (Outcome<()>, DeviceState))
    ensures r.0.Ok? <==> Raise(d.pending, step.raised) == ErrorNone
    ensures r.0.Ok? ==> r.1 == Passed(d, step)
    ensures r.0.Err? ==> r.0 == Failure(step, Raise(d.pending, step.raised))
    ensures !r.0.Panic?
    ensures r.1.trace == d.trace + [step.call, GetDeviceError]
  {
    DeviceErrorOr(Invoke(d, step.call, step.raised), (), step.message)
  }

  /** Runs the checked calls in order, stopping at the first failed check
      (the `?` after each `device_error_or`). */
  function RunChecked(d: DeviceState, steps: seq<CheckedCall>): (r: (Outcome<()>, DeviceState))
    ensures r.0.Ok? <==> AllPass(d.pending, steps)
    ensures !r.0.Panic?
    ensures r.0.Ok? ==> r.1.trace == d.trace + Logged(steps)
    ensures r.0.Ok? && |steps| > 0 ==> r.1.pending == ErrorNone
    decreases |steps|
  {
    if steps == [] then (Ok(()), d)
    else
      var checked := Check(d, steps[0]);
      if checked.0.Err? then
        assert CodeAt(d.pending, steps, 0) != ErrorNone;
        checked
      else
        ShiftCodes(d.pending, steps);
        LoggedCons(d.trace, steps);
        RunChecked(checked.1, steps[1..])
  }

  lemma LoggedCons(t: seq<Call>, steps: seq<CheckedCall>)
    requires |steps| > 0
    ensures t + [steps[0].call, GetDeviceError] + Logged(steps[1..]) == t + Logged(steps)
  {
  }

  /** A run whose check `k` is the first to fail reports step `k`'s message
      with the code it read, and makes no call after step `k`. */
  lemma RunStopsAtFirstFailure(d: DeviceState, steps: seq<CheckedCall>, k: nat)
    requires FailsFirstAt(d.pending, steps, k)
    ensures RunChecked(d, steps).0 == Failure(steps[k], CodeAt(d.pending, steps, k))
    ensures RunChecked(d, steps).1.trace == d.trace + Logged(steps[..k + 1])
  {
    FailureOutcome(d, steps, k);
    RanToFirstFailure(d.pending, steps, k);
    RunTrace(d, steps);
  }

  lemma {:induction false} FailureOutcome(d: DeviceState, steps: seq<CheckedCall>, k: nat)
    requires FailsFirstAt(d.pending, steps, k)
    ensures RunChecked(d, steps).0 == Failure(steps[k], CodeAt(d.pending, steps, k))
    decreases k
  {
    if k == 0 {
      FirstStepFails(d, steps);
    } else {
      StepDown(d, steps, k);
      FailureOutcome(Passed(d, steps[0]), steps[1..], k - 1);
    }
  }

  /** A run whose check `k` is the first to fail makes `k + 1` checked calls. */
  lemma {:induction false} RanToFirstFailure(pending: RtcError, steps: seq<CheckedCall>, k: nat)
    requires FailsFirstAt(pending, steps, k)
    ensures Ran(pending, steps) == k + 1
    decreases k
  {
    if k > 0 {
      assert CodeAt(pending, steps, 0) == ErrorNone;
      FailsFirstShift(pending, steps, k);
      RanToFirstFailure(ErrorNone, steps[1..], k - 1);
    }
  }

  /** A run whose first failure is at `k > 0` is the run of the rest, from the
      device the first check left, failing first at `k - 1` on the same step
      with the same code. */
  lemma StepDown(d: DeviceState, steps: seq<CheckedCall>, k: nat)
    requires 0 < k && FailsFirstAt(d.pending, steps, k)
    ensures RunChecked(d, steps) == RunChecked(Passed(d, steps[0]), steps[1..])
    ensures FailsFirstAt(ErrorNone, steps[1..], k - 1)
    ensures steps[1..][k - 1] == steps[k]
    ensures CodeAt(ErrorNone, steps[1..], k - 1) == CodeAt(d.pending, steps, k)
  {
    FirstStepPasses(d, steps);
    FailsFirstShift(d.pending, steps, k);
    CodeAtShift(d.pending, steps, k);
  }

  /** Check `k` of the whole run reads what check `k - 1` of the rest reads
      once the first check has passed. */
  lemma CodeAtShift(pending: RtcError, steps: seq<CheckedCall>, k: nat)
    requires 0 < k < |steps|
    ensures steps[1..][k - 1] == steps[k]
    ensures CodeAt(ErrorNone, steps[1..], k - 1) == CodeAt(pending, steps, k)
  {
  }

  /** Dropping a passing first check moves the first failure one step down. */
  lemma FailsFirstShift(pending: RtcError, steps: seq<CheckedCall>, k: nat)
    requires 0 < k && FailsFirstAt(pending, steps, k)
    ensures FailsFirstAt(ErrorNone, steps[1..], k - 1)
  {
    assert CodeAt(pending, steps, 0) == ErrorNone;
    forall j | 0 <= j < k - 1
      ensures CodeAt(ErrorNone, steps[1..], j) == ErrorNone
    {
      assert CodeAt(pending, steps, j + 1) == ErrorNone;
    }
  }

  lemma LoggedPrefixCons(steps: seq<CheckedCall>, k: nat)
    requires k < |steps|
    ensures Logged(steps[..k + 1]) == [steps[0].call, GetDeviceError] + Logged(steps[1..][..k])
  {
    assert steps[..k + 1][1..] == steps[1..][..k];
  }

  /** The device after a checked call whose check passed. */
  function Passed(d: DeviceState, step: CheckedCall): DeviceState
  {
    DeviceState(ErrorNone, d.trace + [step.call, GetDeviceError])
  }

  /** When the first check passes, the run goes on with the rest from the
      device that check left behind. */
  lemma FirstStepPasses(d: DeviceState, steps: seq<CheckedCall>)
    requires |steps| > 0 && CodeAt(d.pending, steps, 0) == ErrorNone
    ensures RunChecked(d, steps) == RunChecked(Passed(d, steps[0]), steps[1..])
  {
  }

  lemma FirstStepFails(d: DeviceState, steps: seq<CheckedCall>)
    requires FailsFirstAt(d.pending, steps, 0)
    ensures RunChecked(d, steps).0 == Failure(steps[0], CodeAt(d.pending, steps, 0))
    ensures RunChecked(d, steps).1.trace == d.trace + Logged(steps[..1])
  {
    assert steps[..1] == [steps[0]];
    assert Logged(steps[..1]) == [steps[0].call, GetDeviceError];
  }

  /** After a passing first check, the remaining checks read what they would
      have read as checks `1..` of the whole run. */
  lemma ShiftCodes(pending: RtcError, steps: seq<CheckedCall>)
    requires |steps| > 0
    ensures AllPass(pending, steps) <==> CodeAt(pending, steps, 0) == ErrorNone && AllPass(ErrorNone, steps[1..])
  {
    if CodeAt(pending, steps, 0) == ErrorNone && AllPass(ErrorNone, steps[1..]) {
      forall k | 0 < k < |steps|
        ensures CodeAt(pending, steps, k) == ErrorNone
      {
        assert CodeAt(ErrorNone, steps[1..], k - 1) == ErrorNone;
      }
    }
    if AllPass(pending, steps) {
      forall k | 0 <= k < |steps| - 1
        ensures CodeAt(ErrorNone, steps[1..], k) == ErrorNone
      {
        assert CodeAt(pending, steps, k + 1) == ErrorNone;
      }
    }
  }

  /** The seven registration steps, in the order the source runs them. */
  datatype Step = Create | PrimitiveCount | UserData | BoundsFunction | IntersectFunction | OccludedFunction | Commit

  const Steps: seq<Step> := [Create, PrimitiveCount, UserData, BoundsFunction, IntersectFunction, OccludedFunction, Commit]

  function Message(s: Step): string
  {
    match s
    case Create => "Could not create user geometry"
    case PrimitiveCount => "Could not set user geometry primitive count"
    case UserData => "Could not set user geometry data"
    case BoundsFunction => "Could not set user geometry bounds function"
    case IntersectFunction => "Could not set user geometry intersect function"
    case OccludedFunction => "Could not set user geometry occluded function"
    case Commit => "Could not commit user geometry"
  }

  /** The oracle's answers: rtcNewGeometry's handle and error, then the error
      each later call raises. */
  datatype UserReplies = UserReplies(newGeometry: Reply, primitiveCount: RtcError, userData: RtcError,
                                     boundsFunction: RtcError, intersectFunction: RtcError,
                                     occludedFunction: RtcError, commit: RtcError)

  /** The user-pointer argument: the address of the caller's `data`. */
  function DataPtr(data: nat): Ptr
  {
    Addr(data)
  }

  /** The registration as checked calls.  The primitive count is the constant 1
      and the one data pointer goes both to the user-data slot and to the
      bounds function. */
  function Registration(g: Ptr, data: nat, boundsFn: FnPtr, intersectFn: FnPtr, occludedFn: FnPtr,
                        replies: UserReplies): (steps: seq<CheckedCall>)
    ensures |steps| == |Steps|
    ensures forall k :: 0 <= k < |steps| ==> steps[k].message == Message(Steps[k])
    ensures forall k :: 0 <= k < |steps| ==> Registered(steps[k].call, g, data, boundsFn, intersectFn, occludedFn)
  {
    [ CheckedCall(NewGeometry(UserGeometryType), replies.newGeometry.raised, Message(Create)),
      CheckedCall(SetGeometryUserPrimitiveCount(g, 1), replies.primitiveCount, Message(PrimitiveCount)),
      CheckedCall(SetGeometryUserData(g, DataPtr(data)), replies.userData, Message(UserData)),
      CheckedCall(SetGeometryBoundsFunction(g, boundsFn, DataPtr(data)), replies.boundsFunction, Message(BoundsFunction)),
      CheckedCall(SetGeometryIntersectFunction(g, intersectFn), replies.intersectFunction, Message(IntersectFunction)),
      CheckedCall(SetGeometryOccludedFunction(g, occludedFn), replies.occludedFunction, Message(OccludedFunction)),
      CheckedCall(CommitGeometry(g), replies.commit, Message(Commit)) ]
  }

  /** The outcome of a registration and the device afterwards. */
  datatype UserRun = UserRun(outcome: Outcome<UserGeometry>, device: DeviceState)

  /** `UserGeometry::try_new`. */
  function TryNew(d: DeviceState, data: nat, boundsFn: FnPtr, intersectFn: FnPtr, occludedFn: FnPtr,
                  replies: UserReplies): (r: UserRun)
    ensures var steps := Registration(replies.newGeometry.ret, data, boundsFn, intersectFn, occludedFn, replies);
            && (r.outcome.Ok? <==>
                  && Raise(d.pending, replies.newGeometry.raised) == ErrorNone
                  && replies.primitiveCount == ErrorNone
                  && replies.userData == ErrorNone
                  && replies.boundsFunction == ErrorNone
                  && replies.intersectFunction == ErrorNone
                  && replies.occludedFunction == ErrorNone
                  && replies.commit == ErrorNone)
            && (r.outcome.Ok? ==>
                  && r.outcome.value.Geometry() == replies.newGeometry.ret
                  && r.device == DeviceState(ErrorNone, d.trace + Logged(steps)))
            && !r.outcome.Panic?
  {
    var g := replies.newGeometry.ret;
    var steps := Registration(g, data, boundsFn, intersectFn, occludedFn, replies);
    var (registered, d') := RunChecked(d, steps);
    RegistrationCodes(d.pending, steps);
    match registered
    case Ok(_) => UserRun(Ok(UserGeometry(g)), d')
    case Err(m) => UserRun(Err(m), d')
    case Panic(m) => UserRun(Panic(m), d')
  }

  /** Spells out, step by step, when every registration check passes. */
  lemma RegistrationCodes(pending: RtcError, steps: seq<CheckedCall>)
    requires |steps| == 7
    ensures AllPass(pending, steps) <==>
              && Raise(pending, steps[0].raised) == ErrorNone
              && steps[1].raised == ErrorNone
              && steps[2].raised == ErrorNone
              && steps[3].raised == ErrorNone
              && steps[4].raised == ErrorNone
              && steps[5].raised == ErrorNone
              && steps[6].raised == ErrorNone
  {
    assert CodeAt(pending, steps, 0) == Raise(pending, steps[0].raised);
    assert forall k :: 1 <= k < 7 ==> CodeAt(pending, steps, k) == steps[k].raised;
  }

  /** `Drop for UserGeometry`: one rtcReleaseGeometry of the owned handle. */
  function Drop(d: DeviceState, g: UserGeometry, raised: RtcError): (d': DeviceState)
    ensures d'.trace == d.trace + [ReleaseGeometry(g.Geometry())]
  {
    Invoke(d, ReleaseGeometry(g.handle), raised)
  }

  /** How many checked calls a run makes: up to and including the first
      failed check, or all of them. */
  function Ran(pending: RtcError, steps: seq<CheckedCall>): (n: nat)
    ensures n <= |steps|
    ensures |steps| > 0 ==> n > 0
    decreases |steps|
  {
    if steps == [] then 0
    else if Raise(pending, steps[0].raised) != ErrorNone then 1
    else 1 + Ran(ErrorNone, steps[1..])
  }

  /** Whatever the outcome, a run's calls are the first `Ran` checked calls,
      each followed by its slot read. */
  lemma {:induction false} RunTrace(d: DeviceState, steps: seq<CheckedCall>)
    ensures RunChecked(d, steps).1.trace == d.trace + Logged(steps[..Ran(d.pending, steps)])
    decreases |steps|
  {
    if steps == [] {
      assert steps[..0] == [];
    } else if CodeAt(d.pending, steps, 0) != ErrorNone {
      FirstStepFails(d, steps);
    } else {
      var d1 := Passed(d, steps[0]);
      FirstStepPasses(d, steps);
      RunTrace(d1, steps[1..]);
      var n := Ran(ErrorNone, steps[1..]);
      LoggedPrefixCons(steps, n);
      assert d1.trace + Logged(steps[1..][..n]) == d.trace + Logged(steps[..n + 1]);
    }
  }

  /** The calls of a shorter run are a prefix of the calls of the full run. */
  lemma {:induction false} LoggedPrefix(steps: seq<CheckedCall>, m: nat)
    requires m <= |steps|
    ensures Logged(steps[..m]) <= Logged(steps)
    decreases m
  {
    if m == 0 {
      assert steps[..0] == [];
    } else {
      LoggedPrefix(steps[1..], m - 1);
      LoggedPrefixCons(steps, m - 1);
    }
  }

  /** The outcome of a run depends only on the pending code, the raised codes
      and the messages, not on the calls' arguments. */
  lemma {:induction false} OutcomeIgnoresArguments(d1: DeviceState, steps1: seq<CheckedCall>,
                                                   d2: DeviceState, steps2: seq<CheckedCall>)
    requires d1.pending == d2.pending && |steps1| == |steps2|
    requires forall k :: 0 <= k < |steps1| ==>
               steps1[k].raised == steps2[k].raised && steps1[k].message == steps2[k].message
    ensures RunChecked(d1, steps1).0 == RunChecked(d2, steps2).0
    decreases |steps1|
  {
    if steps1 != [] {
      if CodeAt(d1.pending, steps1, 0) != ErrorNone {
        FirstStepFails(d1, steps1);
        FirstStepFails(d2, steps2);
      } else {
        FirstStepPasses(d1, steps1);
        FirstStepPasses(d2, steps2);
        OutcomeIgnoresArguments(Passed(d1, steps1[0]), steps1[1..], Passed(d2, steps2[0]), steps2[1..]);
      }
    }
  }

  /** Every call in a run's log is a slot read or one of the run's calls. */
  lemma {:induction false} LoggedMembers(steps: seq<CheckedCall>)
    ensures forall c :: c in Logged(steps) ==>
              c == GetDeviceError || exists i :: 0 <= i < |steps| && steps[i].call == c
    decreases |steps|
  {
    if steps != [] {
      LoggedMembers(steps[1..]);
      forall c | c in Logged(steps[1..]) && c != GetDeviceError
        ensures exists i :: 0 <= i < |steps| && steps[i].call == c
      {
        var i :| 0 <= i < |steps[1..]| && steps[1..][i].call == c;
        assert steps[i + 1].call == c;
      }
    }
  }

  /** The arguments `try_new` is meant to pass with call `c`. */
  predicate Registered(c: Call, g: Ptr, data: nat, boundsFn: FnPtr, intersectFn: FnPtr, occludedFn: FnPtr)
  {
    && (c.SetGeometryUserPrimitiveCount? ==> c == SetGeometryUserPrimitiveCount(g, 1))
    && (c.SetGeometryUserData? ==> c == SetGeometryUserData(g, DataPtr(data)))
    && (c.SetGeometryBoundsFunction? ==> c == SetGeometryBoundsFunction(g, boundsFn, DataPtr(data)))
    && (c.SetGeometryIntersectFunction? ==> c == SetGeometryIntersectFunction(g, intersectFn))
    && (c.SetGeometryOccludedFunction? ==> c == SetGeometryOccludedFunction(g, occludedFn))
    && (c.CommitGeometry? ==> c == CommitGeometry(g))
    && !c.ReleaseGeometry?
    && !c.ReleaseScene?
  }

  /** On any outcome, `try_new` makes a prefix of the calls of a full
      registration and nothing else. */
  lemma CallsFollowRegistration(d: DeviceState, data: nat, boundsFn: FnPtr, intersectFn: FnPtr,
                                occludedFn: FnPtr, replies: UserReplies)
    ensures var r := TryNew(d, data, boundsFn, intersectFn, occludedFn, replies);
            var steps := Registration(replies.newGeometry.ret, data, boundsFn, intersectFn, occludedFn, replies);
            && |d.trace| <= |r.device.trace|
            && r.device.trace[..|d.trace|] == d.trace
            && r.device.trace[|d.trace|..] <= Logged(steps)
  {
    var steps := Registration(replies.newGeometry.ret, data, boundsFn, intersectFn, occludedFn, replies);
    var n := Ran(d.pending, steps);
    RunTrace(d, steps);
    LoggedPrefix(steps, n);
    var r := TryNew(d, data, boundsFn, intersectFn, occludedFn, replies);
    assert r.device.trace == d.trace + Logged(steps[..n]);
    assert r.device.trace[|d.trace|..] == Logged(steps[..n]);
  }

  /** A run makes only slot reads and its own calls. */
  lemma RunCallsFromSteps(d: DeviceState, steps: seq<CheckedCall>)
    ensures var t := RunChecked(d, steps).1.trace;
            && |d.trace| <= |t|
            && forall c :: c in t[|d.trace|..] ==>
                 c == GetDeviceError || exists i :: 0 <= i < |steps| && steps[i].call == c
  {
    var n := Ran(d.pending, steps);
    RunTrace(d, steps);
    LoggedPrefix(steps, n);
    LoggedMembers(steps);
    var t := RunChecked(d, steps).1.trace;
    var made := t[|d.trace|..];
    var logged := Logged(steps);
    assert made == Logged(steps[..n]);
    forall c | c in made
      ensures c in logged
    {
      var j :| 0 <= j < |made| && made[j] == c;
      assert logged[j] == c;
    }
  }

  /** Every call `try_new` makes carries the arguments it was given: the
      primitive count is 1, the user data and the bounds function's user
      pointer are both the address of `data`, the three callbacks are the ones
      passed in, every call after creation targets the created handle, and
      nothing is released. */
  lemma RegisteredArguments(d: DeviceState, data: nat, boundsFn: FnPtr, intersectFn: FnPtr,
                            occludedFn: FnPtr, replies: UserReplies)
    ensures var r := TryNew(d, data, boundsFn, intersectFn, occludedFn, replies);
            && |d.trace| <= |r.device.trace|
            && forall c :: c in r.device.trace[|d.trace|..] ==>
                 Registered(c, replies.newGeometry.ret, data, boundsFn, intersectFn, occludedFn)
  {
    var g := replies.newGeometry.ret;
    var steps := Registration(g, data, boundsFn, intersectFn, occludedFn, replies);
    RunCallsFromSteps(d, steps);
    var r := TryNew(d, data, boundsFn, intersectFn, occludedFn, replies);
    assert r.device == RunChecked(d, steps).1;
    forall c | c in r.device.trace[|d.trace|..] && c != GetDeviceError
      ensures Registered(c, g, data, boundsFn, intersectFn, occludedFn)
    {
      var i :| 0 <= i < |steps| && steps[i].call == c;
    }
  }

  /** A failed check is reported with its step's message and the code it
      read, and no call follows the failed step's slot read. */
  lemma RegistrationStopsAtFirstFailure(d: DeviceState, data: nat, boundsFn: FnPtr, intersectFn: FnPtr,
                                        occludedFn: FnPtr, replies: UserReplies, k: nat)
    requires FailsFirstAt(d.pending,
                          Registration(replies.newGeometry.ret, data, boundsFn, intersectFn, occludedFn, replies), k)
    ensures var steps := Registration(replies.newGeometry.ret, data, boundsFn, intersectFn, occludedFn, replies);
            var r := TryNew(d, data, boundsFn, intersectFn, occludedFn, replies);
            && r.outcome == Err(ErrorText(Message(Steps[k]), CodeAt(d.pending, steps, k)))
            && r.device.trace == d.trace + Logged(steps[..k + 1])
  {
    var steps := Registration(replies.newGeometry.ret, data, boundsFn, intersectFn, occludedFn, replies);
    RunStopsAtFirstFailure(d, steps, k);
  }

  /** The created handle is never compared with null: a null handle with clean
      checks is wrapped as it is, and in general the outcome is the same
      whatever handle the backend returned, up to the handle itself. */
  lemma HandleNeverChecked(d: DeviceState, data: nat, boundsFn: FnPtr, intersectFn: FnPtr,
                           occludedFn: FnPtr, replies: UserReplies, other: Ptr)
    ensures var r1 := TryNew(d, data, boundsFn, intersectFn, occludedFn, replies);
            var r2 := TryNew(d, data, boundsFn, intersectFn, occludedFn,
                             replies.(newGeometry := Reply(other, replies.newGeometry.raised)));
            && (r1.outcome.Ok? <==> r2.outcome.Ok?)
            && (r1.outcome.Ok? ==> r2.outcome == Ok(UserGeometry(other)))
            && (!r1.outcome.Ok? ==> r1.outcome == r2.outcome)
  {
    var g := replies.newGeometry.ret;
    var replies2 := replies.(newGeometry := Reply(other, replies.newGeometry.raised));
    var steps1 := Registration(g, data, boundsFn, intersectFn, occludedFn, replies);
    var steps2 := Registration(other, data, boundsFn, intersectFn, occludedFn, replies2);
    OutcomeIgnoresArguments(d, steps1, d, steps2);
  }

  /** `try_new` never releases what it created, not even on failure; after a
      success, dropping the wrapper releases the handle exactly once. */
  lemma ReleasedOnlyByDrop(d: DeviceState, data: nat, boundsFn: FnPtr, intersectFn: FnPtr,
                           occludedFn: FnPtr, replies: UserReplies, dropRaised: RtcError)
    ensures var r := TryNew(d, data, boundsFn, intersectFn, occludedFn, replies);
            && |d.trace| <= |r.device.trace|
            && ReleasesNothing(r.device.trace[|d.trace|..])
            && (r.outcome.Ok? ==>
                  multiset(Drop(r.device, r.outcome.value, dropRaised).trace[|d.trace|..])
                    [ReleaseGeometry(replies.newGeometry.ret)] == 1)
  {
    RegisteredArguments(d, data, boundsFn, intersectFn, occludedFn, replies);
    var r := TryNew(d, data, boundsFn, intersectFn, occludedFn, replies);
    var made := r.device.trace[|d.trace|..];
    RegisteredReleaseNothing(made, replies.newGeometry.ret, data, boundsFn, intersectFn, occludedFn);
    if r.outcome.Ok? {
      var after := Drop(r.device, r.outcome.value, dropRaised);
      assert after.trace[|d.trace|..] == made + [ReleaseGeometry(replies.newGeometry.ret)];
      ReleasedOnceAfter(made, replies.newGeometry.ret);
    }
  }

  lemma RegisteredReleaseNothing(made: seq<Call>, g: Ptr, data: nat, boundsFn: FnPtr, intersectFn: FnPtr,
                                 occludedFn: FnPtr)
    requires forall c :: c in made ==> Registered(c, g, data, boundsFn, intersectFn, occludedFn)
    ensures ReleasesNothing(made)
  {
    forall i | 0 <= i < |made|
      ensures !made[i].ReleaseGeometry? && !made[i].ReleaseScene?
    {
      assert made[i] in made;
    }
  }

  lemma ReleasedOnceAfter(made: seq<Call>, g: Ptr)
    requires ReleasesNothing(made)
    ensures multiset(made + [ReleaseGeometry(g)])[ReleaseGeometry(g)] == 1
  {
    var release := ReleaseGeometry(g);
    assert release !in made;
    assert multiset(made + [release]) == multiset(made) + multiset{release};
  }
}
