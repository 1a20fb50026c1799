/**
 Model of the AVTransport instance panel's controller (`InstanceViewImpl`),
 with the Swing plumbing abstracted away. A controller is an immutable
 record; every entry point is a step function returning the next record
 and the events it emitted: calls on the presenter and log records.
 */
module InstanceView {
  import opened Wrappers
  import opened Transport
  import opened JavaArith

  /** The cached position snapshot; only the track duration is ever read. */
  datatype PositionInfo = PositionInfo(trackDurationSeconds: NonNegLong)

  /** One initialised instance panel. */
  datatype Controller = Controller(
    instanceId: Int32,
    view: ViewState,
    position: Option<PositionInfo>)

  datatype Level = Warning

  /** What a step emits, in order: presenter calls and log records. */
  datatype Event =
    | PlaySelected(instanceId: Int32)
    | PauseSelected(instanceId: Int32)
    | StopSelected(instanceId: Int32)
    | SeekBySelected(instanceId: Int32, seconds: int, forward: bool)
    | SeekToSelected(instanceId: Int32, targetSeconds: Int32)
    | SetAVTransportURISelected(instanceId: Int32, uri: string)
    | Logged(level: Level, category: string, message: string)

  /** The result of one entry point. */
  datatype Step = Step(next: Controller, emitted: seq<Event>)

  /** The fixed distance, in seconds, of the forward and rewind buttons. */
  const RELATIVE_SEEK_SECONDS: int := 15
  const URI_LOG_CATEGORY: string := "AVTransport ControlPoint"
  const INVALID_URI_PREFIX: string := "Invalid URI, can't set on AVTransport: "

  predicate IsPresenterCall(e: Event) {
    !e.Logged?
  }

  /** The presenter calls of a trace, in order. */
  function PresenterCalls(es: seq<Event>): (r: seq<Event>)
    ensures |r| <= |es|
    ensures forall e :: e in r <==> e in es && IsPresenterCall(e)
  {
    if es == [] then []
    else (if IsPresenterCall(es[0]) then [es[0]] else []) + PresenterCalls(es[1..])
  }

  /** The log records of a trace, in order. */
  function Logs(es: seq<Event>): (r: seq<Event>)
    ensures |r| <= |es|
    ensures forall e :: e in r <==> e in es && e.Logged?
  {
    if es == [] then []
    else (if es[0].Logged? then [es[0]] else []) + Logs(es[1..])
  }

  /** Keeping presenter calls distributes over concatenation of traces. */
  lemma {:induction false} PresenterCallsDistribute(a: seq<Event>, b: seq<Event>)
    ensures PresenterCalls(a + b) == PresenterCalls(a) + PresenterCalls(b)
  {
    if a == [] {
      assert a + b == b;
    } else {
      assert (a + b)[0] == a[0];
      assert (a + b)[1..] == a[1..] + b;
      PresenterCallsDistribute(a[1..], b);
    }
  }

  /** Keeping log records distributes over concatenation of traces. */
  lemma {:induction false} LogsDistribute(a: seq<Event>, b: seq<Event>)
    ensures Logs(a + b) == Logs(a) + Logs(b)
  {
    if a == [] {
      assert a + b == b;
    } else {
      assert (a + b)[0] == a[0];
      assert (a + b)[1..] == a[1..] + b;
      LogsDistribute(a[1..], b);
    }
  }

  // ----- init and getInstanceId -----

  /** `init`: stores the id and starts the view state machine in its initial state. */
  function Init(instanceId: Int32): (c: Controller)
    ensures GetInstanceId(c) == instanceId
    ensures c.view == INITIAL_VIEW && c.view == NoMediaPresent
    ensures c.position.None?
  {
    Controller(instanceId, INITIAL_VIEW, None)
  }

  function GetInstanceId(c: Controller): Int32 {
    c.instanceId
  }

  // ----- setState and dispose -----

  /**
   `setState`: a transport state with an entry in the table forces the view
   state to the mapped value; one without an entry is ignored.
   */
  function SetState(c: Controller, stateMap: map<TransportState, ViewState>, state: TransportState): (s: Step)
    ensures s.emitted == []
    ensures s.next.instanceId == c.instanceId && s.next.position == c.position
    ensures state in stateMap ==> s.next.view == stateMap[state]
    ensures state !in stateMap ==> s.next == c
  {
    if state in stateMap then Step(c.(view := stateMap[state]), [])
    else Step(c, [])
  }

  /** Applying the same transport state a second time changes nothing and emits nothing. */
  lemma SetStateIdempotent(c: Controller, stateMap: map<TransportState, ViewState>, state: TransportState)
    ensures SetState(SetState(c, stateMap, state).next, stateMap, state) == Step(SetState(c, stateMap, state).next, [])
  {
  }

  /** A mapped state's outcome does not depend on the previous view state. */
  lemma SetStateForgetsPreviousView(c: Controller, v: ViewState, stateMap: map<TransportState, ViewState>, state: TransportState)
    requires state in stateMap
    ensures SetState(c, stateMap, state) == SetState(c.(view := v), stateMap, state)
  {
  }

  /** `dispose`: exactly `setState(STOPPED)`. */
  function Dispose(c: Controller, stateMap: map<TransportState, ViewState>): (s: Step)
    ensures s == SetState(c, stateMap, STOPPED)
    ensures s.emitted == []
    ensures STOPPED in stateMap ==> s.next.view == stateMap[STOPPED]
    ensures STOPPED !in stateMap ==> s.next == c
  {
    SetState(c, stateMap, STOPPED)
  }

  /** Disposing twice leaves the same controller as disposing once. */
  lemma DisposeIdempotent(c: Controller, stateMap: map<TransportState, ViewState>)
    ensures Dispose(Dispose(c, stateMap).next, stateMap).next == Dispose(c, stateMap).next
  {
  }

  /** When the table maps STOPPED to the Stopped view, disposing always ends in Stopped. */
  lemma DisposeStops(c: Controller, stateMap: map<TransportState, ViewState>)
    requires STOPPED in stateMap && stateMap[STOPPED] == Stopped
    ensures Dispose(c, stateMap).next.view == Stopped
  {
  }

  // ----- button handlers -----

  /** Forward button: one relative seek 15 seconds forward. */
  function OnForwardPressed(c: Controller): (s: Step)
    ensures s.next == c
    ensures s.emitted == [SeekBySelected(GetInstanceId(c), 15, true)]
  {
    Step(c, [SeekBySelected(c.instanceId, RELATIVE_SEEK_SECONDS, true)])
  }

  /** Rewind button: one relative seek 15 seconds backward. */
  function OnRewindPressed(c: Controller): (s: Step)
    ensures s.next == c
    ensures s.emitted == [SeekBySelected(GetInstanceId(c), 15, false)]
  {
    Step(c, [SeekBySelected(c.instanceId, RELATIVE_SEEK_SECONDS, false)])
  }

  /** Pause button: forwarded whatever the view state, even when already paused. */
  function OnPausePressed(c: Controller): (s: Step)
    ensures s.next == c
    ensures s.emitted == [PauseSelected(GetInstanceId(c))]
  {
    Step(c, [PauseSelected(c.instanceId)])
  }

  /** Stop button: forwarded whatever the view state. */
  function OnStopPressed(c: Controller): (s: Step)
    ensures s.next == c
    ensures s.emitted == [StopSelected(GetInstanceId(c))]
  {
    Step(c, [StopSelected(c.instanceId)])
  }

  /** Play button: forwarded whatever the view state. */
  function OnPlayPressed(c: Controller): (s: Step)
    ensures s.next == c
    ensures s.emitted == [PlaySelected(GetInstanceId(c))]
  {
    Step(c, [PlaySelected(c.instanceId)])
  }

  // ----- position slider -----

  /**
   The slider's seek target in whole seconds: the `long` product of the
   slider value and the track duration, divided by 100 with Java's
   truncating `/`, narrowed to `int`.
   */
  function SeekTargetSeconds(value: Int32, durationSeconds: NonNegLong): Int32 {
    Wrap32(TruncDiv(Wrap64(value * durationSeconds), 100))
  }

  /**
   For a slider value in 0..100 and a duration that fits an `int`, no
   wrap-around happens: the target is the floor of value% of the duration,
   and it lies within the track.
   */
  lemma SeekTargetWithinTrack(value: Int32, durationSeconds: NonNegLong)
    requires 0 <= value <= 100
    requires durationSeconds <= INT_MAX
    ensures SeekTargetSeconds(value, durationSeconds) == value * durationSeconds / 100
    ensures 0 <= SeekTargetSeconds(value, durationSeconds) <= durationSeconds
    ensures 100 * SeekTargetSeconds(value, durationSeconds) <= value * durationSeconds
    ensures value * durationSeconds < 100 * (SeekTargetSeconds(value, durationSeconds) + 1)
  {
    var p := value * durationSeconds;
    assert 0 <= p <= 100 * durationSeconds by {
      assert (100 - value) * durationSeconds >= 0;
    }
    assert Wrap64(p) == p;
    var q := TruncDiv(p, 100);
    assert 0 <= q <= durationSeconds;
    assert q == p / 100;
  }

  /** The slider's two ends: value 0 seeks to the start, value 100 to the track duration. */
  lemma SeekTargetEnds(durationSeconds: NonNegLong)
    requires durationSeconds <= INT_MAX
    ensures SeekTargetSeconds(0, durationSeconds) == 0
    ensures SeekTargetSeconds(100, durationSeconds) == durationSeconds
  {
    SeekTargetWithinTrack(100, durationSeconds);
  }

  /** A zero-length track always seeks to 0, whatever the slider value. */
  lemma SeekTargetZeroDuration(value: Int32)
    ensures SeekTargetSeconds(value, 0) == 0
  {
  }

  /** Moving the slider further never moves the target earlier. */
  lemma SeekTargetMonotone(value: Int32, value': Int32, durationSeconds: NonNegLong)
    requires 0 <= value <= value' <= 100
    requires durationSeconds <= INT_MAX
    ensures SeekTargetSeconds(value, durationSeconds) <= SeekTargetSeconds(value', durationSeconds)
  {
    var p: int, p': int := value * durationSeconds, value' * durationSeconds;
    assert p <= p' by {
      assert p' - p == (value' - value) * durationSeconds;
    }
    var t: int, t': int := SeekTargetSeconds(value, durationSeconds), SeekTargetSeconds(value', durationSeconds);
    SeekTargetWithinTrack(value, durationSeconds);
    SeekTargetWithinTrack(value', durationSeconds);
    assert 100 * t <= p && p' < 100 * (t' + 1);
  }

  /**
   Slider change: nothing while the knob is still being dragged or while no
   position snapshot is cached; otherwise one absolute seek.
   */
  function OnSliderChanged(c: Controller, adjusting: bool, value: Int32): (s: Step)
    ensures s.next == c
    ensures adjusting ==> s.emitted == []
    ensures c.position.None? ==> s.emitted == []
    ensures !adjusting && c.position.Some? ==>
      s.emitted == [SeekToSelected(c.instanceId, SeekTargetSeconds(value, c.position.value.trackDurationSeconds))]
  {
    if adjusting then Step(c, [])
    else match c.position
      case None => Step(c, [])
      case Some(info) =>
        Step(c, [SeekToSelected(c.instanceId, SeekTargetSeconds(value, info.trackDurationSeconds))])
  }

  // ----- URI field -----

  /** The warning logged for a URI that `URI.create` rejects. */
  function InvalidUriWarning(uri: string): Event {
    Logged(Warning, URI_LOG_CATEGORY, INVALID_URI_PREFIX + uri)
  }

  /**
   Set button: a missing or empty text is ignored. Any other text is
   forwarded unchanged, and a text that is not a valid URI is forwarded
   all the same, after a warning.
   */
  function OnSetPressed(c: Controller, text: Option<string>, uriIsValid: string -> bool): (s: Step)
    ensures s.next == c
    ensures text.None? || text == Some("") ==> s.emitted == []
    ensures text.Some? && text.value != "" ==>
      && PresenterCalls(s.emitted) == [SetAVTransportURISelected(c.instanceId, text.value)]
      && Logs(s.emitted) == (if uriIsValid(text.value) then [] else [InvalidUriWarning(text.value)])
      && s.emitted[|s.emitted| - 1] == SetAVTransportURISelected(c.instanceId, text.value)
  {
    match text
    case None => Step(c, [])
    case Some(uri) =>
      if |uri| == 0 then Step(c, [])
      else
        var warning := if uriIsValid(uri) then [] else [InvalidUriWarning(uri)];
        var forward := [SetAVTransportURISelected(c.instanceId, uri)];
        PresenterCallsDistribute(warning, forward);
        LogsDistribute(warning, forward);
        Step(c, warning + forward)
  }
}
