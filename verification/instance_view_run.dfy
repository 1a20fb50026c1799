/**
 Sequences of entry-point calls on one instance panel. `Handle` dispatches
 a single user or device input to the matching step function of
 `InstanceView`; `Run` applies a whole sequence and concatenates what each
 step emitted. The lemmas here state what holds over every such sequence.
 */
module InstanceViewRun {
  import opened Wrappers
  import opened Transport
  import opened JavaArith
  import opened InstanceView

  /** One call into the controller: a device notification, `dispose`, or a widget event. */
  datatype Input =
    | TransportStateChanged(state: TransportState)
    | Disposed
    | ForwardPressed
    | RewindPressed
    | PausePressed
    | StopPressed
    | PlayPressed
    | SliderChanged(adjusting: bool, value: Int32)
    | SetPressed(uriText: Option<string>)

  /** What the controller consults but does not own: the state table and the URI syntax check. */
  datatype Env = Env(stateMap: map<TransportState, ViewState>, uriIsValid: string -> bool)

  /** The view state an input forces, if it forces one. */
  function Forced(stateMap: map<TransportState, ViewState>, input: Input): Option<ViewState> {
    match input
    case TransportStateChanged(t) => if t in stateMap then Some(stateMap[t]) else None
    case Disposed => if STOPPED in stateMap then Some(stateMap[STOPPED]) else None
    case _ => None
  }

  /** How many presenter calls an input should give rise to, given the cached position. */
  function CallsExpected(position: Option<PositionInfo>, input: Input): nat {
    match input
    case TransportStateChanged(_) => 0
    case Disposed => 0
    case SliderChanged(adjusting, _) => if adjusting || position.None? then 0 else 1
    case SetPressed(text) => if text.None? || text == Some("") then 0 else 1
    case _ => 1
  }

  /** How many warnings an input should give rise to. */
  function WarningsExpected(uriIsValid: string -> bool, input: Input): nat {
    match input
    case SetPressed(Some(uri)) => if uri != "" && !uriIsValid(uri) then 1 else 0
    case _ => 0
  }

  /** Dispatches one input to its entry point. */
  function Handle(env: Env, c: Controller, input: Input): (s: Step)
    ensures s.next.instanceId == c.instanceId && s.next.position == c.position
    ensures Forced(env.stateMap, input).Some? ==> s.next.view == Forced(env.stateMap, input).value
    ensures Forced(env.stateMap, input).None? ==> s.next.view == c.view
    ensures forall e | e in s.emitted && IsPresenterCall(e) :: e.instanceId == c.instanceId
    ensures |PresenterCalls(s.emitted)| == CallsExpected(c.position, input)
    ensures |Logs(s.emitted)| == WarningsExpected(env.uriIsValid, input)
  {
    match input
    case TransportStateChanged(t) => SetState(c, env.stateMap, t)
    case Disposed => Dispose(c, env.stateMap)
    case ForwardPressed => OnForwardPressed(c)
    case RewindPressed => OnRewindPressed(c)
    case PausePressed => OnPausePressed(c)
    case StopPressed => OnStopPressed(c)
    case PlayPressed => OnPlayPressed(c)
    case SliderChanged(adjusting, value) => OnSliderChanged(c, adjusting, value)
    case SetPressed(text) => OnSetPressed(c, text, env.uriIsValid)
  }

  /**
   Applies the inputs in order. No input changes the instance id or the
   cached position, and every presenter call carries the instance id.
   */
  function Run(env: Env, c: Controller, inputs: seq<Input>): (s: Step)
    decreases |inputs|
    ensures s.next.instanceId == c.instanceId && s.next.position == c.position
    ensures forall e | e in s.emitted && IsPresenterCall(e) :: e.instanceId == c.instanceId
  {
    if inputs == [] then Step(c, [])
    else
      var first := Handle(env, c, inputs[0]);
      var rest := Run(env, first.next, inputs[1..]);
      Step(rest.next, first.emitted + rest.emitted)
  }

  /** Running two sequences back to back ends where running their concatenation ends. */
  lemma {:induction false} RunAppendNext(env: Env, c: Controller, a: seq<Input>, b: seq<Input>)
    ensures Run(env, c, a + b).next == Run(env, Run(env, c, a).next, b).next
    decreases |a|
  {
    if a == [] {
      assert a + b == b;
    } else {
      assert (a + b)[0] == a[0];
      assert (a + b)[1..] == a[1..] + b;
      RunAppendNext(env, Handle(env, c, a[0]).next, a[1..], b);
    }
  }

  /** Running two sequences back to back emits what running their concatenation emits. */
  lemma {:induction false} RunAppendEmitted(env: Env, c: Controller, a: seq<Input>, b: seq<Input>)
    ensures Run(env, c, a + b).emitted == Run(env, c, a).emitted + Run(env, Run(env, c, a).next, b).emitted
    decreases |a|
  {
    if a == [] {
      assert a + b == b;
    } else {
      assert (a + b)[0] == a[0];
      assert (a + b)[1..] == a[1..] + b;
      var first := Handle(env, c, a[0]);
      var restA := Run(env, first.next, a[1..]);
      var restB := Run(env, restA.next, b);
      RunAppendEmitted(env, first.next, a[1..], b);
      assert first.emitted + (restA.emitted + restB.emitted) == (first.emitted + restA.emitted) + restB.emitted;
    }
  }

  /**
   Reference definition of the final view state: the state forced by the
   last input that forces one, or the initial one if none does.
   */
  function LastForcedView(stateMap: map<TransportState, ViewState>, inputs: seq<Input>, initial: ViewState): ViewState
    decreases |inputs|
  {
    if inputs == [] then initial
    else match Forced(stateMap, inputs[|inputs| - 1])
      case Some(v) => v
      case None => LastForcedView(stateMap, inputs[..|inputs| - 1], initial)
  }

  /** The view state after a run is the one the last forcing input chose. */
  lemma {:induction false} RunFinalView(env: Env, c: Controller, inputs: seq<Input>)
    ensures Run(env, c, inputs).next.view == LastForcedView(env.stateMap, inputs, c.view)
    decreases |inputs|
  {
    if inputs != [] {
      var n := |inputs| - 1;
      var prefix, last := inputs[..n], inputs[n];
      assert inputs == prefix + [last];
      RunAppendNext(env, c, prefix, [last]);
      RunFinalView(env, c, prefix);
      var mid := Run(env, c, prefix).next;
      assert Run(env, mid, [last]).next == Handle(env, mid, last).next;
    }
  }

  /**
   What the presenter and the log receive never depends on the view state:
   two controllers that differ at most in their view state emit the same trace.
   */
  lemma {:induction false} RunTraceIgnoresView(env: Env, c: Controller, c': Controller, inputs: seq<Input>)
    requires c.instanceId == c'.instanceId && c.position == c'.position
    ensures Run(env, c, inputs).emitted == Run(env, c', inputs).emitted
    decreases |inputs|
  {
    if inputs != [] {
      var first, first' := Handle(env, c, inputs[0]), Handle(env, c', inputs[0]);
      assert first.emitted == first'.emitted;
      RunTraceIgnoresView(env, first.next, first'.next, inputs[1..]);
    }
  }

  function SumCallsExpected(position: Option<PositionInfo>, inputs: seq<Input>): nat
    decreases |inputs|
  {
    if inputs == [] then 0 else CallsExpected(position, inputs[0]) + SumCallsExpected(position, inputs[1..])
  }

  function SumWarningsExpected(uriIsValid: string -> bool, inputs: seq<Input>): nat
    decreases |inputs|
  {
    if inputs == [] then 0 else WarningsExpected(uriIsValid, inputs[0]) + SumWarningsExpected(uriIsValid, inputs[1..])
  }

  /**
   Every command input reaches the presenter exactly once, except a slider
   change while adjusting or without a cached position and an empty URI; and
   a warning is logged exactly once per non-empty invalid URI.
   */
  lemma {:induction false} RunCounts(env: Env, c: Controller, inputs: seq<Input>)
    ensures |PresenterCalls(Run(env, c, inputs).emitted)| == SumCallsExpected(c.position, inputs)
    ensures |Logs(Run(env, c, inputs).emitted)| == SumWarningsExpected(env.uriIsValid, inputs)
    decreases |inputs|
  {
    if inputs != [] {
      var first := Handle(env, c, inputs[0]);
      var rest := Run(env, first.next, inputs[1..]);
      RunCounts(env, first.next, inputs[1..]);
      PresenterCallsDistribute(first.emitted, rest.emitted);
      LogsDistribute(first.emitted, rest.emitted);
    }
  }

  /**
   When the table maps STOPPED to the Stopped view, a final `dispose` leaves
   the view Stopped, whatever happened before.
   */
  lemma DisposeLastStops(env: Env, c: Controller, inputs: seq<Input>)
    requires STOPPED in env.stateMap && env.stateMap[STOPPED] == Stopped
    ensures Run(env, c, inputs + [Disposed]).next.view == Stopped
  {
    RunFinalView(env, c, inputs + [Disposed]);
    assert (inputs + [Disposed])[|inputs + [Disposed]| - 1] == Disposed;
  }
}
