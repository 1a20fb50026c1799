# Cling AVTransport instance panel and `char` decoder — Dafny model

This project models two small pieces of the Cling UPnP stack.

1. **The AVTransport instance panel's controller** (`InstanceViewImpl` in the
   workbench). One panel controls one AVTransport instance of a remote
   renderer. It keeps an instance id, a view state (which of the panel's
   state-machine states is current), and the last cached `PositionInfo`.
   It reacts to two kinds of calls. Device notifications call `setState`,
   which looks the reported transport state up in a transport-to-view table
   and forces the view state. User actions come from the forward, rewind,
   pause, stop and play buttons, the position slider and the URI "Set" button.
   Each of these forwards a call to the presenter.
   In the model the controller is an immutable record (`InstanceView.Controller`).
   Every entry point is a pure step function returning a `Step`: the next
   record plus the events it emitted, which are presenter calls and log records.
   `InstanceViewRun.Run` applies a whole sequence of inputs.
2. **`CharacterDatatype.valueOf`**, the decoder of the UPnP `char` datatype.
   The empty string decodes to no value (`null`). Any other string decodes to
   its first character.

Modules: `Wrappers` (Option), `JavaArith` (Java `int`/`long` ranges,
two's-complement narrowing, truncating division), `Transport` (transport and
view states), `InstanceView` (the controller's entry points),
`InstanceViewRun` (input sequences) and `CharacterDatatype`.

Assumptions made where the code calls something that is not part of this model:
- The transport-to-view table `InstanceViewState.STATE_MAP` is a parameter.
  Any transport state may be missing from it. The lemmas about `dispose`
  ending in the Stopped view state say so in their preconditions: they hold
  for any table that maps STOPPED to Stopped.
- `forceState` is plain assignment of the mapped view state.
- `URI.create` is an uninterpreted validity predicate. It is passed in as
  `uriIsValid`.
- `Workbench.log` appends a `Logged(level, category, message)` event to the trace.
- `PositionInfo.getTrackDurationSeconds` returns a non-negative `long`.
  So `newValue * duration` is a 64-bit product, and `/ 100` is Java's
  truncating integer division, performed before the widening to `double`.
- The slider value is a Java `int`. The slider's range is set in
  `ProgressPanel`, which is not part of this model. The bound lemmas assume
  the range 0..100.

Facts about the code that the model keeps:
- The button handlers never consult the view state.
  `InstanceViewRun.RunTraceIgnoresView` proves that the emitted trace does
  not depend on it.
- An invalid URI is logged as a warning and still forwarded to the presenter.
- A slider change with no cached `PositionInfo` is silently ignored.
- The seek target is truncated by the `long` division and narrowed to `int`.
  It is never clamped.
- The presenter is dereferenced without a null check.

## Model

| member | source | states |
|---|---|---|
| `CharacterDatatype.ValueOf` | core/src/main/java/org/fourthline/cling/model/types/CharacterDatatype.java:33-36 | The result is absent exactly when the string is empty. Otherwise it is the string's first character. |
| `CharacterDatatype.EmptyDecodesToNothing` | core/src/main/java/org/fourthline/cling/model/types/CharacterDatatype.java:34 | `valueOf("")` is null. |
| `CharacterDatatype.OnlyFirstCharacterMatters` | core/src/main/java/org/fourthline/cling/model/types/CharacterDatatype.java:35 | Two non-empty strings with the same first character decode to the same value, and that value is the first character. |
| `CharacterDatatype.SuffixIgnored` | core/src/main/java/org/fourthline/cling/model/types/CharacterDatatype.java:35 | Whatever follows the first character is ignored. |
| `CharacterDatatype.SingletonRoundTrip` | core/src/main/java/org/fourthline/cling/model/types/CharacterDatatype.java:35 | Round trip: the one-character string `[c]` decodes to `c`. |
| `JavaArith.Wrap32` | workbench/src/main/java/org/fourthline/cling/workbench/plugins/avtransport/impl/InstanceViewImpl.java:113 | `Long.intValue` gives an `int` congruent to its argument modulo 2^32, and it is the identity on values that already fit. |
| `JavaArith.Wrap64` | workbench/src/main/java/org/fourthline/cling/workbench/plugins/avtransport/impl/InstanceViewImpl.java:110 | The `long` product is congruent to the exact product modulo 2^64, and equals it when it fits. |
| `JavaArith.TruncDiv` | workbench/src/main/java/org/fourthline/cling/workbench/plugins/avtransport/impl/InstanceViewImpl.java:110 | Java's `/` by a positive divisor leaves a remainder with the dividend's sign that is smaller than the divisor in magnitude, so it rounds toward zero. |
| `InstanceView.Init` | workbench/src/main/java/org/fourthline/cling/workbench/plugins/avtransport/impl/InstanceViewImpl.java:54-63 | After `init(id)`, `getInstanceId` returns `id`, the view state machine is in `NoMediaPresent`, and no position is cached. |
| `InstanceView.GetInstanceId` | workbench/src/main/java/org/fourthline/cling/workbench/plugins/avtransport/impl/InstanceViewImpl.java:196-198 | Returns the id stored by `init`. The contract is stated by `InstanceView.Init` (it returns the id passed to `init`) and by `InstanceViewRun.Run` (no input changes it). |
| `InstanceView.SetState` | workbench/src/main/java/org/fourthline/cling/workbench/plugins/avtransport/impl/InstanceViewImpl.java:157-166 | A mapped transport state forces exactly the mapped view state. An unmapped one leaves the controller unchanged. Neither emits anything, and neither touches the id or the cached position. |
| `InstanceView.SetStateIdempotent` | workbench/src/main/java/org/fourthline/cling/workbench/plugins/avtransport/impl/InstanceViewImpl.java:157-166 | Applying the same transport state twice gives the controller it gives once, and the second application emits nothing. |
| `InstanceView.SetStateForgetsPreviousView` | workbench/src/main/java/org/fourthline/cling/workbench/plugins/avtransport/impl/InstanceViewImpl.java:158-161 | For a mapped transport state the outcome is the same whatever the previous view state was. |
| `InstanceView.Dispose` | workbench/src/main/java/org/fourthline/cling/workbench/plugins/avtransport/impl/InstanceViewImpl.java:191-194 | `dispose` is exactly `setState(STOPPED)`. It forces the view mapped for STOPPED, or leaves the controller unchanged when STOPPED is unmapped. |
| `InstanceView.DisposeIdempotent` | workbench/src/main/java/org/fourthline/cling/workbench/plugins/avtransport/impl/InstanceViewImpl.java:191-194 | Disposing twice leaves the same controller as disposing once. |
| `InstanceView.DisposeStops` | workbench/src/main/java/org/fourthline/cling/workbench/plugins/avtransport/impl/InstanceViewImpl.java:191-194 | For any table that maps STOPPED to the Stopped view, `dispose` always ends in the `Stopped` view state. |
| `InstanceView.OnForwardPressed` | workbench/src/main/java/org/fourthline/cling/workbench/plugins/avtransport/impl/InstanceViewImpl.java:65-70 | The forward button emits exactly one relative seek of 15 seconds with direction `true`, carrying the stored instance id, and changes nothing. |
| `InstanceView.OnRewindPressed` | workbench/src/main/java/org/fourthline/cling/workbench/plugins/avtransport/impl/InstanceViewImpl.java:72-77 | The rewind button emits exactly one relative seek of 15 seconds with direction `false`, carrying the stored instance id, and changes nothing. |
| `InstanceView.OnPausePressed` | workbench/src/main/java/org/fourthline/cling/workbench/plugins/avtransport/impl/InstanceViewImpl.java:79-85 | The pause button emits exactly one pause call with the instance id, whatever the view state, and changes nothing. |
| `InstanceView.OnStopPressed` | workbench/src/main/java/org/fourthline/cling/workbench/plugins/avtransport/impl/InstanceViewImpl.java:87-92 | The stop button emits exactly one stop call with the instance id, whatever the view state, and changes nothing. |
| `InstanceView.OnPlayPressed` | workbench/src/main/java/org/fourthline/cling/workbench/plugins/avtransport/impl/InstanceViewImpl.java:94-100 | The play button emits exactly one play call with the instance id, whatever the view state, and changes nothing. |
| `InstanceView.OnSliderChanged` | workbench/src/main/java/org/fourthline/cling/workbench/plugins/avtransport/impl/InstanceViewImpl.java:102-119 | The slider emits nothing while its value is adjusting or when no `PositionInfo` is cached. Otherwise it emits one absolute seek to the target computed from the value and the cached duration. |
| `InstanceView.SeekTargetSeconds` | workbench/src/main/java/org/fourthline/cling/workbench/plugins/avtransport/impl/InstanceViewImpl.java:109-113 | The slider's seek target in whole seconds, with Java's 64-bit product, truncating `/ 100` and narrowing to `int`. Its contract is stated by `InstanceView.SeekTargetWithinTrack`, `SeekTargetEnds`, `SeekTargetZeroDuration` and `SeekTargetMonotone`. |
| `InstanceView.SeekTargetWithinTrack` | workbench/src/main/java/org/fourthline/cling/workbench/plugins/avtransport/impl/InstanceViewImpl.java:109-114 | For a slider value in 0..100 and a duration that fits an `int`, the target is `value * duration / 100` rounded down. It satisfies `100·t ≤ value·duration < 100·(t+1)` and lies in `[0, duration]`. |
| `InstanceView.SeekTargetEnds` | workbench/src/main/java/org/fourthline/cling/workbench/plugins/avtransport/impl/InstanceViewImpl.java:110 | Slider value 0 seeks to 0 and slider value 100 seeks to the full duration. |
| `InstanceView.SeekTargetZeroDuration` | workbench/src/main/java/org/fourthline/cling/workbench/plugins/avtransport/impl/InstanceViewImpl.java:110 | On a zero-length track every slider value seeks to 0. |
| `InstanceView.SeekTargetMonotone` | workbench/src/main/java/org/fourthline/cling/workbench/plugins/avtransport/impl/InstanceViewImpl.java:110 | A larger slider value never gives an earlier seek target. |
| `InstanceView.OnSetPressed` | workbench/src/main/java/org/fourthline/cling/workbench/plugins/avtransport/impl/InstanceViewImpl.java:121-136 | A null or empty URI emits nothing. Any other text is forwarded unchanged exactly once, and as the last event, even when it is not a valid URI. Exactly one WARNING log naming the URI is produced, and only when the URI is invalid. |
| `InstanceViewRun.Handle` | workbench/src/main/java/org/fourthline/cling/workbench/plugins/avtransport/impl/InstanceViewImpl.java:65-136 | Dispatching any input keeps the instance id and the cached position. A forcing input sets the view to the forced state; any other input leaves the view alone. Every presenter call carries the id. The numbers of presenter calls and warnings are the expected ones for that input. |
| `InstanceViewRun.Run` | workbench/src/main/java/org/fourthline/cling/workbench/plugins/avtransport/impl/InstanceViewImpl.java:65-136 | No sequence of inputs changes the instance id or the cached position, and every presenter call in the trace carries the id stored by `init`. |
| `InstanceViewRun.RunFinalView` | workbench/src/main/java/org/fourthline/cling/workbench/plugins/avtransport/impl/InstanceViewImpl.java:157-166 | After any sequence of inputs, the view state is the one forced by the last input that forces one: a mapped `setState`, or `dispose` when STOPPED is mapped. With no such input it is the initial view state. |
| `InstanceViewRun.RunTraceIgnoresView` | workbench/src/main/java/org/fourthline/cling/workbench/plugins/avtransport/impl/InstanceViewImpl.java:79-100 | The command handlers do not consult the view state: two controllers that differ only in view state emit identical traces for every input sequence. |
| `InstanceViewRun.RunCounts` | workbench/src/main/java/org/fourthline/cling/workbench/plugins/avtransport/impl/InstanceViewImpl.java:65-136 | Over any input sequence, every button press gives one presenter call. So does every settled slider change with a cached position, and every non-null, non-empty URI. Every non-empty invalid URI gives one warning. Nothing else gives either. |
| `InstanceViewRun.DisposeLastStops` | workbench/src/main/java/org/fourthline/cling/workbench/plugins/avtransport/impl/InstanceViewImpl.java:191-194 | For any table that maps STOPPED to the Stopped view, a sequence that ends in `dispose` ends in the `Stopped` view state, whatever came before. |

## Left out

- Swing rendering: the panel layout (`InstanceViewImpl.java:138-141`), `setSelectionEnabled`, `setCurrentTrackURI` and `asUIComponent` only write to widgets.
- `getProgress` / `setProgress` delegate to `ProgressPanel`, which is not part of this model. The cached position is a field of the controller record, supplied by the caller.
- `setPresenter`: the model assumes a presenter has been set. A handler fired while the presenter is still null throws `NullPointerException` in the code.
- Calls before `init`: the model starts from `InstanceView.Init`.
- InstanceView.Init: assumes a fresh `ProgressPanel` holds no `PositionInfo`, since `init` itself never touches the progress panel. It also assumes `init` is called exactly once. Every call adds another listener to each widget, so after a second `init` every press would emit two presenter calls.
- The exception path of `forceState` (a SEVERE log, `InstanceViewImpl.java:162-164`): the state-machine library is not part of this model, so `forceState` never fails here.
- The state-machine classes and `InstanceViewState.STATE_MAP` are not part of this model. The table is a parameter, and the view states are a closed datatype named after the state classes.
- `TransportState` itself is not part of this model. The seven values of the AVTransport service are modelled.
- `synchronized` on `setState`: calls are modelled as sequential.
- `ModelUtil.toTimeString`: the absolute seek carries whole seconds, not the formatted time string.
- `URI.create`: an uninterpreted validity predicate, passed as a parameter.
- InstanceView.SeekTargetSeconds: the widening to `double` and `Math.round` are treated as exact. This holds while `|value × duration / 100| ≤ 2^53`.
- InstanceView.SeekTargetWithinTrack: the bounds are stated only for durations that fit an `int`. Beyond that, the code's `intValue` wraps around and the target can leave `[0, duration]`.
- `PositionInfo` fields other than the track duration: the controller never reads them.
- CharacterDatatype.ValueOf: a `null` argument throws `NullPointerException` in the code and is not modelled. A Java `char` is a UTF-16 code unit, while a Dafny `char` is a Unicode scalar value.
- `CharacterDatatype.isHandlingJavaType`: it is reflection on Java `Class` objects.
- `OutgoingSearchResponseServiceType`: its constructor only adds the ST and USN headers of a search response through classes that are not part of this model.
