/**
 The two state vocabularies of an AVTransport playback instance: the
 transport state the remote renderer reports (UPnP AVTransport service),
 and the view state of the control point's instance panel, which decides
 which buttons are offered.
 */
module Transport {

  /** Transport states a renderer reports for one AVTransport instance. */
  datatype TransportState =
    | STOPPED
    | PLAYING
    | TRANSITIONING
    | PAUSED_PLAYBACK
    | PAUSED_RECORDING
    | RECORDING
    | NO_MEDIA_PRESENT

  /** The view states of the instance panel's state machine. */
  datatype ViewState =
    | NoMediaPresent
    | Stopped
    | Playing
    | Paused
    | Transitioning
    | Recording

  /** The view state a freshly initialised instance panel starts in. */
  const INITIAL_VIEW: ViewState := NoMediaPresent
}
