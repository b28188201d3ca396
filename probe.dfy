/**
 * The connectivity probe: one dial to a fixed reachable endpoint, classified
 * as online or offline. The dial itself is network I/O and is taken as an
 * input: either it failed (timeout, refusal, resolution failure alike) or it
 * connected after some elapsed wall time in milliseconds.
 */
module Probe {

  /** The build version stamped on every status and every history row. */
  const Version: string := "1.1.0"

  /** The status returned by the local status endpoint; `timestamp` is a clock reading. */
  datatype Status = Status(
    online: bool,
    latencyMs: real,
    timestamp: int,
    downloadSpeedMbps: real,
    version: string)

  /** What the dial to the reachability target did. */
  datatype Dial = DialFailed | Connected(elapsedMs: real)

  /**
   * One connectivity check at clock reading `now`. Online exactly when the
   * dial connected; a failed dial reports zero latency. The download speed is
   * left at zero, for the status handler to fill in.
   */
  function CheckConnectivity(dial: Dial, now: int): (s: Status)
    requires dial.Connected? ==> dial.elapsedMs >= 0.0
    ensures s.online <==> dial.Connected?
    ensures s.online ==> s.latencyMs == dial.elapsedMs
    ensures !s.online ==> s.latencyMs == 0.0
    ensures s.latencyMs >= 0.0
    ensures s.downloadSpeedMbps == 0.0 && s.timestamp == now && s.version == Version
  {
    match dial
    case DialFailed => Status(false, 0.0, now, 0.0, Version)
    case Connected(ms) => Status(true, ms, now, 0.0, Version)
  }
}
