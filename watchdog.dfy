/**
 * The per-station record of `streamStatus` in server/src/stream.ts and one step of the
 * watchdog `streamMonitor` on it: a station is stalled when its last chunk is older than
 * the freshness window or its upstream has ended, and a stalled station is reconnected
 * while its failure count is below the ceiling.
 */
module Watchdog {
  import opened Wrappers
  import opened Stations
  import opened JsBuiltins

  /** Milliseconds without data after which a connection counts as stalled. */
  const FreshnessWindow: int := 3000
  /** Consecutive reconnections after which the watchdog gives up on an ended station. */
  const FailureCeiling: int := 10

  /**
   * `streamStatus[id]`: `lastTime` is undefined until the first tick or chunk,
   * `on` is the source's `status` (1 while data flows, 0 after the upstream ended).
   */
  datatype StreamStatus = StreamStatus(id: StationId, url: string, lastTime: Option<int>, failures: int, on: bool)

  /** The record `initStreams` creates: status 0, no failures, no timestamp. */
  function Initial(s: Station): (r: StreamStatus)
    ensures r.id == s.id && r.url == s.url && r.lastTime.None? && r.failures == 0 && !r.on
  {
    StreamStatus(s.id, s.url, None, 0, false)
  }

  datatype TickResult = TickResult(status: StreamStatus, reconnect: bool)

  /** The last-data time the monitor compares, with undefined read as 0. */
  function LastTime(s: StreamStatus): int {
    if s.lastTime.None? then 0 else s.lastTime.value
  }

  predicate Stalled(s: StreamStatus, now: int) {
    LastTime(s) < now - FreshnessWindow || !s.on
  }

  /** One iteration of the loop of `streamMonitor` for one station at time `now`. */
  function Tick(s: StreamStatus, now: int): (r: TickResult)
    ensures r.status == s.(lastTime := Some(LastTime(s)), failures := r.status.failures)
    ensures 0 <= s.failures <= FailureCeiling ==> 0 <= r.status.failures <= FailureCeiling
    // a station that delivered data since the upstream opened starts again from zero failures
    ensures s.on ==> r.reconnect == Stalled(s, now) && r.status.failures == (if r.reconnect then 1 else 0)
    // an ended station is reconnected only while below the ceiling, one failure more each time
    ensures !s.on ==> r.reconnect == (s.failures < FailureCeiling)
                      && r.status.failures == (if r.reconnect then s.failures + 1 else s.failures)
  {
    var last := LastTime(s);
    var failures := if s.on then 0 else s.failures;
    if (last < now - FreshnessWindow || !s.on) && failures < FailureCeiling then
      TickResult(s.(lastTime := Some(last), failures := failures + 1), true)
    else
      TickResult(s.(lastTime := Some(last), failures := failures), false)
  }

  /** Successive ticks with no event in between: the final record and how many reconnections were asked for. */
  function Ticks(s: StreamStatus, nows: seq<int>): (r: (StreamStatus, nat))
    ensures r.1 <= |nows|
    ensures r.0.on == s.on
    decreases |nows|
  {
    if nows == [] then (s, 0)
    else
      var t := Tick(s, nows[0]);
      var rest := Ticks(t.status, nows[1..]);
      (rest.0, rest.1 + if t.reconnect then 1 else 0)
  }

  /**
   * A station whose upstream has ended and which receives nothing is reconnected once per tick
   * until its failure count reaches the ceiling, and never again: from zero failures, at most ten times.
   */
  lemma {:induction false} EndedStationGivesUp(s: StreamStatus, nows: seq<int>)
    requires !s.on && 0 <= s.failures <= FailureCeiling
    ensures Ticks(s, nows).1 == Min(|nows|, FailureCeiling - s.failures)
    ensures Ticks(s, nows).0.failures == s.failures + Min(|nows|, FailureCeiling - s.failures)
    decreases |nows|
  {
    if nows != [] {
      EndedStationGivesUp(Tick(s, nows[0]).status, nows[1..]);
    }
  }

  /**
   * A station whose status stays 1 but whose data has stopped is reconnected at every tick: the
   * reset of the failure count on status 1 means the ceiling never applies to it.
   */
  lemma {:induction false} SilentLiveStationRetriesForever(s: StreamStatus, nows: seq<int>)
    requires s.on && s.lastTime.Some?
    requires forall i :: 0 <= i < |nows| ==> s.lastTime.value < nows[i] - FreshnessWindow
    ensures Ticks(s, nows).1 == |nows|
    decreases |nows|
  {
    if nows != [] {
      SilentLiveStationRetriesForever(Tick(s, nows[0]).status, nows[1..]);
    }
  }
}
