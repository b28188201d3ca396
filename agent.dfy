/**
 * The agent's shared state and its status handler. The two mutex-guarded
 * regions of the agent (the speed store and the measurement guard) are the
 * fields of one sequential class; each locked region is one method call.
 * Ghost fields log what the agent does: every speed handed to the store,
 * every row inserted into the history table, every measurement start and
 * every measurement finish.
 */
module Agent {
  import opened Probe
  import opened Measure
  import opened Dedup

  /** One row of the history table. */
  datatype HistoryRow = HistoryRow(ts: int, online: bool, latency: real, speed: real, version: string)

  /** The row inserted for a measured speed: always online, latency zero, the build version. */
  predicate RowShape(row: HistoryRow) {
    row.online && row.latency == 0.0 && row.version == Version
  }

  /** The row the store inserts for `speed` at clock reading `now`. */
  function Row(speed: real, now: int): (row: HistoryRow)
    ensures RowShape(row) && row.speed == speed && row.ts == now
  {
    HistoryRow(now, true, 0.0, speed, Version)
  }

  /** The speed column of a list of rows. */
  function Speeds(rows: seq<HistoryRow>): (r: seq<real>)
    ensures |r| == |rows|
    ensures forall i :: 0 <= i < |rows| ==> r[i] == rows[i].speed
  {
    if rows == [] then [] else Speeds(rows[..|rows| - 1]) + [rows[|rows| - 1].speed]
  }

  /** Every start after the first comes a full cooldown after the finish before it. */
  ghost predicate Spaced(starts: seq<int>, finishes: seq<int>) {
    forall i :: 0 < i < |starts| && i - 1 < |finishes| ==> starts[i] - finishes[i - 1] >= Cooldown
  }

  /** A finish appended while a measurement is in flight keeps the spacing. */
  lemma SpacedAfterFinish(starts: seq<int>, finishes: seq<int>, now: int)
    requires |starts| == |finishes| + 1 && Spaced(starts, finishes)
    ensures Spaced(starts, finishes + [now])
  {
  }

  /** A start appended a full cooldown after the last finish keeps the spacing. */
  lemma SpacedAfterStart(starts: seq<int>, finishes: seq<int>, now: int)
    requires |starts| == |finishes| && Spaced(starts, finishes)
    requires finishes != [] ==> now - finishes[|finishes| - 1] >= Cooldown
    ensures Spaced(starts + [now], finishes)
  {
  }

  class Monitor {
    // the speed store
    var lastSpeed: real
    var lastRecordedSpeed: real
    // the measurement guard
    var measuring: bool
    var lastMeasurementTime: Instant

    /** Every speed passed to the store, in order. */
    ghost var updates: seq<real>
    /** Every row inserted into the history table, in order. */
    ghost var history: seq<HistoryRow>
    /** Clock readings of every measurement start and finish, in order. */
    ghost var starts: seq<int>
    ghost var finishes: seq<int>

    /** The speed store agrees with its update log, and the history follows the de-duplication rule. */
    ghost predicate SpeedValid()
      reads this`lastSpeed, this`lastRecordedSpeed, this`updates, this`history
    {
      && lastSpeed == LastOr(0.0, updates)
      && lastRecordedSpeed == RecordedAfter(0.0, updates)
      && Speeds(history) == Written(0.0, updates)
      && forall i :: 0 <= i < |history| ==> RowShape(history[i])
    }

    /**
     * Starts and finishes alternate, so at most one measurement is in flight;
     * every start after the first comes a full cooldown after the previous finish.
     */
    ghost predicate GuardValid()
      reads this`measuring, this`lastMeasurementTime, this`starts, this`finishes
    {
      && |finishes| <= |starts| <= |finishes| + 1
      && (measuring <==> |starts| == |finishes| + 1)
      && lastMeasurementTime == (if finishes == [] then Never else At(finishes[|finishes| - 1]))
      && Spaced(starts, finishes)
    }

    /** Each finished measurement handed exactly one speed to the store. */
    ghost predicate Valid()
      reads this`lastSpeed, this`lastRecordedSpeed, this`updates, this`history
      reads this`measuring, this`lastMeasurementTime, this`starts, this`finishes
    {
      SpeedValid() && GuardValid() && |updates| == |finishes|
    }

    /** The process start: Go's zero values for every shared variable. */
    constructor ()
      ensures Valid()
      ensures lastSpeed == 0.0 && lastRecordedSpeed == 0.0
      ensures !measuring && lastMeasurementTime == Never
      ensures updates == [] && history == [] && starts == [] && finishes == []
    {
      lastSpeed, lastRecordedSpeed := 0.0, 0.0;
      measuring, lastMeasurementTime := false, Never;
      updates, history, starts, finishes := [], [], [], [];
    }

    /** The read-locked region of the status handler: the most recent speed, zero before any. */
    method ReadSpeed() returns (speed: real)
      requires SpeedValid()
      ensures speed == LastOr(0.0, updates)
    {
      speed := lastSpeed;
    }

    /**
     * Stores `speed` unconditionally and, unless it and the last recorded
     * speed are both zero, records it and inserts a history row at `now`.
     */
    method UpdateLastSpeed(speed: real, now: int)
      requires SpeedValid()
      modifies this
      ensures SpeedValid()
      ensures lastSpeed == speed
      ensures updates == old(updates) + [speed]
      ensures lastRecordedSpeed == if ShouldWrite(speed, old(lastRecordedSpeed)) then speed else old(lastRecordedSpeed)
      ensures history == old(history) + if ShouldWrite(speed, old(lastRecordedSpeed)) then [Row(speed, now)] else []
      ensures measuring == old(measuring) && lastMeasurementTime == old(lastMeasurementTime)
      ensures starts == old(starts) && finishes == old(finishes)
    {
      lastSpeed := speed;
      var shouldWrite := ShouldWrite(speed, lastRecordedSpeed);
      if shouldWrite {
        lastRecordedSpeed := speed;
      }
      ghost var p := updates;
      updates := updates + [speed];
      assert updates[..|updates| - 1] == p;
      if shouldWrite {
        history := history + [Row(speed, now)];
      }
    }

    /**
     * The guarded check-and-set at the head of a measurement request: starts
     * a measurement exactly when the gate is open, and otherwise changes nothing.
     */
    method TryStart(now: int) returns (started: bool)
      requires Valid()
      modifies this
      ensures Valid()
      ensures started == MayStart(old(measuring), old(lastMeasurementTime), now)
      ensures started ==> measuring && starts == old(starts) + [now]
      ensures !started ==> measuring == old(measuring) && starts == old(starts)
      ensures lastMeasurementTime == old(lastMeasurementTime) && finishes == old(finishes)
      ensures lastSpeed == old(lastSpeed) && lastRecordedSpeed == old(lastRecordedSpeed)
      ensures updates == old(updates) && history == old(history)
    {
      if measuring || (lastMeasurementTime.At? && now - lastMeasurementTime.t < Cooldown) {
        return false;
      }
      SpacedAfterStart(starts, finishes, now);
      measuring := true;
      starts := starts + [now];
      started := true;
    }

    /**
     * The end of a measurement body, on every path: the measured speed (zero
     * on failure) goes to the store once, then the guard is released and the
     * cooldown restarts at `now`.
     */
    method Finish(outcome: Download, now: int)
      requires Valid() && measuring && WellFormed(outcome)
      modifies this
      ensures Valid()
      ensures !measuring && lastMeasurementTime == At(now)
      ensures lastSpeed == MeasuredSpeed(outcome)
      ensures updates == old(updates) + [MeasuredSpeed(outcome)]
      ensures history == old(history) +
        if ShouldWrite(MeasuredSpeed(outcome), old(lastRecordedSpeed)) then [Row(MeasuredSpeed(outcome), now)] else []
      ensures starts == old(starts) && finishes == old(finishes) + [now]
    {
      var speed := MeasuredSpeed(outcome);
      UpdateLastSpeed(speed, now);
      SpacedAfterFinish(starts, finishes, now);
      measuring := false;
      lastMeasurementTime := At(now);
      finishes := finishes + [now];
    }

    /**
     * One status request: probe connectivity, report the stored speed, and
     * only when online ask the gate to start a measurement.
     */
    method HandleStatus(dial: Dial, now: int) returns (status: Status, started: bool)
      requires Valid() && (dial.Connected? ==> dial.elapsedMs >= 0.0)
      modifies this
      ensures Valid()
      ensures status == CheckConnectivity(dial, now).(downloadSpeedMbps := old(lastSpeed))
      ensures started ==> status.online
      ensures status.online ==> started == MayStart(old(measuring), old(lastMeasurementTime), now)
      ensures started ==> measuring && starts == old(starts) + [now]
      ensures !started ==> measuring == old(measuring) && starts == old(starts)
      ensures lastMeasurementTime == old(lastMeasurementTime) && finishes == old(finishes)
      ensures lastSpeed == old(lastSpeed) && lastRecordedSpeed == old(lastRecordedSpeed)
      ensures updates == old(updates) && history == old(history)
    {
      status := CheckConnectivity(dial, now);
      var speed := ReadSpeed();
      status := status.(downloadSpeedMbps := speed, timestamp := now, version := Version);
      started := false;
      if status.online {
        started := TryStart(now);
      }
    }
  }

  /**
   * What the invariant gives about any reachable agent: the recorded speed
   * equals the last stored speed and the speed of the last history row (zero
   * before any), no two neighbouring history rows are zero, the first row is
   * non-zero, and every row is online with latency zero and the build version.
   */
  lemma HistoryLaws(m: Monitor)
    requires m.Valid()
    ensures m.lastRecordedSpeed == m.lastSpeed
    ensures NoAdjacentZeros(Speeds(m.history))
    ensures m.history != [] ==> m.history[0].speed != 0.0
    ensures m.lastRecordedSpeed == LastOr(0.0, Speeds(m.history))
    ensures forall i :: 0 <= i < |m.history| ==> RowShape(m.history[i])
  {
    RecordedIsLastUpdate(0.0, m.updates);
    RecordedIsLastRow(0.0, m.updates);
    NoZeroRuns(m.updates);
    if m.history != [] {
      assert Speeds(m.history)[0] == m.history[0].speed;
    }
  }

  /** A measurement that finished at `t` blocks any start before `t` plus the cooldown. */
  lemma RestartBlockedDuringCooldown(m: Monitor, t: int, now: int)
    requires m.Valid() && m.finishes != [] && m.finishes[|m.finishes| - 1] == t
    requires now - t < Cooldown
    ensures !MayStart(m.measuring, m.lastMeasurementTime, now)
  {
  }

  /**
   * An online agent's first status request starts a measurement; a second
   * request one second later is turned away by the gate.
   */
  method TwoRequestsOneSecondApart() returns (first: bool, second: bool)
    ensures first && !second
  {
    var m := new Monitor();
    var s1, s2;
    s1, first := m.HandleStatus(Connected(12.0), 0);
    s2, second := m.HandleStatus(Connected(12.0), Second);
  }

  /** An offline request never triggers a measurement, even with the gate open. */
  method OfflineRequestDoesNotStart() returns (online: bool, started: bool, speed: real)
    ensures !online && !started && speed == 0.0
  {
    var m := new Monitor();
    var s;
    s, started := m.HandleStatus(DialFailed, 0);
    online, speed := s.online, s.downloadSpeedMbps;
  }

  /**
   * After a measurement finishes at ten seconds, a request 29 seconds later
   * is rejected and one 30 seconds later starts the next measurement, which
   * reports the 40 Mbps the first one measured.
   */
  method CooldownAfterFinish() returns (early: bool, onTime: bool, reported: real)
    ensures !early && onTime && reported == 40.0
  {
    var m := new Monitor();
    var s, started := m.HandleStatus(Connected(5.0), 0);
    m.Finish(Received(5_000_000, 1.0), 10 * Second);
    s, early := m.HandleStatus(Connected(5.0), 39 * Second);
    s, onTime := m.HandleStatus(Connected(5.0), 40 * Second);
    reported := s.downloadSpeedMbps;
  }
}
