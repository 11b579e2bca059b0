/** internal/audio/recording/manager.go as an object, each operation proved against RecorderSpec. */
module Recorder {
  import opened Octets
  import opened Wrappers
  import opened ActivityDetector
  import opened RecorderSpec
  import Text

  class Manager {
    var cfg: Config
    var detector: Detector
    var writer: Option<nat>
    var path: Path
    var started: Time
    var lastSeen: Time
    var status: Status
    var clipInfo: Status
    var trigger: Trigger
    var manual: bool
    var autoStartPendingAt: Time
    var autoStartPendingStatus: Status
    var totalSamples: nat
    var nonSilentSamples: nat
    var faulted: Option<Error>
    var log: Log   // every call made to writers and to the callback

    ghost function State(): Rec
      reads this, detector
    {
      Rec(cfg, Detection(detector.hangTime, detector.phase, detector.hangUntil), writer, path, started, lastSeen,
          status, clipInfo, trigger, manual, autoStartPendingAt, autoStartPendingStatus,
          totalSamples, nonSilentSamples, faulted, log)
    }

    /** The detector is this manager's own. */
    twostate predicate Framed()
      reads this
    {
      detector == old(detector) || fresh(detector)
    }

    constructor (outputDir: string, hang: int, debounce: int, minAuto: int, minNonSilent: int, threshold: int16,
                 reports: bool)
      ensures State() == Init(Normalize(outputDir, hang, debounce, minAuto, minNonSilent, threshold, reports))
      ensures fresh(detector)
    {
      cfg := Normalize(outputDir, hang, debounce, minAuto, minNonSilent, threshold, reports);
      detector := new Detector(if hang <= 0 then DEFAULT_HANG else hang);
      writer, path, started, lastSeen, status, clipInfo := None, NoPath, 0, 0, NO_STATUS, NO_STATUS;
      trigger, manual, autoStartPendingAt, autoStartPendingStatus := NoTrigger, false, 0, NO_STATUS;
      totalSamples, nonSilentSamples, faulted, log := 0, 0, None, Log(0, [], []);
    }

    method UpdateTelemetry(status: Status, at: Time, io: Io) returns (err: Option<Error>)
      modifies this, detector
      ensures Framed()
      ensures (State(), err) == Step(old(State()), Op.UpdateTelemetry(status, at), io)
    {
      hide RecorderSpec.Finalize;
      hide RecorderSpec.Begin;
      hide AutoStart;
      hide IsActive;
      hide EndsByFrequency;
      hide Split;
      hide Observe;
      if faulted.Some? {
        return faulted;
      }
      var t := if at == 0 then io.now else at;
      this.status := status;
      var active := IsActive(status);
      if writer.None? && !manual {
        err := HandleAutoStart(status, active, t, io);
        return;
      }
      if writer.Some? && !manual {
        if EndsByAvoid(status) {
          err := Finalize(t, io);
          if err.Some? {
            return;
          }
          ResetDetectorLocked();
          return None;
        }
        if EndsByFrequency(clipInfo, status) {
          err := SplitClip(status, active, t, io);
          return;
        }
      }
      var res := detector.Evaluate(active, t, io.now);
      if writer.Some? && active && trigger == Manual {
        trigger := Mixed;
      }
      if manual {
        return None;
      }
      if res.shouldFinalize {
        err := Finalize(t, io);
        return;
      }
      err := None;
    }

    /** The frequency-change branch of UpdateTelemetry. */
    method SplitClip(status: Status, active: bool, at: Instant, io: Io) returns (err: Option<Error>)
      modifies this, detector
      ensures Framed()
      ensures (State(), err) == Split(old(State()), status, active, at, io)
    {
      hide RecorderSpec.Finalize;
      hide RecorderSpec.Begin;
      hide Observe;
      err := Finalize(at, io);
      if err.Some? {
        return;
      }
      ResetDetectorLocked();
      if active {
        ClearAutoStartPendingLocked();
        err := Begin(at, status, Telemetry, io);
        if err.Some? {
          return;
        }
        ResetDetectorLocked();
        var _ := detector.Evaluate(true, at, io.now);
      }
      err := None;
    }

    method HandleAutoStart(status: Status, active: bool, at: Instant, io: Io) returns (err: Option<Error>)
      modifies this, detector
      ensures Framed()
      ensures (State(), err) == AutoStart(old(State()), status, active, at, io)
    {
      hide RecorderSpec.Begin;
      if !active {
        ClearAutoStartPendingLocked();
        ResetDetectorLocked();
        return None;
      }
      if cfg.startDebounce <= 0 {
        err := Begin(at, status, Telemetry, io);
        if err.Some? {
          return;
        }
        ResetDetectorLocked();
        var _ := detector.Evaluate(true, at, io.now);
        return None;
      }
      if autoStartPendingAt == 0 {
        autoStartPendingAt := at;
        autoStartPendingStatus := status;
      }
      if at < autoStartPendingAt + cfg.startDebounce {
        return None;
      }
      var startAt, startStatus := autoStartPendingAt, autoStartPendingStatus;
      if startAt == 0 {
        startAt, startStatus := at, status;
      }
      err := Begin(startAt, startStatus, Telemetry, io);
      if err.Some? {
        return;
      }
      ClearAutoStartPendingLocked();
      ResetDetectorLocked();
      var _ := detector.Evaluate(true, at, io.now);
      err := None;
    }

    method StartManual(status: Status, at: Time, io: Io) returns (err: Option<Error>)
      modifies this
      ensures detector == old(detector)
      ensures (State(), err) == Step(old(State()), Op.StartManual(status, at), io)
    {
      hide RecorderSpec.Begin;
      hide RecorderSpec.Finalize;
      hide IsActive;
      hide OnTelemetry;
      hide OnPCM;
      hide OnTick;
      hide OnPolicy;
      if faulted.Some? {
        return faulted;
      }
      var t := if at == 0 then io.now else at;
      this.status := status;
      ClearAutoStartPendingLocked();
      assert State() == ClearPending(old(State()).(status := status));
      if writer.None? {
        var kind := Manual;
        if IsActive(status) {
          kind := Mixed;
        }
        err := Begin(t, status, kind, io);
        if err.Some? {
          return;
        }
        manual := true;
        return None;
      }
      manual := true;
      if trigger == Telemetry {
        trigger := Mixed;
      }
      if IsActive(status) && trigger == Manual {
        trigger := Mixed;
      }
      err := None;
    }

    method StopManual(at: Time, io: Io) returns (err: Option<Error>)
      modifies this
      ensures detector == old(detector)
      ensures (State(), err) == Step(old(State()), Op.StopManual(at), io)
    {
      if faulted.Some? {
        return faulted;
      }
      var t := if at == 0 then io.now else at;
      manual := false;
      if writer.None? {
        return None;
      }
      err := Finalize(t, io);
    }

    method PushPCM(samples: seq<int16>, at: Time, io: Io) returns (err: Option<Error>)
      modifies this
      ensures detector == old(detector)
      ensures (State(), err) == Step(old(State()), Op.PushPCM(samples, at), io)
    {
      hide RecorderSpec.AbortWriter;
      hide RecorderSpec.Finalize;
      hide Magnitude;
      hide CountLoud;
      hide OnTelemetry;
      hide OnStartManual;
      hide OnTick;
      hide OnPolicy;
      if faulted.Some? {
        return faulted;
      }
      var t := if at == 0 then io.now else at;
      if writer.None? {
        return None;
      }
      log := log.(calls := log.calls + [Wrote(writer.value, samples, io.write)]);
      if !io.write {
        AbortWriter();
        faulted := Some(WriteFault);
        return faulted;
      }
      totalSamples := totalSamples + |samples|;
      CountNonSilent(samples);
      lastSeen := t;
      err := None;
    }

    /** The loop of PushPCM over the samples. */
    method CountNonSilent(samples: seq<int16>)
      modifies this`nonSilentSamples
      ensures nonSilentSamples == old(nonSilentSamples) + CountLoud(samples, cfg.threshold)
    {
      var n := 0;
      while n < |samples|
        invariant 0 <= n <= |samples|
        invariant nonSilentSamples == old(nonSilentSamples) + CountLoud(samples[..n], cfg.threshold)
      {
        if Magnitude(samples[n]) >= cfg.threshold {
          nonSilentSamples := nonSilentSamples + 1;
        }
        assert samples[..n + 1][..n] == samples[..n];
        n := n + 1;
      }
      assert samples[..n] == samples;
    }

    method Tick(at: Time, io: Io) returns (err: Option<Error>)
      modifies this, detector
      ensures detector == old(detector)
      ensures (State(), err) == Step(old(State()), Op.Tick(at), io)
    {
      if faulted.Some? {
        return faulted;
      }
      var t := if at == 0 then io.now else at;
      if writer.None? {
        return None;
      }
      if manual {
        return None;
      }
      if detector.phase == Hang {
        var res := detector.Evaluate(false, t, io.now);
        if res.shouldFinalize {
          err := Finalize(t, io);
          return;
        }
      }
      err := None;
    }

    method Close(io: Io) returns (err: Option<Error>)
      modifies this
      ensures detector == old(detector)
      ensures (State(), err) == Step(old(State()), Op.Close, io)
    {
      if faulted.Some? {
        return faulted;
      }
      if writer.None? {
        return None;
      }
      err := Finalize(io.now, io);
    }

    method UpdateOutputDir(path: string, io: Io) returns (err: Option<Error>)
      modifies this`cfg
      ensures (State(), err) == Step(old(State()), Op.UpdateOutputDir(path), io)
    {
      var p := Text.TrimSpace(path);
      if p == "" {
        return Some(NoOutputDir);
      }
      cfg := cfg.(outputDir := p);
      err := None;
    }

    method UpdateAutoPolicy(hangTime: int, minAutoDuration: int, io: Io)
      modifies this
      ensures Framed()
      ensures State() == Step(old(State()), Op.UpdateAutoPolicy(hangTime, minAutoDuration), io).0
    {
      if hangTime > 0 {
        cfg := cfg.(hangTime := hangTime);
        if writer.None? {
          detector := new Detector(hangTime);
        }
      }
      var m := minAutoDuration;
      if m < 0 {
        m := 0;
      }
      cfg := cfg.(minAuto := m);
    }

    method Begin(at: Time, status: Status, kind: Trigger, io: Io) returns (err: Option<Error>)
      modifies this`writer, this`path, this`log, this`started, this`lastSeen, this`clipInfo, this`trigger,
        this`autoStartPendingAt, this`autoStartPendingStatus
      ensures detector == old(detector)
      ensures (State(), err) == RecorderSpec.Begin(old(State()), at, status, kind, io)
    {
      if cfg.outputDir == "" {
        return Some(NoOutputDir);
      }
      if !io.open {
        return Some(OpenFailed);
      }
      StartClip(at, status, kind);
      err := None;
    }

    /** The rest of `begin` once the writer is open. */
    method StartClip(at: Time, status: Status, kind: Trigger)
      modifies this`writer, this`path, this`log, this`started, this`lastSeen, this`clipInfo, this`trigger,
        this`autoStartPendingAt, this`autoStartPendingStatus
      ensures writer == Some(old(log.count))
      ensures log == Log(old(log.count) + 1, old(log.calls) + [Opened(old(log.count))], old(log.clips))
      ensures path == PathOf(cfg, at, status) && started == lastSeen == at && clipInfo == status
      ensures trigger == (if kind == NoTrigger then Telemetry else kind)
      ensures autoStartPendingAt == 0 && autoStartPendingStatus == NO_STATUS
    {
      writer := Some(log.count);
      log := Log(log.count + 1, log.calls + [Opened(log.count)], log.clips);
      path := PathOf(cfg, at, status);
      started, lastSeen, clipInfo := at, at, status;
      ClearAutoStartPendingLocked();
      trigger := kind;
      if trigger == NoTrigger {
        trigger := Telemetry;
      }
    }

    method Finalize(at: Time, io: Io) returns (err: Option<Error>)
      modifies this
      ensures detector == old(detector)
      ensures (State(), err) == RecorderSpec.Finalize(old(State()), at, io)
    {
      if writer.None? {
        return None;
      }
      var suppress := ShouldSuppressAuto(at);
      if suppress {
        AbortWriter();
        return None;
      }
      var id := writer.value;
      log := log.(calls := log.calls + [Finished(id, io.finish.Some?)]);
      if io.finish.None? {
        AbortWriter();
        faulted := Some(FinalizeFault);
        return faulted;
      }
      var kind := trigger;
      if kind == NoTrigger {
        kind := Telemetry;
      }
      var meta := Clip(started, started, at, clipInfo, path, kind, io.finish.value);
      ResetClipLocked();
      log := log.(clips := log.clips + [meta]);
      if cfg.reports {
        log := log.(calls := log.calls + [Reported(id, meta, io.report)]);
        if !io.report {
          return Some(ReportFailed);
        }
      }
      err := None;
    }

    method ShouldSuppressAuto(at: Time) returns (suppress: bool)
      ensures suppress == Suppress(State(), at)
    {
      if trigger != Telemetry {
        return false;
      }
      if !(cfg.minAuto > 0 || cfg.minNonSilent > 0) {
        return false;
      }
      var end := at;
      if end == 0 || end < started {
        end := started;
      }
      if cfg.minAuto > 0 && end - started < cfg.minAuto {
        return true;
      }
      if totalSamples == 0 {
        return true;
      }
      if cfg.minNonSilent <= 0 {
        return false;
      }
      var least := cfg.minNonSilent / SECOND * 8000;
      least := least + cfg.minNonSilent % SECOND * 8000 / SECOND;
      suppress := nonSilentSamples < least;
    }

    method AbortWriter()
      modifies this
      ensures detector == old(detector)
      ensures State() == RecorderSpec.AbortWriter(old(State()))
    {
      if writer.Some? {
        log := log.(calls := log.calls + [Aborted(writer.value)]);
      }
      ResetClipLocked();
    }

    method ResetClipLocked()
      modifies this`writer, this`path, this`started, this`lastSeen, this`clipInfo, this`trigger, this`manual,
        this`autoStartPendingAt, this`autoStartPendingStatus, this`totalSamples, this`nonSilentSamples
      ensures writer == None && path == NoPath && started == lastSeen == 0 && clipInfo == NO_STATUS
      ensures trigger == NoTrigger && !manual
      ensures autoStartPendingAt == 0 && autoStartPendingStatus == NO_STATUS && totalSamples == nonSilentSamples == 0
    {
      writer, path := None, NoPath;
      started, lastSeen, clipInfo := 0, 0, NO_STATUS;
      trigger, manual := NoTrigger, false;
      ClearAutoStartPendingLocked();
      totalSamples, nonSilentSamples := 0, 0;
    }

    method ClearAutoStartPendingLocked()
      modifies this`autoStartPendingAt, this`autoStartPendingStatus
      ensures autoStartPendingAt == 0 && autoStartPendingStatus == NO_STATUS
    {
      autoStartPendingAt, autoStartPendingStatus := 0, NO_STATUS;
    }

    method ResetDetectorLocked()
      modifies this`detector
      ensures fresh(detector)
      ensures detector.State() == Fresh(cfg.hangTime)
    {
      detector := new Detector(cfg.hangTime);
    }
  }
}
