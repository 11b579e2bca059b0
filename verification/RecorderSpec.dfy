/** The recording manager as a state machine: one function per operation, plus a log of what it asked of the
    outside world. Answers from outside (opening, writing, finishing, reporting) and the clock are inputs. */
module RecorderSpec {
  import opened Octets
  import opened Wrappers
  import opened ActivityDetector
  import Text

  datatype Status = Status(connected: bool, frequency: string, system: string, channel: string, talkgroup: string,
                           signal: int, p25: string, squelchOpen: bool, mute: bool, avoided: bool, avoidKnown: bool,
                           activityAt: Time, updatedAt: Time)

  const NO_STATUS := Status(false, "", "", "", "", 0, "", false, false, false, false, 0, 0)
  const SECOND: nat := 1_000_000_000
  const MAX_STALENESS: nat := 3_000_000_000

  /** `IsTransmissionActive`. */
  predicate IsActive(s: Status) {
    && s.connected
    && !(s.activityAt != 0 && s.updatedAt != 0 && s.updatedAt > s.activityAt + MAX_STALENESS)
    && Text.Lower(Text.TrimSpace(s.p25)) != "data"
    && !s.mute
    && (s.squelchOpen || s.signal > 0)
  }

  function NormalizeFrequency(f: string): string {
    Text.TrimSpace(Text.TrimSuffix(Text.Lower(Text.TrimSpace(f)), "mhz"))
  }

  predicate EndsByAvoid(s: Status) { s.avoidKnown && s.avoided }

  predicate EndsByFrequency(started: Status, current: Status) {
    var a, b := NormalizeFrequency(started.frequency), NormalizeFrequency(current.frequency);
    a != "" && b != "" && a != b
  }

  datatype Trigger = NoTrigger | Telemetry | Manual | Mixed

  datatype Config = Config(outputDir: string, hangTime: nat, startDebounce: int, minAuto: nat, minNonSilent: nat,
                           threshold: int16, reports: bool)

  datatype Error = WriteFault | FinalizeFault | NoOutputDir | OpenFailed | ReportFailed

  /** The file of a clip: its directory and what its name is made from. */
  datatype Path = NoPath | Path(dir: string, at: Time, frequency: string, system: string, channel: string)

  datatype Clip = Clip(id: Time, startedAt: Time, endedAt: Time, info: Status, path: Path, trigger: Trigger, size: nat)

  /** A call made to a writer or to the OnFinalized callback; writers are numbered in the order they are opened. */
  datatype Call =
    | Opened(id: nat)
    | Wrote(id: nat, samples: seq<int16>, ok: bool)
    | Finished(id: nat, ok: bool)
    | Aborted(id: nat)
    | Reported(id: nat, clip: Clip, ok: bool)

  datatype Io = Io(now: Instant, open: bool, write: bool, finish: Option<nat>, report: bool)

  datatype Log = Log(count: nat, calls: seq<Call>, clips: seq<Clip>)

  datatype Rec = Rec(
    cfg: Config, det: Detection,
    writer: Option<nat>, path: Path, started: Time, lastSeen: Time, status: Status, info: Status, trigger: Trigger,
    manual: bool,
    pendingAt: Time, pendingStatus: Status, total: nat, nonSilent: nat, fault: Option<Error>, log: Log)

  type Answer = (Rec, Option<Error>)

  /** `NewManager`'s defaults. */
  function Normalize(outputDir: string, hang: int, debounce: int, minAuto: int, minNonSilent: int, threshold: int16,
                     reports: bool): Config {
    Config(outputDir, if hang <= 0 then DEFAULT_HANG else hang, debounce, if minAuto < 0 then 0 else minAuto,
           if minNonSilent < 0 then 0 else minNonSilent, if threshold <= 0 then 700 else threshold, reports)
  }

  function Init(cfg: Config): Rec {
    Rec(cfg, Fresh(cfg.hangTime), None, NoPath, 0, 0, NO_STATUS, NO_STATUS, NoTrigger, false, 0, NO_STATUS, 0, 0, None,
        Log(0, [], []))
  }

  // ----- Pieces shared by the operations -----

  function ResetDetector(s: Rec): Rec { s.(det := Fresh(s.cfg.hangTime)) }

  function ClearPending(s: Rec): Rec { s.(pendingAt := 0, pendingStatus := NO_STATUS) }

  function ResetClip(s: Rec): Rec {
    Rec(s.cfg, s.det, None, NoPath, 0, 0, s.status, NO_STATUS, NoTrigger, false, 0, NO_STATUS, 0, 0, s.fault, s.log)
  }

  function Called(s: Rec, c: Call): Rec { s.(log := s.log.(calls := s.log.calls + [c])) }

  function PathOf(cfg: Config, at: Time, status: Status): Path {
    Path(cfg.outputDir, at, status.frequency, status.system, status.channel)
  }

  function Begin(s: Rec, at: Time, status: Status, trigger: Trigger, io: Io): Answer {
    if s.cfg.outputDir == "" then (s, Some(NoOutputDir))
    else if !io.open then (s, Some(OpenFailed))
    else
      var id := s.log.count;
      (Rec(s.cfg, s.det, Some(id), PathOf(s.cfg, at, status), at, at, s.status, status,
           if trigger == NoTrigger then Telemetry else trigger, s.manual, 0, NO_STATUS, s.total, s.nonSilent, s.fault,
           Log(id + 1, s.log.calls + [Opened(id)], s.log.clips)), None)
  }

  function AbortWriter(s: Rec): Rec {
    ResetClip(if s.writer.Some? then Called(s, Aborted(s.writer.value)) else s)
  }

  /** Samples per second times seconds, in two parts as the source computes it. */
  function MinSamples(d: nat): nat { d / SECOND * 8000 + d % SECOND * 8000 / SECOND }

  predicate Suppress(s: Rec, at: Time) {
    var end := if at == 0 || at < s.started then s.started else at;
    && s.trigger == Telemetry
    && (s.cfg.minAuto > 0 || s.cfg.minNonSilent > 0)
    && (|| (s.cfg.minAuto > 0 && end - s.started < s.cfg.minAuto)
        || s.total == 0
        || (s.cfg.minNonSilent > 0 && s.nonSilent < MinSamples(s.cfg.minNonSilent)))
  }

  /** The clip a writer leaves when it finishes; its ID is its start time. */
  function ClipOf(s: Rec, at: Time, size: nat): Clip {
    Clip(s.started, s.started, at, s.info, s.path, if s.trigger == NoTrigger then Telemetry else s.trigger, size)
  }

  function Finalize(s: Rec, at: Time, io: Io): Answer {
    if s.writer.None? then (s, None)
    else if Suppress(s, at) then (AbortWriter(s), None)
    else
      var id := s.writer.value;
      match io.finish
      case None => (AbortWriter(Called(s, Finished(id, false))).(fault := Some(FinalizeFault)), Some(FinalizeFault))
      case Some(size) =>
        var clip := ClipOf(s, at, size);
        var s1 := ResetClip(Called(s, Finished(id, true)));
        var s2 := s1.(log := s1.log.(clips := s1.log.clips + [clip]));
        if !s.cfg.reports then (s2, None)
        else (Called(s2, Reported(id, clip, io.report)), if io.report then None else Some(ReportFailed))
  }

  /** Starts a clip on activity, at once or after the debounce time, dated from the first active sample. */
  function AutoStart(s: Rec, status: Status, active: bool, at: Instant, io: Io): Answer {
    if !active then (ResetDetector(ClearPending(s)), None)
    else if s.cfg.startDebounce <= 0 then
      var (b, err) := Begin(s, at, status, Telemetry, io);
      if err.Some? then (b, err) else (Activated(b, at), None)
    else
      var p := if s.pendingAt == 0 then s.(pendingAt := at, pendingStatus := status) else s;
      if at < p.pendingAt + p.cfg.startDebounce then (p, None)
      else
        var (b, err) := Begin(p, p.pendingAt, p.pendingStatus, Telemetry, io);
        if err.Some? then (b, err) else (Activated(ClearPending(b), at), None)
  }

  /** A fresh detector that has just seen activity. */
  function Activated(s: Rec, at: Instant): Rec {
    var r := ResetDetector(s);
    r.(det := Observe(r.det, true, at).0)
  }

  /** Ends the clip and starts the next one in the same step when the new frequency is active. */
  function Split(s: Rec, status: Status, active: bool, at: Instant, io: Io): Answer {
    var (f, err) := Finalize(s, at, io);
    if err.Some? then (f, err)
    else
      var r := ResetDetector(f);
      if !active then (r, None)
      else
        var (b, err2) := Begin(ClearPending(r), at, status, Telemetry, io);
        if err2.Some? then (b, err2) else (Activated(b, at), None)
  }

  // ----- Operations -----

  datatype Op =
    | UpdateTelemetry(status: Status, at: Time)
    | StartManual(status: Status, at: Time)
    | StopManual(at: Time)
    | PushPCM(samples: seq<int16>, at: Time)
    | Tick(at: Time)
    | Close
    | UpdateOutputDir(path: string)
    | UpdateAutoPolicy(hang: int, minAuto: int)

  function OnTelemetry(s0: Rec, status: Status, at: Instant, io: Io): Answer {
    var s := s0.(status := status);
    var active := IsActive(status);
    if s.writer.None? && !s.manual then AutoStart(s, status, active, at, io)
    else if s.writer.Some? && !s.manual && EndsByAvoid(status) then
      var (f, err) := Finalize(s, at, io);
      if err.Some? then (f, err) else (ResetDetector(f), None)
    else if s.writer.Some? && !s.manual && EndsByFrequency(s.info, status) then Split(s, status, active, at, io)
    else
      var (d, res) := Observe(s.det, active, at);
      var t := s.(det := d, trigger := if s.writer.Some? && active && s.trigger == Manual then Mixed else s.trigger);
      if t.manual || !res.shouldFinalize then (t, None) else Finalize(t, at, io)
  }

  function OnStartManual(s0: Rec, status: Status, at: Instant, io: Io): Answer {
    var s := ClearPending(s0.(status := status));
    var active := IsActive(status);
    if s.writer.None? then
      var (b, err) := Begin(s, at, status, if active then Mixed else Manual, io);
      if err.Some? then (b, err) else (b.(manual := true), None)
    else
      var t := if s.trigger == Telemetry then Mixed else s.trigger;
      (s.(manual := true, trigger := if active && t == Manual then Mixed else t), None)
  }

  function OnStopManual(s: Rec, at: Instant, io: Io): Answer { Finalize(s.(manual := false), at, io) }

  function Magnitude(v: int16): int16 { if v == -0x8000 then 0x7FFF else if v < 0 then -v else v }

  /** How many samples are at least as loud as the threshold. */
  function CountLoud(samples: seq<int16>, threshold: int16): (n: nat)
    ensures n <= |samples|
  {
    if samples == [] then 0
    else
      var k := |samples| - 1;
      CountLoud(samples[..k], threshold) + if Magnitude(samples[k]) >= threshold then 1 else 0
  }

  function OnPCM(s: Rec, samples: seq<int16>, at: Instant, io: Io): Answer {
    if s.writer.None? then (s, None)
    else
      var c := Called(s, Wrote(s.writer.value, samples, io.write));
      if !io.write then (AbortWriter(c).(fault := Some(WriteFault)), Some(WriteFault))
      else (c.(total := s.total + |samples|, nonSilent := s.nonSilent + CountLoud(samples, s.cfg.threshold),
               lastSeen := at), None)
  }

  function OnTick(s: Rec, at: Instant, io: Io): Answer {
    if s.writer.None? || s.manual || s.det.phase != Hang then (s, None)
    else
      var (d, res) := Observe(s.det, false, at);
      var t := s.(det := d);
      if res.shouldFinalize then Finalize(t, at, io) else (t, None)
  }

  function OnPolicy(s: Rec, hang: int, minAuto: int): Rec {
    var t := if hang > 0 then
               var u := s.(cfg := s.cfg.(hangTime := hang));
               if u.writer.None? then u.(det := Fresh(hang)) else u
             else s;
    t.(cfg := t.cfg.(minAuto := if minAuto < 0 then 0 else minAuto))
  }

  /** When an operation happens: its own time, or the clock's where it has none. */
  function When(op: Op, io: Io): Instant {
    if op.Close? || op.UpdateOutputDir? || op.UpdateAutoPolicy? then io.now else Resolve(op.at, io.now)
  }

  function Step(s: Rec, op: Op, io: Io): Answer {
    match op
    case UpdateOutputDir(path) =>
      var p := Text.TrimSpace(path);
      if p == "" then (s, Some(NoOutputDir)) else (s.(cfg := s.cfg.(outputDir := p)), None)
    case UpdateAutoPolicy(hang, minAuto) => (OnPolicy(s, hang, minAuto), None)
    case _ =>
      if s.fault.Some? then (s, s.fault)
      else
        var at := When(op, io);
        match op
        case UpdateTelemetry(status, _) => OnTelemetry(s, status, at, io)
        case StartManual(status, _) => OnStartManual(s, status, at, io)
        case StopManual(_) => OnStopManual(s, at, io)
        case PushPCM(samples, _) => OnPCM(s, samples, at, io)
        case Tick(_) => OnTick(s, at, io)
        case Close => Finalize(s, at, io)
  }

  datatype Event = Event(op: Op, io: Io)

  function RunFrom(s: Rec, es: seq<Event>): Rec {
    if es == [] then s else Step(RunFrom(s, es[..|es| - 1]), es[|es| - 1].op, es[|es| - 1].io).0
  }

  function Run(cfg: Config, es: seq<Event>): Rec { RunFrom(Init(cfg), es) }
}
