/** What each operation of the recording manager does to the clip, said outright: the calls made to writers, the clip
    kept, the fields afterwards, and the answer. */
module RecorderOutcomes {
  import opened ActivityDetector
  import opened Octets
  import opened RecorderInvariant
  import opened RecorderSpec
  import opened Wrappers
  import RecorderTiming
  import RecorderWriters
  import Text

  // ----- How a clip ends -----

  /** No clip is open, nothing is pending, and all that belonged to the clip is reset. */
  ghost predicate Cleared(s: Rec, t: Rec) {
    && t.writer.None? && t.path == NoPath && t.started == 0 && t.lastSeen == 0 && t.info == NO_STATUS
    && t.trigger == NoTrigger && !t.manual && t.pendingAt == 0 && t.pendingStatus == NO_STATUS
    && t.total == 0 && t.nonSilent == 0 && t.cfg == s.cfg && t.status == s.status
  }

  /** The writer has finished: one clip more, from its start to `at`, as it was opened, and reported if wanted. */
  ghost predicate ClipKept(s: Rec, at: Time, size: nat, reported: bool, t: Rec, err: Option<Error>)
    requires s.writer.Some?
  {
    var id := s.writer.value;
    var clip := Clip(s.started, s.started, at, s.info, s.path, s.trigger, size);
    && Cleared(s, t) && t.fault == s.fault
    && t.log == Log(s.log.count,
                    s.log.calls + if s.cfg.reports then [Finished(id, true), Reported(id, clip, reported)]
                                  else [Finished(id, true)],
                    s.log.clips + [clip])
    && err == if s.cfg.reports && !reported then Some(ReportFailed) else None
  }

  /** The writer has been aborted without a fault. */
  ghost predicate ClipDropped(s: Rec, t: Rec, err: Option<Error>)
    requires s.writer.Some?
  {
    && Cleared(s, t) && t.fault == s.fault && err == None
    && t.log == s.log.(calls := s.log.calls + [Aborted(s.writer.value)])
  }

  /** The writer could not finish: it is aborted, and the manager is at fault from now on. */
  ghost predicate FinishBroken(s: Rec, t: Rec, err: Option<Error>)
    requires s.writer.Some?
  {
    var id := s.writer.value;
    && Cleared(s, t) && t.fault == err == Some(FinalizeFault)
    && t.log == s.log.(calls := s.log.calls + [Finished(id, false), Aborted(id)])
  }

  /** Long enough, not empty and loud enough, as far as configured; only an automatic clip need be. */
  predicate WorthKeeping(s: Rec, at: Time) {
    var length := if at < s.started then 0 else at - s.started;
    || s.trigger != Telemetry
    || (s.cfg.minAuto == 0 && s.cfg.minNonSilent == 0)
    || (length >= s.cfg.minAuto && s.total > 0 && s.nonSilent >= s.cfg.minNonSilent * 8000 / 1_000_000_000)
  }

  ghost predicate ClipEnds(s: Rec, at: Time, io: Io, t: Rec, err: Option<Error>)
    requires s.writer.Some?
  {
    if !WorthKeeping(s, at) then ClipDropped(s, t, err)
    else if io.finish.Some? then ClipKept(s, at, io.finish.value, io.report, t, err)
    else FinishBroken(s, t, err)
  }

  lemma FinalizeEnds(s: Rec, at: Time, io: Io)
    requires s.writer.Some? && s.trigger != NoTrigger && s.fault.None?
    ensures var (t, err) := Finalize(s, at, io); ClipEnds(s, at, io, t, err) && t.det == s.det
  {
    RecorderTiming.ThresholdExact(s.cfg.minNonSilent);
    var id := s.writer.value;
    assert (s.log.calls + [Finished(id, false)]) + [Aborted(id)] == s.log.calls + [Finished(id, false), Aborted(id)];
    if io.finish.Some? {
      var c := Reported(id, ClipOf(s, at, io.finish.value), io.report);
      assert (s.log.calls + [Finished(id, true)]) + [c] == s.log.calls + [Finished(id, true), c];
    }
  }

  // ----- How a clip begins -----

  /** A writer is open for a clip that starts at `at`. */
  ghost predicate ClipBegins(s: Rec, at: Time, status: Status, trigger: Trigger, t: Rec) {
    && t.writer == Some(s.log.count)
    && t.log == Log(s.log.count + 1, s.log.calls + [Opened(s.log.count)], s.log.clips)
    && t.started == t.lastSeen == at && t.info == status && t.trigger == trigger
    && t.path == Path(s.cfg.outputDir, at, status.frequency, status.system, status.channel)
    && t.pendingAt == 0 && t.pendingStatus == NO_STATUS && t.total == 0 && t.nonSilent == 0
    && t.cfg == s.cfg && t.status == s.status && t.fault == s.fault
  }

  predicate CanOpen(s: Rec, io: Io) { s.cfg.outputDir != "" && io.open }

  /** Why a writer could not be opened. */
  function OpenError(s: Rec): Error { if s.cfg.outputDir == "" then NoOutputDir else OpenFailed }

  /** A detector that has just seen activity. */
  predicate Listening(s: Rec) {
    s.det.phase == Active && s.det.hangUntil == 0
    && s.det.hangTime == if s.cfg.hangTime == 0 then 10_000_000_000 else s.cfg.hangTime
  }

  predicate Resting(s: Rec) {
    s.det.phase == Idle && s.det.hangUntil == 0
    && s.det.hangTime == if s.cfg.hangTime == 0 then 10_000_000_000 else s.cfg.hangTime
  }

  // ----- Stopping -----

  /** StopManual and Close end the open clip at their time, automatic or manual, and do nothing without one. */
  lemma StopEndsClip(s: Rec, op: Op, io: Io)
    requires ClipConsistent(s) && s.fault.None? && (op.StopManual? || op.Close?)
    ensures var (t, err) := Step(s, op, io);
      if s.writer.None? then t == s && err == None
      else ClipEnds(s, When(op, io), io, t, err) && t.det == s.det
  {
    if s.writer.Some? {
      FinalizeEnds(s.(manual := false), When(op, io), io);
      FinalizeEnds(s, When(op, io), io);
    }
  }

  /** A tick ends an automatic clip whose hang time is over, and otherwise changes nothing. */
  lemma TickEndsClip(s: Rec, at: Time, io: Io)
    requires ClipConsistent(s) && s.fault.None?
    ensures var (t, err) := Step(s, Op.Tick(at), io); var now := Resolve(at, io.now);
      if s.writer.Some? && !s.manual && s.det.phase == Hang && now >= s.det.hangUntil
      then ClipEnds(s, now, io, t, err) && t.det == s.det.(phase := Idle, hangUntil := 0)
      else t == s && err == None
  {
    if s.writer.Some? {
      FinalizeEnds(s.(det := Observe(s.det, false, Resolve(at, io.now)).0), Resolve(at, io.now), io);
    }
  }

  // ----- Telemetry while a clip is open -----

  /** The clip has ended, and the detector starts anew unless ending it went wrong. */
  ghost predicate EndsAnew(s: Rec, at: Time, io: Io, t: Rec, err: Option<Error>)
    requires s.writer.Some?
  {
    exists m: Rec, r: Option<Error> :: (ClipEnds(s, at, io, m, r) && m.det == s.det && err == r
      && if r.Some? then t == m else Resting(t) && t == m.(det := t.det))
  }

  /** The clip has ended; unless that went wrong, an active update begins the next one in the same step. */
  ghost predicate EndsAndBegins(s: Rec, status: Status, at: Time, io: Io, t: Rec, err: Option<Error>)
    requires s.writer.Some?
  {
    exists m: Rec, r: Option<Error> ::
      (ClipEnds(s, at, io, m, r) && m.det == s.det && Follows(m, r, status, at, io, t, err))
  }

  ghost predicate Follows(m: Rec, r: Option<Error>, status: Status, at: Time, io: Io, t: Rec, err: Option<Error>) {
    if r.Some? then t == m && err == r
    else if !IsActive(status) then Resting(t) && t == m.(det := t.det) && err == None
    else if CanOpen(m, io) then ClipBegins(m, at, status, Telemetry, t) && !t.manual && Listening(t) && err == None
    else Resting(t) && t == m.(det := t.det) && err == Some(OpenError(m))
  }

  /** An avoided channel ends an automatic clip. */
  lemma AvoidEndsClip(s: Rec, status: Status, at: Time, io: Io)
    requires ClipConsistent(s) && s.fault.None? && s.writer.Some? && !s.manual
    requires status.avoidKnown && status.avoided
    ensures var (t, err) := Step(s, Op.UpdateTelemetry(status, at), io);
      EndsAnew(s.(status := status), Resolve(at, io.now), io, t, err)
  {
    hide IsActive;
    hide EndsByFrequency;
    hide Finalize;
    hide ClipEnds;
    var now, u := Resolve(at, io.now), s.(status := status);
    FinalizeEnds(u, now, io);
    var (m, r) := Finalize(u, now, io);
    assert ClipEnds(u, now, io, m, r) && m.det == u.det;
  }

  /** Another frequency ends an automatic clip and, where there is activity on it, begins the next one at that very
      moment: no clip is lost in between. */
  lemma FrequencySplitsClip(s: Rec, status: Status, at: Time, io: Io)
    requires ClipConsistent(s) && s.fault.None? && s.writer.Some? && !s.manual
    requires !(status.avoidKnown && status.avoided) && EndsByFrequency(s.info, status)
    ensures var (t, err) := Step(s, Op.UpdateTelemetry(status, at), io);
      EndsAndBegins(s.(status := status), status, Resolve(at, io.now), io, t, err)
  {
    hide IsActive;
    hide EndsByFrequency;
    hide Finalize;
    hide ClipEnds;
    var now, u := Resolve(at, io.now), s.(status := status);
    FinalizeEnds(u, now, io);
    var (m, r) := Finalize(u, now, io);
    ClearedAfter(u, now, io, m, r);
    SplitFollows(u, m, r, status, now, io);
    assert ClipEnds(u, now, io, m, r) && m.det == u.det;
  }

  lemma ClearedAfter(s: Rec, at: Time, io: Io, t: Rec, err: Option<Error>)
    requires s.writer.Some? && ClipEnds(s, at, io, t, err)
    ensures Cleared(s, t)
  {
  }

  lemma SplitFollows(u: Rec, m: Rec, r: Option<Error>, status: Status, at: Instant, io: Io)
    requires u.writer.Some? && (m, r) == Finalize(u, at, io) && Cleared(u, m)
    ensures var (t, err) := Split(u, status, IsActive(status), at, io); Follows(m, r, status, at, io, t, err)
  {
    hide IsActive;
    hide Finalize;
  }

  /** Any other update: the detector sees it, and an automatic clip ends when its hang time is over. A manual clip stays
      open whatever comes, and an active sample makes it mixed. */
  lemma TelemetryOnClip(s: Rec, status: Status, at: Time, io: Io)
    requires ClipConsistent(s) && s.fault.None? && s.writer.Some?
    requires s.manual || (!(status.avoidKnown && status.avoided) && !EndsByFrequency(s.info, status))
    ensures var (t, err) := Step(s, Op.UpdateTelemetry(status, at), io); var now := Resolve(at, io.now);
      if !s.manual && !IsActive(status) && s.det.phase == Hang && now >= s.det.hangUntil
      then ClipEnds(s.(status := status), now, io, t, err) && t.det == s.det.(phase := Idle, hangUntil := 0)
      else err == None && t == s.(status := status, det := t.det, trigger := t.trigger)
           && t.det == Observe(s.det, IsActive(status), now).0
           && t.trigger == if s.trigger == Manual && IsActive(status) then Mixed else s.trigger
  {
    hide IsActive;
    hide EndsByFrequency;
    var now := Resolve(at, io.now);
    FinalizeEnds(s.(status := status, det := Observe(s.det, IsActive(status), now).0), now, io);
  }

  // ----- Starting -----

  /** Telemetry without a clip: inactivity gives up a pending start; activity opens a clip at once or, with a debounce
      time, when that has passed since the activity began, as it was then. A failing open leaves everything pending. */
  lemma TelemetryWithoutClip(s: Rec, status: Status, at: Time, io: Io)
    requires ClipConsistent(s) && s.fault.None? && s.writer.None?
    ensures var (t, err) := Step(s, Op.UpdateTelemetry(status, at), io); var now := Resolve(at, io.now);
      var u := s.(status := status);
      var p := if s.pendingAt == 0 then u.(pendingAt := now, pendingStatus := status) else u;
      if !IsActive(status) then
        Resting(t) && t == u.(pendingAt := 0, pendingStatus := NO_STATUS, det := t.det) && err == None
      else if s.cfg.startDebounce <= 0 then
        if CanOpen(s, io)
        then ClipBegins(u, now, status, Telemetry, t) && !t.manual && Listening(t) && err == None
        else t == u && err == Some(OpenError(s))
      else if now < p.pendingAt + s.cfg.startDebounce then t == p && err == None
      else if CanOpen(s, io)
      then ClipBegins(u, p.pendingAt, p.pendingStatus, Telemetry, t) && !t.manual && Listening(t) && err == None
      else t == p && err == Some(OpenError(s))
  {
    hide IsActive;
    hide EndsByFrequency;
  }

  /** A manual start opens a clip, or takes over the open one, which no longer counts as automatic. */
  lemma ManualStart(s: Rec, status: Status, at: Time, io: Io)
    requires ClipConsistent(s) && s.fault.None?
    ensures var (t, err) := Step(s, Op.StartManual(status, at), io); var now := Resolve(at, io.now);
      var u := s.(status := status, pendingAt := 0, pendingStatus := NO_STATUS);
      if s.writer.Some? then
        t == u.(manual := true, trigger := if s.trigger == Manual && !IsActive(status) then Manual else Mixed)
        && err == None
      else if CanOpen(s, io) then
        ClipBegins(u, now, status, if IsActive(status) then Mixed else Manual, t) && t.manual && t.det == s.det
        && err == None
      else t == u && err == Some(OpenError(s))
  {
    hide IsActive;
  }

  // ----- PCM -----

  /** How loud a sample is; the one value without a positive counterpart counts as the loudest. */
  function Loudness(v: int): int { if v == -0x8000 then 0x7FFF else if v < 0 then -v else v }

  ghost function LoudAt(samples: seq<int16>, threshold: int): set<nat> {
    set i: nat | i < |samples| && Loudness(samples[i]) >= threshold
  }

  lemma {:induction false} CountsLoud(samples: seq<int16>, threshold: int16)
    ensures CountLoud(samples, threshold) == |LoudAt(samples, threshold)|
  {
    if samples != [] {
      var k := |samples| - 1;
      CountsLoud(samples[..k], threshold);
      var before := LoudAt(samples[..k], threshold);
      if Loudness(samples[k]) >= threshold {
        assert LoudAt(samples, threshold) == before + {k};
      } else {
        assert LoudAt(samples, threshold) == before;
      }
    }
  }

  /** PCM without a clip is ignored; otherwise it is written and counted, or its failing write ends everything. */
  lemma PushWrites(s: Rec, samples: seq<int16>, at: Time, io: Io)
    requires ClipConsistent(s) && s.fault.None?
    ensures var (t, err) := Step(s, Op.PushPCM(samples, at), io);
      if s.writer.None? then t == s && err == None
      else
        var id := s.writer.value;
        if io.write then
          err == None
          && t == s.(total := s.total + |samples|, nonSilent := s.nonSilent + |LoudAt(samples, s.cfg.threshold)|,
                     lastSeen := Resolve(at, io.now), log := s.log.(calls := s.log.calls + [Wrote(id, samples, true)]))
        else
          Cleared(s, t) && t.det == s.det && t.fault == err == Some(WriteFault)
          && t.log == s.log.(calls := s.log.calls + [Wrote(id, samples, false), Aborted(id)])
  {
    hide LoudAt;
    hide CountLoud;
    CountsLoud(samples, s.cfg.threshold);
    if s.writer.Some? {
      var id := s.writer.value;
      assert (s.log.calls + [Wrote(id, samples, false)]) + [Aborted(id)]
          == s.log.calls + [Wrote(id, samples, false), Aborted(id)];
    }
  }

  // ----- Policy -----

  /** What a new manager starts with: defaults for what is not given, and nothing open. */
  lemma DefaultsFilledIn(dir: string, hang: int, debounce: int, minAuto: int, minNonSilent: int, threshold: int16,
                         reports: bool)
    ensures var s := Init(Normalize(dir, hang, debounce, minAuto, minNonSilent, threshold, reports));
      && s.cfg == Config(dir, if hang > 0 then hang else 10_000_000_000, debounce, if minAuto > 0 then minAuto else 0,
                         if minNonSilent > 0 then minNonSilent else 0, if threshold > 0 then threshold else 700,
                         reports)
      && ClipConsistent(s) && s.writer.None? && s.fault.None? && Resting(s) && s.pendingAt == 0
      && s.log == Log(0, [], [])
  {
  }

  /** A blank directory is refused, any other is taken trimmed; nothing else changes. */
  lemma DirectorySet(s: Rec, path: string, io: Io)
    ensures var (t, err) := Step(s, Op.UpdateOutputDir(path), io); var dir := Text.TrimSpace(path);
      t == s.(cfg := s.cfg.(outputDir := if dir == "" then s.cfg.outputDir else dir))
      && err == if dir == "" then Some(NoOutputDir) else None
  {
  }

  /** A positive hang time is taken, at once only where no clip is open; a minimum length is taken, 0 for a negative
      one; nothing else changes. */
  lemma PolicySet(s: Rec, hang: int, minAuto: int, io: Io)
    ensures var (t, err) := Step(s, Op.UpdateAutoPolicy(hang, minAuto), io);
      && err == None && t == s.(cfg := t.cfg, det := t.det)
      && t.cfg == s.cfg.(hangTime := if hang > 0 then hang else s.cfg.hangTime,
                         minAuto := if minAuto > 0 then minAuto else 0)
      && t.det == if hang > 0 && s.writer.None? then Detection(hang, Idle, 0) else s.det
  {
  }

  /** The configuration after some events: the last directory, hang time and minimum given. */
  function ConfigAfter(cfg: Config, es: seq<Event>): Config {
    if es == [] then cfg
    else
      var c := ConfigAfter(cfg, es[..|es| - 1]);
      match es[|es| - 1].op
      case UpdateOutputDir(path) => if Text.TrimSpace(path) == "" then c else c.(outputDir := Text.TrimSpace(path))
      case UpdateAutoPolicy(hang, minAuto) =>
        c.(hangTime := if hang > 0 then hang else c.hangTime, minAuto := if minAuto > 0 then minAuto else 0)
      case _ => c
  }

  lemma StepKeepsConfig(s: Rec, op: Op, io: Io)
    requires !op.UpdateOutputDir? && !op.UpdateAutoPolicy?
    ensures Step(s, op, io).0.cfg == s.cfg
  {
    hide Finalize;
    hide CountLoud;
    hide IsActive;
    hide EndsByFrequency;
    var at := When(op, io);
    FinalizeKeepsReports(s, at, io);
    FinalizeKeepsReports(s.(manual := false), at, io);
    FinalizeKeepsReports(s.(det := Observe(s.det, false, at).0), at, io);
    if op.UpdateTelemetry? {
      var active := IsActive(op.status);
      var t := s.(status := op.status);
      FinalizeKeepsReports(t, at, io);
      FinalizeKeepsReports(t.(det := Observe(s.det, active, at).0,
        trigger := if s.writer.Some? && active && s.trigger == Manual then Mixed else s.trigger), at, io);
    }
  }

  /** In every run the configuration in force is the one last given, faults or not. */
  lemma {:induction false} RunConfig(cfg: Config, es: seq<Event>)
    ensures Run(cfg, es).cfg == ConfigAfter(cfg, es)
  {
    hide Step;
    if es != [] {
      var n := |es| - 1;
      var s, e := Run(cfg, es[..n]), es[n];
      RunConfig(cfg, es[..n]);
      match e.op
      case UpdateOutputDir(path) => DirectorySet(s, path, e.io);
      case UpdateAutoPolicy(hang, minAuto) => PolicySet(s, hang, minAuto, e.io);
      case _ => StepKeepsConfig(s, e.op, e.io);
    }
  }

  // ----- What is never lost -----

  /** An abort among these new calls belongs to the open clip, and follows a failure of its writer or drops an
      automatic clip. */
  ghost predicate Fair(s: Rec, d: seq<Call>) {
    forall i :: 0 <= i < |d| ==> FairAt(s, d, i)
  }

  ghost predicate FairAt(s: Rec, d: seq<Call>, i: nat)
    requires i < |d|
  {
    d[i].Aborted? ==> s.writer == Some(d[i].id) && (s.trigger == Telemetry || (i > 0 && FailureOf(d[i - 1], d[i].id)))
  }

  predicate FailureOf(c: Call, id: nat) { RecorderWriters.Failed(c) && c.id == id }

  ghost predicate AddsFairly(s: Rec, t: Rec) {
    s.log.count <= t.log.count && exists d :: t.log.calls == s.log.calls + d && Fair(s, d)
  }

  lemma EndAddsFairly(s: Rec, at: Time, io: Io, t: Rec, err: Option<Error>)
    requires s.writer.Some? && ClipEnds(s, at, io, t, err)
    ensures AddsFairly(s, t)
  {
    var id := s.writer.value;
    var d := t.log.calls[|s.log.calls|..];
    assert t.log.calls == s.log.calls + d;
    if !WorthKeeping(s, at) {
      assert d == [Aborted(id)];
    } else if io.finish.None? {
      assert d == [Finished(id, false), Aborted(id)];
      assert RecorderWriters.Failed(d[0]);
    }
    assert Fair(s, d);
  }

  lemma NothingAdded(s: Rec, t: Rec)
    requires t.log == s.log
    ensures AddsFairly(s, t)
  {
    assert t.log.calls == s.log.calls + [] && Fair(s, []);
  }

  lemma BeginAddsFairly(s: Rec, m: Rec, t: Rec)
    requires AddsFairly(s, m) && t.log.count == m.log.count + 1
    requires t.log.calls == m.log.calls + [Opened(m.log.count)]
    ensures AddsFairly(s, t)
  {
    var d :| m.log.calls == s.log.calls + d && Fair(s, d);
    var e := d + [Opened(m.log.count)];
    assert t.log.calls == s.log.calls + e;
    forall i | 0 <= i < |e| ensures FairAt(s, e, i) {
      assert i < |d| ==> FairAt(s, d, i);
    }
  }

  /** Only the writer, the trigger and the log matter to what is added. */
  lemma SameAdds(s: Rec, u: Rec, t: Rec)
    requires AddsFairly(u, t) && u.writer == s.writer && u.trigger == s.trigger && u.log == s.log
    ensures AddsFairly(s, t)
  {
    var d :| t.log.calls == u.log.calls + d && Fair(u, d);
    forall i | 0 <= i < |d| ensures FairAt(s, d, i) {
      assert FairAt(u, d, i);
    }
  }

  lemma TelemetryAddsFairly(s: Rec, status: Status, at: Time, io: Io)
    requires ClipConsistent(s) && s.fault.None?
    ensures AddsFairly(s, Step(s, Op.UpdateTelemetry(status, at), io).0)
  {
    hide Step;
    hide IsActive;
    hide EndsByFrequency;
    hide ClipEnds;
    hide AddsFairly;
    var (t, err) := Step(s, Op.UpdateTelemetry(status, at), io);
    var now, u := Resolve(at, io.now), s.(status := status);
    NothingAdded(s, u);
    if s.writer.None? {
      TelemetryWithoutClip(s, status, at, io);
      if t.log == s.log {
        NothingAdded(s, t);
      } else {
        BeginAddsFairly(s, u, t);
      }
    } else if !s.manual && status.avoidKnown && status.avoided {
      AvoidEndsClip(s, status, at, io);
      var m: Rec, r: Option<Error> :| ClipEnds(u, now, io, m, r) && m.det == u.det && t.log == m.log;
      EndAddsFairly(u, now, io, m, r);
      SameAdds(s, u, m);
      SameLog(s, m, t);
    } else if !s.manual && EndsByFrequency(s.info, status) {
      FrequencySplitsClip(s, status, at, io);
      var m: Rec, r: Option<Error> :|
        ClipEnds(u, now, io, m, r) && m.det == u.det && Follows(m, r, status, now, io, t, err);
      EndAddsFairly(u, now, io, m, r);
      SameAdds(s, u, m);
      if t.log == m.log {
        SameLog(s, m, t);
      } else {
        BeginAddsFairly(s, m, t);
      }
    } else {
      TelemetryOnClip(s, status, at, io);
      if t.log == s.log {
        NothingAdded(s, t);
      } else {
        EndAddsFairly(u, now, io, t, err);
        SameAdds(s, u, t);
      }
    }
  }

  lemma SameLog(s: Rec, m: Rec, t: Rec)
    requires AddsFairly(s, m) && t.log == m.log
    ensures AddsFairly(s, t)
  {
  }

  lemma StepAddsFairly(s: Rec, op: Op, io: Io)
    requires ClipConsistent(s)
    ensures AddsFairly(s, Step(s, op, io).0)
  {
    hide OnTelemetry;
    hide Finalize;
    hide IsActive;
    hide CountLoud;
    hide ClipEnds;
    hide AddsFairly;
    hide LoudAt;
    var (t, err) := Step(s, op, io);
    if t.log == s.log {
      NothingAdded(s, t);
    } else {
      match op
      case UpdateTelemetry(status, at) => TelemetryAddsFairly(s, status, at, io);
      case StartManual(status, at) =>
        ManualStart(s, status, at, io);
        NothingAdded(s, s);
        BeginAddsFairly(s, s, t);
      case StopManual(_) =>
        StopEndsClip(s, op, io);
        EndAddsFairly(s, When(op, io), io, t, err);
      case Close =>
        StopEndsClip(s, op, io);
        EndAddsFairly(s, When(op, io), io, t, err);
      case Tick(at) =>
        TickEndsClip(s, at, io);
        EndAddsFairly(s, When(op, io), io, t, err);
      case PushPCM(samples, at) =>
        PushWrites(s, samples, at, io);
        PushAddsFairly(s, samples, at, io, t);
    }
  }

  lemma PushAddsFairly(s: Rec, samples: seq<int16>, at: Time, io: Io, t: Rec)
    requires s.writer.Some? && t.log.count == s.log.count
    requires t.log.calls == s.log.calls + [Wrote(s.writer.value, samples, true)]
      || t.log.calls == s.log.calls + [Wrote(s.writer.value, samples, false), Aborted(s.writer.value)]
    ensures AddsFairly(s, t)
  {
    var id := s.writer.value;
    var d := t.log.calls[|s.log.calls|..];
    if t.log.calls == s.log.calls + [Wrote(id, samples, true)] {
      assert d == [Wrote(id, samples, true)];
    } else {
      assert d == [Wrote(id, samples, false), Aborted(id)];
      assert RecorderWriters.Failed(d[0]);
    }
    assert Fair(s, d);
  }

  predicate Manually(t: Trigger) { t == Manual || t == Mixed }

  /** Every abort of writer `id` comes right after a write or a finish of it that failed. */
  ghost predicate NotDropped(calls: seq<Call>, id: nat) {
    forall p :: 0 <= p < |calls| && calls[p] == Aborted(id) ==> p > 0 && FailureOf(calls[p - 1], id)
  }

  lemma NotDroppedMore(s: Rec, t: Rec, id: nat)
    requires NotDropped(s.log.calls, id) && AddsFairly(s, t) && (s.writer == Some(id) ==> Manually(s.trigger))
    ensures NotDropped(t.log.calls, id)
  {
    var d :| t.log.calls == s.log.calls + d && Fair(s, d);
    forall p | 0 <= p < |t.log.calls| && t.log.calls[p] == Aborted(id)
      ensures p > 0 && FailureOf(t.log.calls[p - 1], id)
    {
      NewAbort(s, s.log.calls, d, id, p);
    }
  }

  lemma NewAbort(s: Rec, calls: seq<Call>, d: seq<Call>, id: nat, p: nat)
    requires NotDropped(calls, id) && Fair(s, d) && (s.writer == Some(id) ==> Manually(s.trigger))
    requires p < |calls + d| && (calls + d)[p] == Aborted(id)
    ensures p > 0 && FailureOf((calls + d)[p - 1], id)
  {
    var n := |calls|;
    if p < n {
      assert calls[p] == Aborted(id);
      assert p > 0;
      assert (calls + d)[p - 1] == calls[p - 1];
    } else {
      var i := p - n;
      assert d[i] == Aborted(id);
      assert FairAt(s, d, i);
      assert (calls + d)[p - 1] == d[i - 1];
    }
  }

  /** An open clip stays manual or mixed once it is. */
  lemma StaysManual(s: Rec, op: Op, io: Io)
    requires ClipConsistent(s) && (s.writer.Some? ==> s.writer.value < s.log.count)
    ensures var t := Step(s, op, io).0;
      && (t.writer.Some? && t.writer == s.writer && Manually(s.trigger) ==> Manually(t.trigger))
      && (t.writer.Some? && t.writer != s.writer ==> t.writer.value == s.log.count)
  {
    hide Step;
    hide CountLoud;
    RecorderWriters.StepCountsLoud(s, op, io);
    if s.writer.Some? {
      TriggerStep(s, op, io);
    }
  }

  predicate ActiveEvent(e: Op) { (e.UpdateTelemetry? || e.StartManual?) && IsActive(e.status) }

  /** How the trigger of an open clip changes: activity turns manual into mixed, a manual start takes over. */
  lemma TriggerStep(s: Rec, op: Op, io: Io)
    requires ClipConsistent(s) && s.writer.Some?
    requires s.writer.value < s.log.count
    ensures var t := Step(s, op, io).0; t.writer == s.writer ==>
      t.trigger == if s.trigger == Manual && ActiveEvent(op) then Mixed
                   else if s.trigger == Telemetry && op.StartManual? then Mixed
                   else s.trigger
  {
    hide Finalize;
    hide CountLoud;
    hide IsActive;
    hide EndsByFrequency;
    var at := When(op, io);
    RecorderWriters.FinalizeResets(s, at, io);
    RecorderWriters.FinalizeResets(s.(manual := false), at, io);
    RecorderWriters.FinalizeResets(s.(det := Observe(s.det, false, at).0), at, io);
    if op.UpdateTelemetry? {
      var active := IsActive(op.status);
      var t := s.(status := op.status);
      RecorderWriters.FinalizeResets(t, at, io);
      RecorderWriters.FinalizeResets(t.(det := Observe(s.det, active, at).0,
        trigger := if active && s.trigger == Manual then Mixed else s.trigger), at, io);
    }
  }

  lemma OpenNotAborted(cfg: Config, es: seq<Event>)
    requires Run(cfg, es).writer.Some?
    ensures var s := Run(cfg, es); NotDropped(s.log.calls, s.writer.value) && s.writer.value < s.log.count
  {
    hide Run;
    RunInProtocol(cfg, es);
    var s := Run(cfg, es);
    var calls, id := s.log.calls, s.writer.value;
    assert calls[..|calls|] == calls;
    forall p | 0 <= p < |calls| ensures calls[p] != Aborted(id) {
      if calls[p] == Aborted(id) {
        RecorderWriters.EndedStaysBehind(s.cfg.reports, calls, p, |calls|, id);
      }
    }
  }

  /** In every run: once a clip is manual or mixed, its writer is aborted only if a write or its finish has failed. */
  lemma {:induction false} ManualNotDropped(cfg: Config, es: seq<Event>, n: nat, m: nat)
    requires n <= m <= |es| && Run(cfg, es[..n]).writer.Some? && Manually(Run(cfg, es[..n]).trigger)
    ensures var id, t := Run(cfg, es[..n]).writer.value, Run(cfg, es[..m]);
      && NotDropped(t.log.calls, id) && id < t.log.count
      && (t.writer == Some(id) ==> Manually(t.trigger))
    decreases m
  {
    hide Run;
    hide Step;
    hide NotDropped;
    hide AddsFairly;
    OpenNotAborted(cfg, es[..n]);
    if n < m {
      var s, e := Run(cfg, es[..m - 1]), es[m - 1];
      ManualNotDropped(cfg, es, n, m - 1);
      RecorderWriters.RunNext(cfg, es, m - 1);
      RunConsistent(cfg, es[..m - 1]);
      if s.writer.Some? {
        OpenNotAborted(cfg, es[..m - 1]);
      }
      StepAddsFairly(s, e.op, e.io);
      NotDroppedMore(s, Run(cfg, es[..m]), Run(cfg, es[..n]).writer.value);
      StaysManual(s, e.op, e.io);
      CountGrows(s, Run(cfg, es[..m]));
    }
  }

  lemma CountGrows(s: Rec, t: Rec)
    requires AddsFairly(s, t)
    ensures s.log.count <= t.log.count
  {
  }

  ghost predicate StaysOpen(s: Rec, es: seq<Event>) {
    forall n :: 0 <= n <= |es| ==> RunFrom(s, es[..n]).writer == s.writer
  }

  /** While a manually started clip stays open its trigger tells whether there was any activity. */
  lemma {:induction false} TriggerTells(s: Rec, es: seq<Event>)
    requires ClipConsistent(s) && s.writer.Some? && s.writer.value < s.log.count && Manually(s.trigger)
    requires StaysOpen(s, es)
    ensures var t := RunFrom(s, es);
      && ClipConsistent(t) && s.log.count <= t.log.count
      && t.trigger == if s.trigger == Mixed || exists i :: 0 <= i < |es| && ActiveEvent(es[i].op) then Mixed else Manual
  {
    hide Step;
    hide IsActive;
    hide ClipConsistent;
    if es != [] {
      var n := |es| - 1;
      var m, e := RunFrom(s, es[..n]), es[n];
      forall k | 0 <= k <= n ensures RunFrom(s, es[..n][..k]).writer == s.writer {
        assert es[..n][..k] == es[..k];
      }
      assert es[..|es|] == es;
      TriggerTells(s, es[..n]);
      StepConsistent(m, e.op, e.io);
      TriggerStep(m, e.op, e.io);
      StepAddsFairly(m, e.op, e.io);
      if i :| 0 <= i < n && ActiveEvent(es[i].op) {
        assert ActiveEvent(es[..n][i].op);
      }
      assert forall i :: 0 <= i < n ==> es[..n][i] == es[i];
    }
  }
}
