/** What every operation of the recording manager keeps, and what it asks of writers over whole runs. */
module RecorderInvariant {
  import opened Octets
  import opened Wrappers
  import opened ActivityDetector
  import opened RecorderSpec

  // ----- The clip fields after any operation, failing ones included -----

  ghost predicate ClipConsistent(s: Rec) {
    && (s.manual ==> s.writer.Some?)
    && (s.writer.Some? && !s.manual ==> s.trigger == Telemetry && s.det.phase != Idle)
    && (s.writer.Some? && s.manual ==> s.trigger == Manual || s.trigger == Mixed)
    && (s.writer.Some? ==> s.pendingAt == 0)
    && (s.writer.None? ==> s.path == NoPath && s.started == 0 && s.lastSeen == 0 && s.info == NO_STATUS
                           && s.trigger == NoTrigger && s.total == 0 && s.nonSilent == 0)
    && (s.fault.Some? ==> s.writer.None?)
  }

  lemma FinalizeConsistent(s: Rec, at: Time, io: Io)
    requires s.writer.None? ==> ClipConsistent(s)
    ensures ClipConsistent(Finalize(s, at, io).0) && Finalize(s, at, io).0.writer.None?
  {
  }

  lemma SplitConsistent(s: Rec, status: Status, active: bool, at: Instant, io: Io)
    requires ClipConsistent(s) && s.writer.Some? && !s.manual
    ensures ClipConsistent(Split(s, status, active, at, io).0)
  {
    hide Finalize;
    FinalizeConsistent(s, at, io);
    FinalizeNoFault(s, at, io);
  }

  lemma FinalizeNoFault(s: Rec, at: Time, io: Io)
    requires s.fault.None?
    ensures Finalize(s, at, io).1.None? ==> Finalize(s, at, io).0.fault.None?
  {
  }

  lemma TelemetryConsistent(s: Rec, status: Status, at: Instant, io: Io)
    requires ClipConsistent(s) && s.fault.None?
    ensures ClipConsistent(OnTelemetry(s, status, at, io).0)
  {
    hide IsActive;
    hide EndsByFrequency;
    hide Finalize;
    hide Split;
    var active := IsActive(status);
    var t := s.(status := status);
    if s.writer.None? {
      assert t.fault.None?;
    } else if !s.manual && EndsByAvoid(status) {
      FinalizeConsistent(t, at, io);
    } else if !s.manual && EndsByFrequency(s.info, status) {
      SplitConsistent(t, status, active, at, io);
    } else {
      var d := Observe(s.det, active, at).0;
      var u := t.(det := d, trigger := if active && s.trigger == Manual then Mixed else s.trigger);
      FinalizeConsistent(u, at, io);
    }
  }

  /** After every operation, including failing ones, the clip fields are consistent. */
  lemma StepConsistent(s: Rec, op: Op, io: Io)
    requires ClipConsistent(s)
    ensures ClipConsistent(Step(s, op, io).0)
  {
    hide OnTelemetry;
    hide Finalize;
    hide CountLoud;
    hide IsActive;
    if s.fault.None? {
      match op
      case UpdateTelemetry(status, _) => TelemetryConsistent(s, status, When(op, io), io);
      case StopManual(_) => FinalizeConsistent(s.(manual := false), When(op, io), io);
      case Tick(_) => FinalizeConsistent(s.(det := Observe(s.det, false, When(op, io)).0), When(op, io), io);
      case Close => FinalizeConsistent(s, When(op, io), io);
      case _ =>
    }
  }

  lemma {:induction false} RunConsistent(cfg: Config, es: seq<Event>)
    ensures ClipConsistent(Run(cfg, es))
  {
    hide Step;
    if es != [] {
      var n := |es| - 1;
      RunConsistent(cfg, es[..n]);
      StepConsistent(Run(cfg, es[..n]), es[n].op, es[n].io);
    }
  }

  // ----- The protocol the manager keeps with its writers -----

  /** Where the conversation with writers stands after some calls; `next` is the number of the next writer. */
  datatype Talk =
    | Silent(next: nat)
    | Recording(next: nat, samples: nat)  // writer next - 1 is open and has taken this many samples
    | Reporting(next: nat)                // it has finished; the callback comes next
    | Failing(next: nat)                  // a write or its finish failed; an abort comes next
    | Over                                // after a fault

  /** The call that may come next, and where it leads. Everything not listed is a breach. */
  function Next(reports: bool, t: Talk, c: Call): Option<Talk> {
    match (t, c)
    case (Silent(n), Opened(id)) => if id == n then Some(Recording(n + 1, 0)) else None
    case (Recording(n, k), Wrote(id, samples, ok)) =>
      if id + 1 != n then None else if ok then Some(Recording(n, k + |samples|)) else Some(Failing(n))
    case (Recording(n, _), Finished(id, ok)) =>
      if id + 1 != n then None
      else if !ok then Some(Failing(n)) else if reports then Some(Reporting(n)) else Some(Silent(n))
    case (Recording(n, _), Aborted(id)) => if id + 1 == n then Some(Silent(n)) else None
    case (Failing(n), Aborted(id)) => if id + 1 == n then Some(Over) else None
    case (Reporting(n), Reported(id, _, _)) => if id + 1 == n then Some(Silent(n)) else None
    case _ => None
  }

  function Talked(reports: bool, calls: seq<Call>): Option<Talk> {
    if calls == [] then Some(Silent(0))
    else
      match Talked(reports, calls[..|calls| - 1])
      case None => None
      case Some(t) => Next(reports, t, calls[|calls| - 1])
  }

  /** Where the manager believes the conversation stands. */
  function TalkOf(s: Rec): Talk {
    if s.fault.Some? then Over
    else if s.writer.Some? then Recording(s.log.count, s.total)
    else Silent(s.log.count)
  }

  ghost predicate InProtocol(s: Rec) {
    && Talked(s.cfg.reports, s.log.calls) == Some(TalkOf(s))
    && (s.writer.Some? ==> s.writer.value + 1 == s.log.count)
    && (s.fault.Some? ==> s.writer.None?)
    && (s.writer.None? ==> s.total == 0)
  }

  lemma TalkMore(reports: bool, calls: seq<Call>, c: Call)
    ensures Talked(reports, calls + [c]) ==
      match Talked(reports, calls) case None => None case Some(t) => Next(reports, t, c)
  {
    assert (calls + [c])[..|calls|] == calls;
  }

  lemma AbortInProtocol(s: Rec)
    requires InProtocol(s) && s.fault.None?
    ensures InProtocol(AbortWriter(s)) && AbortWriter(s).fault.None?
  {
    if s.writer.Some? {
      TalkMore(s.cfg.reports, s.log.calls, Aborted(s.writer.value));
    }
  }

  lemma FinalizeInProtocol(s: Rec, at: Time, io: Io)
    requires InProtocol(s) && s.fault.None?
    ensures InProtocol(Finalize(s, at, io).0)
    ensures Finalize(s, at, io).1.None? ==> Finalize(s, at, io).0.fault.None?
  {
    hide Suppress;
    hide Talked;
    if s.writer.Some? {
      var id, r, calls := s.writer.value, s.cfg.reports, s.log.calls;
      AbortInProtocol(s);
      if !Suppress(s, at) {
        TalkMore(r, calls, Finished(id, io.finish.Some?));
        if io.finish.None? {
          TalkMore(r, calls + [Finished(id, false)], Aborted(id));
        } else {
          var clip := ClipOf(s, at, io.finish.value);
          TalkMore(r, calls + [Finished(id, true)], Reported(id, clip, io.report));
        }
      }
    }
  }

  lemma BeginInProtocol(s: Rec, at: Time, status: Status, trigger: Trigger, io: Io)
    requires InProtocol(s) && s.writer.None? && s.fault.None?
    ensures InProtocol(Begin(s, at, status, trigger, io).0) && Begin(s, at, status, trigger, io).0.fault.None?
  {
    TalkMore(s.cfg.reports, s.log.calls, Opened(s.log.count));
  }

  /** Only the log, the writer, its sample count and the fault matter to the protocol. */
  lemma SameProtocol(s: Rec, t: Rec)
    requires InProtocol(s) && t.cfg.reports == s.cfg.reports && t.log == s.log && t.writer == s.writer
    requires t.total == s.total && t.fault == s.fault
    ensures InProtocol(t)
  {
  }

  lemma SplitInProtocol(s: Rec, status: Status, active: bool, at: Instant, io: Io)
    requires InProtocol(s) && s.fault.None?
    ensures InProtocol(Split(s, status, active, at, io).0)
  {
    hide Finalize;
    hide Begin;
    hide InProtocol;
    FinalizeInProtocol(s, at, io);
    var (f, err) := Finalize(s, at, io);
    if err.None? {
      FinalizeCloses(s, at, io);
      var p := ClearPending(ResetDetector(f));
      SameProtocol(f, ResetDetector(f));
      SameProtocol(f, p);
      BeginInProtocol(p, at, status, Telemetry, io);
      var b := Begin(p, at, status, Telemetry, io).0;
      SameProtocol(b, Activated(b, at));
    }
  }

  lemma FinalizeCloses(s: Rec, at: Time, io: Io)
    ensures Finalize(s, at, io).0.writer.None?
  {
  }

  lemma AutoStartInProtocol(s: Rec, status: Status, active: bool, at: Instant, io: Io)
    requires InProtocol(s) && s.writer.None? && s.fault.None?
    ensures InProtocol(AutoStart(s, status, active, at, io).0)
  {
    hide Begin;
    hide InProtocol;
    var p := if s.pendingAt == 0 then s.(pendingAt := at, pendingStatus := status) else s;
    SameProtocol(s, p);
    SameProtocol(s, ResetDetector(ClearPending(s)));
    BeginInProtocol(s, at, status, Telemetry, io);
    BeginInProtocol(p, p.pendingAt, p.pendingStatus, Telemetry, io);
    var b, c := Begin(s, at, status, Telemetry, io).0, Begin(p, p.pendingAt, p.pendingStatus, Telemetry, io).0;
    SameProtocol(b, Activated(b, at));
    SameProtocol(c, Activated(ClearPending(c), at));
  }

  lemma TelemetryInProtocol(s: Rec, status: Status, at: Instant, io: Io)
    requires InProtocol(s) && s.fault.None?
    ensures InProtocol(OnTelemetry(s, status, at, io).0)
  {
    hide IsActive;
    hide EndsByFrequency;
    hide Finalize;
    hide Split;
    hide AutoStart;
    hide InProtocol;
    var active := IsActive(status);
    var t := s.(status := status);
    SameProtocol(s, t);
    var u := t.(det := Observe(s.det, active, at).0,
                trigger := if s.writer.Some? && active && s.trigger == Manual then Mixed else s.trigger);
    SameProtocol(s, u);
    FinalizeInProtocol(t, at, io);
    FinalizeInProtocol(u, at, io);
    SplitInProtocol(t, status, active, at, io);
    SameProtocol(Finalize(t, at, io).0, ResetDetector(Finalize(t, at, io).0));
    if s.writer.None? {
      AutoStartInProtocol(t, status, active, at, io);
    }
  }

  lemma PcmInProtocol(s: Rec, samples: seq<int16>, at: Instant, io: Io)
    requires InProtocol(s) && s.fault.None?
    ensures InProtocol(OnPCM(s, samples, at, io).0)
  {
    hide Talked;
    hide CountLoud;
    if s.writer.Some? {
      var c := Wrote(s.writer.value, samples, io.write);
      TalkMore(s.cfg.reports, s.log.calls, c);
      TalkMore(s.cfg.reports, s.log.calls + [c], Aborted(s.writer.value));
    }
  }

  lemma StepInProtocol(s: Rec, op: Op, io: Io)
    requires InProtocol(s)
    ensures InProtocol(Step(s, op, io).0) && Step(s, op, io).0.cfg.reports == s.cfg.reports
  {
    StepKeepsReports(s, op, io);
    hide OnTelemetry;
    hide OnPCM;
    hide Finalize;
    hide Begin;
    hide IsActive;
    hide Talked;
    if s.fault.None? {
      var at := When(op, io);
      match op
      case UpdateTelemetry(status, _) => TelemetryInProtocol(s, status, at, io);
      case PushPCM(samples, _) => PcmInProtocol(s, samples, at, io);
      case StopManual(_) => FinalizeInProtocol(s.(manual := false), at, io);
      case Tick(_) => FinalizeInProtocol(s.(det := Observe(s.det, false, at).0), at, io);
      case Close => FinalizeInProtocol(s, at, io);
      case StartManual(status, _) =>
        if s.writer.None? {
          var trigger := if IsActive(status) then Mixed else Manual;
          BeginInProtocol(ClearPending(s.(status := status)), at, status, trigger, io);
        }
      case _ =>
    }
  }

  lemma FinalizeKeepsReports(s: Rec, at: Time, io: Io)
    ensures Finalize(s, at, io).0.cfg == s.cfg
  {
  }

  lemma StepKeepsReports(s: Rec, op: Op, io: Io)
    ensures Step(s, op, io).0.cfg.reports == s.cfg.reports
  {
    hide Finalize;
    hide CountLoud;
    hide IsActive;
    hide EndsByFrequency;
    var at := When(op, io);
    FinalizeKeepsReports(s, at, io);
    FinalizeKeepsReports(s.(manual := false), at, io);
    FinalizeKeepsReports(s.(det := Observe(s.det, false, at).0), at, io);
    if op.UpdateTelemetry? {
      var active := IsActive(op.status);
      var t := s.(status := op.status);
      FinalizeKeepsReports(t, at, io);
      FinalizeKeepsReports(t.(det := Observe(s.det, active, at).0,
        trigger := if s.writer.Some? && active && s.trigger == Manual then Mixed else s.trigger), at, io);
    }
  }

  /** In every run the calls made follow the protocol: one writer at a time, opened in order, fed, and ended once;
      after a fault, no call at all. */
  lemma {:induction false} RunInProtocol(cfg: Config, es: seq<Event>)
    ensures InProtocol(Run(cfg, es)) && Run(cfg, es).cfg.reports == cfg.reports
  {
    hide Step;
    if es != [] {
      var n := |es| - 1;
      RunInProtocol(cfg, es[..n]);
      StepInProtocol(Run(cfg, es[..n]), es[n].op, es[n].io);
    }
  }
}
