/** What the writer protocol means over a whole run: one writer at a time, exactly the PCM pushed while it is
    open, exactly one ending, and nothing after a fault. */
module RecorderWriters {
  import opened Octets
  import opened Wrappers
  import opened ActivityDetector
  import opened RecorderSpec
  import opened RecorderInvariant

  /** The call that ends writer `id`: a successful finish or an abort. */
  predicate Ends(c: Call, id: nat) { c == Finished(id, true) || c == Aborted(id) }

  lemma {:induction false} PrefixTalked(reports: bool, calls: seq<Call>, n: nat)
    requires Talked(reports, calls).Some? && n <= |calls|
    ensures Talked(reports, calls[..n]).Some?
    decreases |calls|
  {
    if n < |calls| {
      PrefixTalked(reports, calls[..|calls| - 1], n);
      assert calls[..|calls| - 1][..n] == calls[..n];
    } else {
      assert calls[..n] == calls;
    }
  }

  lemma TalkedNext(reports: bool, calls: seq<Call>, n: nat)
    requires Talked(reports, calls).Some? && n < |calls|
    ensures Talked(reports, calls[..n]).Some? && Talked(reports, calls[..n + 1]).Some?
    ensures Next(reports, Talked(reports, calls[..n]).value, calls[n]) == Talked(reports, calls[..n + 1])
  {
    PrefixTalked(reports, calls, n);
    PrefixTalked(reports, calls, n + 1);
    assert calls[..n + 1] == calls[..n] + [calls[n]];
    TalkMore(reports, calls[..n], calls[n]);
  }

  /** Writer `id` is behind: the conversation can no longer name it, except to report it right after its finish. */
  predicate Behind(t: Talk, id: nat, justEnded: bool) {
    match t
    case Silent(n) => id < n
    case Recording(n, _) => id + 1 < n
    case Failing(n) => id + 1 < n
    case Reporting(n) => id + 1 < n || (justEnded && id + 1 == n)
    case Over => true
  }

  lemma {:induction false} EndedStaysBehind(reports: bool, calls: seq<Call>, i: nat, j: nat, id: nat)
    requires Talked(reports, calls).Some? && i < j <= |calls| && Ends(calls[i], id)
    ensures Talked(reports, calls[..j]).Some? && Behind(Talked(reports, calls[..j]).value, id, j == i + 1)
    decreases j
  {
    TalkedNext(reports, calls, j - 1);
    if j > i + 1 {
      EndedStaysBehind(reports, calls, i, j - 1, id);
    }
  }

  /** After a writer has ended, no call names it again, but for one report directly after its finish. */
  lemma NothingAfterEnding(reports: bool, calls: seq<Call>, i: nat, j: nat, id: nat)
    requires Talked(reports, calls).Some? && i < j < |calls| && Ends(calls[i], id)
    ensures calls[j].id == id ==> j == i + 1 && calls[j].Reported? && calls[i].Finished? && reports
  {
    EndedStaysBehind(reports, calls, i, j, id);
    TalkedNext(reports, calls, j);
    TalkedNext(reports, calls, i);
  }

  /** The conversation is still about writer `id`. */
  predicate About(t: Talk, id: nat) {
    match t
    case Recording(n, _) => n == id + 1
    case Failing(n) => n == id + 1
    case _ => false
  }

  lemma {:induction false} OpenUntilEnded(reports: bool, calls: seq<Call>, i: nat, j: nat, id: nat)
    requires Talked(reports, calls).Some? && i < j <= |calls| && calls[i] == Opened(id)
    requires forall k :: i < k < j ==> !Ends(calls[k], id)
    ensures Talked(reports, calls[..j]).Some? && About(Talked(reports, calls[..j]).value, id)
    decreases j
  {
    TalkedNext(reports, calls, j - 1);
    if j > i + 1 {
      OpenUntilEnded(reports, calls, i, j - 1, id);
    }
  }

  /** Between two openings the first writer has ended: at most one is ever open. */
  lemma OneWriterAtATime(reports: bool, calls: seq<Call>, i: nat, j: nat)
    requires Talked(reports, calls).Some? && i < j < |calls| && calls[i].Opened? && calls[j].Opened?
    ensures exists k :: i < k < j && Ends(calls[k], calls[i].id)
  {
    if forall k :: i < k < j ==> !Ends(calls[k], calls[i].id) {
      OpenUntilEnded(reports, calls, i, j, calls[i].id);
      TalkedNext(reports, calls, j);
      assert false;
    }
  }

  /** While no writer is open, every one ever opened has ended. */
  lemma ClosedMeansEnded(cfg: Config, es: seq<Event>, i: nat)
    requires Run(cfg, es).writer.None? && i < |Run(cfg, es).log.calls| && Run(cfg, es).log.calls[i].Opened?
    ensures var calls := Run(cfg, es).log.calls; exists k :: i < k < |calls| && Ends(calls[k], calls[i].id)
  {
    hide Run;
    RunInProtocol(cfg, es);
    var s := Run(cfg, es);
    var calls := s.log.calls;
    assert calls[..|calls|] == calls;
    if forall k :: i < k < |calls| ==> !Ends(calls[k], calls[i].id) {
      TalkedNext(s.cfg.reports, calls, i);
      OpenUntilEnded(s.cfg.reports, calls, i, |calls|, calls[i].id);
      assert false;
    }
  }

  // ----- Faults -----

  predicate Failed(c: Call) { (c.Wrote? || c.Finished?) && !c.ok }

  lemma {:induction false} TalkFails(reports: bool, calls: seq<Call>)
    requires Talked(reports, calls).Some?
    ensures var t := Talked(reports, calls).value;
      t.Failing? || t.Over? <==> exists i :: 0 <= i < |calls| && Failed(calls[i])
  {
    if calls != [] {
      var n := |calls| - 1;
      TalkFails(reports, calls[..n]);
      if i :| 0 <= i < n && Failed(calls[..n][i]) {
        assert Failed(calls[i]);
      }
      if i :| 0 <= i < |calls| && Failed(calls[i]) {
        assert i < n ==> Failed(calls[..n][i]);
      }
    }
  }

  /** A manager is at fault exactly when a write or a finish has failed. */
  lemma FaultMeansFailure(cfg: Config, es: seq<Event>)
    ensures var s := Run(cfg, es);
      s.fault.Some? <==> exists i :: 0 <= i < |s.log.calls| && Failed(s.log.calls[i])
  {
    hide Run;
    RunInProtocol(cfg, es);
    TalkFails(Run(cfg, es).cfg.reports, Run(cfg, es).log.calls);
  }

  /** The operation in which something fails returns the fault it leaves behind: a write fails in PushPCM, anything
      else is a finish. */
  lemma FaultIsReturned(s: Rec, op: Op, io: Io)
    requires s.fault.None?
    ensures var (t, err) := Step(s, op, io);
      t.fault.Some? ==> err == t.fault && t.fault == Some(if op.PushPCM? then WriteFault else FinalizeFault)
  {
    hide OnTelemetry;
    hide Finalize;
    hide IsActive;
    hide CountLoud;
    var at := When(op, io);
    match op
    case UpdateTelemetry(status, _) => TelemetryFault(s, status, at, io);
    case StopManual(_) => FinishFails(s.(manual := false), at, io);
    case Tick(_) => FinishFails(s.(det := Observe(s.det, false, at).0), at, io);
    case Close => FinishFails(s, at, io);
    case _ =>
  }

  lemma FinishFails(s: Rec, at: Time, io: Io)
    requires s.fault.None?
    ensures var (t, err) := Finalize(s, at, io); t.fault.Some? ==> err == t.fault == Some(FinalizeFault)
  {
  }

  lemma TelemetryFault(s: Rec, status: Status, at: Instant, io: Io)
    requires s.fault.None?
    ensures var (t, err) := OnTelemetry(s, status, at, io); t.fault.Some? ==> err == t.fault == Some(FinalizeFault)
  {
    hide IsActive;
    hide EndsByFrequency;
    hide Finalize;
    var t := s.(status := status);
    var active := IsActive(status);
    FinishFails(t, at, io);
    FinishFails(t.(det := Observe(s.det, active, at).0,
                     trigger := if s.writer.Some? && active && s.trigger == Manual then Mixed else s.trigger), at, io);
  }

  /** From a fault on, in every run: the same fault, no call to any writer, and the fault as the answer to every
      telemetry, manual, PCM, tick and close call. */
  lemma {:induction false} FaultSticks(cfg: Config, es: seq<Event>, i: nat, j: nat)
    requires i <= j <= |es| && Run(cfg, es[..i]).fault.Some?
    ensures var s, t := Run(cfg, es[..i]), Run(cfg, es[..j]);
      && t.fault == s.fault && t.log == s.log && t.writer.None?
      && (j < |es| && !es[j].op.UpdateOutputDir? && !es[j].op.UpdateAutoPolicy? ==>
            Step(t, es[j].op, es[j].io) == (t, s.fault))
    decreases j
  {
    hide Run;
    hide Step;
    hide RunFrom;
    FaultMeansNoWriter(cfg, es[..j]);
    if i < j {
      FaultSticks(cfg, es, i, j - 1);
      RunNext(cfg, es, j - 1);
      FaultStays(Run(cfg, es[..j - 1]), es[j - 1].op, es[j - 1].io);
    }
    if j < |es| {
      FaultStays(Run(cfg, es[..j]), es[j].op, es[j].io);
    }
  }

  lemma RunNext(cfg: Config, es: seq<Event>, n: nat)
    requires n < |es|
    ensures Run(cfg, es[..n + 1]) == Step(Run(cfg, es[..n]), es[n].op, es[n].io).0
  {
    assert es[..n + 1][..n] == es[..n];
  }

  lemma FaultMeansNoWriter(cfg: Config, es: seq<Event>)
    ensures Run(cfg, es).fault.Some? ==> Run(cfg, es).writer.None?
  {
    RunConsistent(cfg, es);
  }

  lemma FaultStays(s: Rec, op: Op, io: Io)
    requires s.fault.Some?
    ensures Step(s, op, io).0.fault == s.fault && Step(s, op, io).0.log == s.log
    ensures !op.UpdateOutputDir? && !op.UpdateAutoPolicy? ==> Step(s, op, io) == (s, s.fault)
  {
  }

  // ----- PCM -----

  /** Everything writer `id` accepted. */
  function Written(calls: seq<Call>, id: nat): seq<int16> {
    if calls == [] then []
    else
      var c := calls[|calls| - 1];
      Written(calls[..|calls| - 1], id) + if c.Wrote? && c.id == id && c.ok then c.samples else []
  }

  /** Everything pushed while writer `id` was open, leaving out the push that a failing writer refused. */
  ghost function Pushed(cfg: Config, es: seq<Event>, id: nat): seq<int16> {
    if es == [] then []
    else
      var e, s := es[|es| - 1], Run(cfg, es[..|es| - 1]);
      Pushed(cfg, es[..|es| - 1], id)
      + if e.op.PushPCM? && s.writer == Some(id) && s.fault.None? && e.io.write then e.op.samples else []
  }

  lemma WrittenMore(calls: seq<Call>, c: Call, id: nat)
    ensures Written(calls + [c], id) == Written(calls, id) + if c.Wrote? && c.id == id && c.ok then c.samples else []
  {
    assert (calls + [c])[..|calls|] == calls;
  }

  lemma AbortWritesNothing(s: Rec, id: nat)
    ensures Written(AbortWriter(s).log.calls, id) == Written(s.log.calls, id)
  {
    if s.writer.Some? {
      WrittenMore(s.log.calls, Aborted(s.writer.value), id);
    }
  }

  lemma FinalizeWritesNothing(s: Rec, at: Time, io: Io, id: nat)
    ensures Written(Finalize(s, at, io).0.log.calls, id) == Written(s.log.calls, id)
  {
    hide Suppress;
    hide Written;
    AbortWritesNothing(s, id);
    if s.writer.Some? && !Suppress(s, at) {
      var w, calls := s.writer.value, s.log.calls;
      WrittenMore(calls, Finished(w, io.finish.Some?), id);
      if io.finish.Some? {
        var clip := ClipOf(s, at, io.finish.value);
        WrittenMore(calls + [Finished(w, true)], Reported(w, clip, io.report), id);
      } else {
        AbortWritesNothing(Called(s, Finished(w, false)), id);
      }
    }
  }

  lemma BeginWritesNothing(s: Rec, at: Time, status: Status, trigger: Trigger, io: Io, id: nat)
    ensures Written(Begin(s, at, status, trigger, io).0.log.calls, id) == Written(s.log.calls, id)
  {
    WrittenMore(s.log.calls, Opened(s.log.count), id);
  }

  lemma TelemetryWritesNothing(s: Rec, status: Status, at: Instant, io: Io, id: nat)
    ensures Written(OnTelemetry(s, status, at, io).0.log.calls, id) == Written(s.log.calls, id)
  {
    hide IsActive;
    hide EndsByFrequency;
    hide Finalize;
    hide Begin;
    hide Written;
    var active := IsActive(status);
    var t := s.(status := status);
    var u := t.(det := Observe(s.det, active, at).0,
                trigger := if s.writer.Some? && active && s.trigger == Manual then Mixed else s.trigger);
    var p := if t.pendingAt == 0 then t.(pendingAt := at, pendingStatus := status) else t;
    FinalizeWritesNothing(t, at, io, id);
    FinalizeWritesNothing(u, at, io, id);
    BeginWritesNothing(t, at, status, Telemetry, io, id);
    BeginWritesNothing(p, p.pendingAt, p.pendingStatus, Telemetry, io, id);
    BeginWritesNothing(ClearPending(ResetDetector(Finalize(t, at, io).0)), at, status, Telemetry, io, id);
  }

  lemma StepWrites(s: Rec, op: Op, io: Io, id: nat)
    ensures Written(Step(s, op, io).0.log.calls, id) == Written(s.log.calls, id)
      + if op.PushPCM? && s.writer == Some(id) && s.fault.None? && io.write then op.samples else []
  {
    hide OnTelemetry;
    hide Finalize;
    hide Begin;
    hide IsActive;
    hide CountLoud;
    hide Written;
    var at := When(op, io);
    assert Written(s.log.calls, id) + [] == Written(s.log.calls, id);
    match op
    case UpdateTelemetry(status, _) => TelemetryWritesNothing(s, status, at, io, id);
    case StartManual(status, _) =>
      var trigger := if IsActive(status) then Mixed else Manual;
      BeginWritesNothing(ClearPending(s.(status := status)), at, status, trigger, io, id);
    case StopManual(_) => FinalizeWritesNothing(s.(manual := false), at, io, id);
    case Tick(_) => FinalizeWritesNothing(s.(det := Observe(s.det, false, at).0), at, io, id);
    case Close => FinalizeWritesNothing(s, at, io, id);
    case PushPCM(samples, _) =>
      if s.writer.Some? {
        var c := Wrote(s.writer.value, samples, io.write);
        WrittenMore(s.log.calls, c, id);
        AbortWritesNothing(Called(s, c), id);
      }
    case _ =>
  }

  /** Each writer gets exactly the PCM pushed while its clip is open, in order. */
  lemma {:induction false} WriterGetsItsPCM(cfg: Config, es: seq<Event>, id: nat)
    ensures Written(Run(cfg, es).log.calls, id) == Pushed(cfg, es, id)
  {
    hide Step;
    hide Written;
    if es == [] {
      assert Run(cfg, es).log.calls == [];
      NothingWritten(id);
    } else {
      var n := |es| - 1;
      WriterGetsItsPCM(cfg, es[..n], id);
      StepWrites(Run(cfg, es[..n]), es[n].op, es[n].io, id);
    }
  }

  lemma NothingWritten(id: nat)
    ensures Written([], id) == []
  {
  }

  /** The sample counter of the protocol is the length of what the open writer has taken; later writers have nothing. */
  lemma {:induction false} TalkCounts(reports: bool, calls: seq<Call>, id: nat)
    requires Talked(reports, calls).Some?
    ensures var t := Talked(reports, calls).value;
      && (t.Recording? && t.next == id + 1 ==> |Written(calls, id)| == t.samples)
      && (!t.Over? && t.next <= id ==> Written(calls, id) == [])
  {
    if calls != [] {
      var n := |calls| - 1;
      TalkCounts(reports, calls[..n], id);
    }
  }

  /** `totalSamples` counts the open writer's PCM. */
  lemma TotalCountsPCM(cfg: Config, es: seq<Event>)
    requires Run(cfg, es).writer.Some?
    ensures Run(cfg, es).total == |Pushed(cfg, es, Run(cfg, es).writer.value)|
  {
    hide Run;
    RunInProtocol(cfg, es);
    var s := Run(cfg, es);
    TalkCounts(s.cfg.reports, s.log.calls, s.writer.value);
    WriterGetsItsPCM(cfg, es, s.writer.value);
  }

  lemma {:induction false} CountLoudConcat(a: seq<int16>, b: seq<int16>, threshold: int16)
    ensures CountLoud(a + b, threshold) == CountLoud(a, threshold) + CountLoud(b, threshold)
  {
    hide Magnitude;
    if b == [] {
      assert a + b == a;
    } else {
      var n := |b| - 1;
      CountLoudConcat(a, b[..n], threshold);
      assert (a + b)[..|a| + n] == a + b[..n];
    }
  }

  /** A step keeps the open writer's count up to date, or opens a new writer with the count at zero. */
  lemma StepCountsLoud(s: Rec, op: Op, io: Io)
    requires ClipConsistent(s) && (s.writer.Some? ==> s.writer.value < s.log.count)
    ensures var t := Step(s, op, io).0;
      && t.cfg.threshold == s.cfg.threshold
      && (t.writer.Some? && t.writer == s.writer ==>
            t.nonSilent == s.nonSilent + if op.PushPCM? then CountLoud(op.samples, s.cfg.threshold) else 0)
      && (t.writer.Some? && t.writer == s.writer && op.PushPCM? ==> io.write && s.fault.None?)
      && (t.writer.Some? && t.writer != s.writer ==>
            t.nonSilent == 0 && t.writer.value == s.log.count && s.fault.None?)
  {
    hide Finalize;
    hide IsActive;
    hide EndsByFrequency;
    hide CountLoud;
    var at := When(op, io);
    FinalizeResets(s, at, io);
    FinalizeResets(s.(manual := false), at, io);
    FinalizeResets(s.(det := Observe(s.det, false, at).0), at, io);
    if op.UpdateTelemetry? {
      var active := IsActive(op.status);
      var t := s.(status := op.status);
      FinalizeResets(t, at, io);
      FinalizeResets(t.(det := Observe(s.det, active, at).0,
        trigger := if s.writer.Some? && active && s.trigger == Manual then Mixed else s.trigger), at, io);
    }
  }

  lemma FinalizeResets(s: Rec, at: Time, io: Io)
    ensures var f := Finalize(s, at, io).0; f.writer.None? && f.cfg == s.cfg && f.log.count == s.log.count
    ensures s.writer.Some? ==> Finalize(s, at, io).0.nonSilent == 0
  {
  }

  /** `nonSilentSamples` counts the loud samples of the open writer's PCM. */
  lemma {:induction false} LoudCountsPCM(cfg: Config, es: seq<Event>)
    ensures var s := Run(cfg, es);
      s.cfg.threshold == cfg.threshold
      && (s.writer.Some? ==> s.nonSilent == CountLoud(Pushed(cfg, es, s.writer.value), cfg.threshold))
  {
    hide Step;
    hide CountLoud;
    hide InProtocol;
    if es != [] {
      var n := |es| - 1;
      var s, t, e := Run(cfg, es[..n]), Run(cfg, es), es[n];
      LoudCountsPCM(cfg, es[..n]);
      RunConsistent(cfg, es[..n]);
      RunInProtocol(cfg, es[..n]);
      WriterNumbers(s);
      StepCountsLoud(s, e.op, e.io);
      if t.writer.Some? {
        var id := t.writer.value;
        if t.writer == s.writer {
          CountLoudConcat(Pushed(cfg, es[..n], id), if e.op.PushPCM? then e.op.samples else [], cfg.threshold);
          NoLoud(cfg.threshold);
        } else {
          NothingPushedYet(cfg, es[..n], id);
          NoLoud(cfg.threshold);
          assert Pushed(cfg, es, id) == [] + [];
        }
      }
    }
  }

  lemma NoLoud(threshold: int16)
    ensures CountLoud([], threshold) == 0
  {
  }

  lemma WriterNumbers(s: Rec)
    requires InProtocol(s)
    ensures s.writer.Some? ==> s.writer.value < s.log.count
  {
  }

  lemma NothingPushedYet(cfg: Config, es: seq<Event>, id: nat)
    requires Run(cfg, es).fault.None? && Run(cfg, es).log.count == id
    ensures Pushed(cfg, es, id) == []
  {
    hide Run;
    RunInProtocol(cfg, es);
    var s := Run(cfg, es);
    TalkCounts(s.cfg.reports, s.log.calls, id);
    WriterGetsItsPCM(cfg, es, id);
  }
}
