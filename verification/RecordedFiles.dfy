/** From recorder runs to files: what stands in the file of each clip that a run has kept. */
module RecordedFiles {
  import opened ActivityDetector
  import opened Octets
  import opened RecorderSpec
  import opened Wrappers
  import Flac
  import FlacWriter
  import RecorderInvariant
  import RecorderWriters

  /** The blocks of PCM that writer `id` was given, one by one. */
  function Chunks(calls: seq<Call>, id: nat): seq<seq<int16>> {
    if calls == [] then []
    else
      var c := calls[|calls| - 1];
      Chunks(calls[..|calls| - 1], id) + if c.Wrote? && c.id == id then [c.samples] else []
  }

  /** The writers that finished, in order; each belongs to one kept clip. */
  function Kept(calls: seq<Call>): seq<nat> {
    if calls == [] then []
    else
      var c := calls[|calls| - 1];
      Kept(calls[..|calls| - 1]) + if c.Finished? && c.ok then [c.id] else []
  }

  // ----- A writer that finished has never failed -----

  lemma {:induction false} InKept(calls: seq<Call>, k: nat)
    requires k < |Kept(calls)|
    ensures exists j :: 0 <= j < |calls| && calls[j] == Finished(Kept(calls)[k], true)
  {
    var n := |calls| - 1;
    if k < |Kept(calls[..n])| {
      InKept(calls[..n], k);
      var j :| 0 <= j < n && calls[..n][j] == Finished(Kept(calls[..n])[k], true);
      assert calls[j] == Finished(Kept(calls)[k], true);
    } else {
      assert calls[n] == Finished(Kept(calls)[k], true);
    }
  }

  lemma {:induction false} FailedStaysFailed(reports: bool, calls: seq<Call>, i: nat, j: nat)
    requires RecorderInvariant.Talked(reports, calls).Some? && i < j <= |calls| && RecorderWriters.Failed(calls[i])
    ensures var t := RecorderInvariant.Talked(reports, calls[..j]); t.Some? && (t.value.Failing? || t.value.Over?)
    decreases j
  {
    RecorderWriters.TalkedNext(reports, calls, j - 1);
    if j > i + 1 {
      FailedStaysFailed(reports, calls, i, j - 1);
    }
  }

  lemma FinishedNeverFailed(reports: bool, calls: seq<Call>, id: nat, i: nat, j: nat)
    requires RecorderInvariant.Talked(reports, calls).Some? && i < |calls| && j < |calls|
    requires calls[i].Wrote? && calls[i].id == id && calls[j] == Finished(id, true)
    ensures calls[i].ok
  {
    if !calls[i].ok {
      if i < j {
        FailedStaysFailed(reports, calls, i, j);
        RecorderWriters.TalkedNext(reports, calls, j);
      } else {
        RecorderWriters.NothingAfterEnding(reports, calls, j, i, id);
      }
    }
  }

  lemma {:induction false} ChunksWritten(calls: seq<Call>, id: nat)
    requires forall i :: 0 <= i < |calls| && calls[i].Wrote? && calls[i].id == id ==> calls[i].ok
    ensures FlacWriter.Samples(Chunks(calls, id)) == RecorderWriters.Written(calls, id)
  {
    if calls != [] {
      var n := |calls| - 1;
      ChunksWritten(calls[..n], id);
      var cs := Chunks(calls[..n], id);
      if calls[n].Wrote? && calls[n].id == id {
        assert (cs + [calls[n].samples])[..|cs|] == cs;
      } else {
        assert cs + [] == cs;
      }
    }
  }

  // ----- Kept clips and the writers that finished -----

  /** Every kept clip has its writer, in the same order. */
  ghost predicate Matched(s: Rec) { |Kept(s.log.calls)| == |s.log.clips| }

  lemma KeptMore(calls: seq<Call>, c: Call)
    ensures Kept(calls + [c]) == Kept(calls) + if c.Finished? && c.ok then [c.id] else []
  {
    assert (calls + [c])[..|calls|] == calls;
  }

  lemma AbortMatched(s: Rec)
    requires Matched(s)
    ensures Matched(AbortWriter(s))
  {
    if s.writer.Some? {
      KeptMore(s.log.calls, Aborted(s.writer.value));
    }
  }

  lemma FinalizeMatched(s: Rec, at: Time, io: Io)
    requires Matched(s)
    ensures Matched(Finalize(s, at, io).0)
  {
    hide Suppress;
    hide Kept;
    AbortMatched(s);
    if s.writer.Some? && !Suppress(s, at) {
      var w, calls := s.writer.value, s.log.calls;
      KeptMore(calls, Finished(w, io.finish.Some?));
      if io.finish.Some? {
        var clip := ClipOf(s, at, io.finish.value);
        KeptMore(calls + [Finished(w, true)], Reported(w, clip, io.report));
      } else {
        AbortMatched(Called(s, Finished(w, false)));
      }
    }
  }

  lemma BeginMatched(s: Rec, at: Time, status: Status, trigger: Trigger, io: Io)
    requires Matched(s)
    ensures Matched(Begin(s, at, status, trigger, io).0)
  {
    KeptMore(s.log.calls, Opened(s.log.count));
  }

  lemma TelemetryMatched(s: Rec, status: Status, at: Instant, io: Io)
    requires Matched(s)
    ensures Matched(OnTelemetry(s, status, at, io).0)
  {
    hide IsActive;
    hide EndsByFrequency;
    hide Finalize;
    hide Begin;
    hide Kept;
    var active := IsActive(status);
    var t := s.(status := status);
    var u := t.(det := Observe(s.det, active, at).0,
                trigger := if s.writer.Some? && active && s.trigger == Manual then Mixed else s.trigger);
    var p := if t.pendingAt == 0 then t.(pendingAt := at, pendingStatus := status) else t;
    FinalizeMatched(t, at, io);
    FinalizeMatched(u, at, io);
    BeginMatched(t, at, status, Telemetry, io);
    BeginMatched(p, p.pendingAt, p.pendingStatus, Telemetry, io);
    BeginMatched(ClearPending(ResetDetector(Finalize(t, at, io).0)), at, status, Telemetry, io);
  }

  lemma StepMatched(s: Rec, op: Op, io: Io)
    requires Matched(s)
    ensures Matched(Step(s, op, io).0)
  {
    hide OnTelemetry;
    hide Finalize;
    hide Begin;
    hide IsActive;
    hide CountLoud;
    hide Kept;
    var at := When(op, io);
    match op
    case UpdateTelemetry(status, _) => TelemetryMatched(s, status, at, io);
    case StartManual(status, _) =>
      BeginMatched(ClearPending(s.(status := status)), at, status, if IsActive(status) then Mixed else Manual, io);
    case StopManual(_) => FinalizeMatched(s.(manual := false), at, io);
    case Tick(_) => FinalizeMatched(s.(det := Observe(s.det, false, at).0), at, io);
    case Close => FinalizeMatched(s, at, io);
    case PushPCM(samples, _) =>
      if s.writer.Some? {
        var c := Wrote(s.writer.value, samples, io.write);
        KeptMore(s.log.calls, c);
        AbortMatched(Called(s, c));
      }
    case _ =>
  }

  lemma {:induction false} RunMatched(cfg: Config, es: seq<Event>)
    ensures Matched(Run(cfg, es))
  {
    hide Step;
    if es != [] {
      var n := |es| - 1;
      RunMatched(cfg, es[..n]);
      StepMatched(Run(cfg, es[..n]), es[n].op, es[n].io);
    }
  }

  /** What the writer of a kept clip was given is exactly the PCM pushed while that clip was open. */
  lemma KeptClipHoldsItsPCM(cfg: Config, es: seq<Event>, k: nat)
    requires k < |Run(cfg, es).log.clips|
    ensures var calls := Run(cfg, es).log.calls;
      && |Kept(calls)| == |Run(cfg, es).log.clips|
      && FlacWriter.Samples(Chunks(calls, Kept(calls)[k])) == RecorderWriters.Pushed(cfg, es, Kept(calls)[k])
  {
    hide Run;
    RunMatched(cfg, es);
    RecorderInvariant.RunInProtocol(cfg, es);
    var s := Run(cfg, es);
    var calls := s.log.calls;
    InKept(calls, k);
    var id := Kept(calls)[k];
    var j :| 0 <= j < |calls| && calls[j] == Finished(id, true);
    forall i | 0 <= i < |calls| && calls[i].Wrote? && calls[i].id == id ensures calls[i].ok {
      FinishedNeverFailed(s.cfg.reports, calls, id, i, j);
    }
    ChunksWritten(calls, id);
    RecorderWriters.WriterGetsItsPCM(cfg, es, id);
  }

  /** The file of a kept clip: a FLAC writer that is given what this clip's writer was given, and finishes as it must on
      a sound disk, leaves a file that decodes to exactly the PCM pushed while the clip was open. */
  method ClipFile(cfg: Config, es: seq<Event>, k: nat, digest: seq<byte> -> Flac.Digest, sound: bool)
    returns (file: Option<seq<byte>>)
    requires k < |Run(cfg, es).log.clips|
    ensures |Kept(Run(cfg, es).log.calls)| == |Run(cfg, es).log.clips|
    ensures sound && Flac.Blocks(|RecorderWriters.Pushed(cfg, es, Kept(Run(cfg, es).log.calls)[k])|) <= Flac.MAX_FRAMES
      ==> file.Some?
    ensures file.Some? ==>
      && Flac.DecodeFile(file.value).Some?
      && Flac.Concat(Flac.DecodeFile(file.value).value.blocks)
         == RecorderWriters.Pushed(cfg, es, Kept(Run(cfg, es).log.calls)[k])
  {
    hide Run;
    KeptClipHoldsItsPCM(cfg, es, k);
    var calls := Run(cfg, es).log.calls;
    file := FlacWriter.RecordClip(Chunks(calls, Kept(calls)[k]), digest, sound);
  }
}
