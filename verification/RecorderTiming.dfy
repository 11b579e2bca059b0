/** When automatic clips end, and how the clips of a run lie on the time line. */
module RecorderTiming {
  import opened Wrappers
  import opened ActivityDetector
  import opened RecorderSpec
  import opened RecorderInvariant

  function EventTime(e: Event): Instant { When(e.op, e.io) }

  // ----- Hang time -----

  /** An automatic clip is open. */
  ghost predicate Automatic(s: Rec) { ClipConsistent(s) && s.writer.Some? && !s.manual }

  /** Nothing in this event but inactivity could end the clip: no split, avoid, manual action, close or fault. */
  ghost predicate Calm(s: Rec, e: Event) {
    match e.op
    case UpdateTelemetry(status, _) => !EndsByAvoid(status) && !EndsByFrequency(s.info, status)
    case Tick(_) => true
    case PushPCM(_, _) => e.io.write
    case UpdateOutputDir(_) => true
    case UpdateAutoPolicy(_, _) => true
    case _ => false
  }

  predicate ActiveSample(e: Event) { e.op.UpdateTelemetry? && IsActive(e.op.status) }
  predicate InactiveSample(e: Event) { e.op.UpdateTelemetry? && !IsActive(e.op.status) }

  /** The first inactive sample since the last active one: the start of the present quiet period. */
  function QuietSince(es: seq<Event>): Option<Instant> {
    if es == [] then None else Quieter(QuietSince(es[..|es| - 1]), es[|es| - 1])
  }

  function Quieter(q: Option<Instant>, e: Event): Option<Instant> {
    if ActiveSample(e) then None else if InactiveSample(e) && q.None? then Some(EventTime(e)) else q
  }

  /** Inactivity noticed when the quiet period has lasted the hang time. */
  predicate Expires(q: Option<Instant>, hang: nat, e: Event) {
    (InactiveSample(e) || e.op.Tick?) && q.Some? && EventTime(e) >= q.value + hang
  }

  ghost predicate Tracks(s: Rec, q: Option<Instant>) {
    if q.None? then s.det.phase == Active else s.det.phase == Hang && s.det.hangUntil == q.value + s.det.hangTime
  }

  lemma CalmStep(s: Rec, q: Option<Instant>, e: Event)
    requires Automatic(s) && Tracks(s, q) && Calm(s, e)
    ensures var t := Step(s, e.op, e.io).0;
      if Expires(q, s.det.hangTime, e) then t.writer.None?
      else t.writer == s.writer && Automatic(t) && Tracks(t, Quieter(q, e)) && t.det.hangTime == s.det.hangTime
  {
    hide IsActive;
    hide EndsByFrequency;
    hide CountLoud;
    hide Finalize;
    StepConsistent(s, e.op, e.io);
    var at := EventTime(e);
    match e.op
    case UpdateTelemetry(status, _) =>
      var active := IsActive(status);
      FinalizeConsistent(s.(status := status, det := Observe(s.det, active, at).0), at, e.io);
    case Tick(_) => FinalizeConsistent(s.(det := Observe(s.det, false, at).0), at, e.io);
    case _ =>
  }

  ghost predicate Calmly(s: Rec, es: seq<Event>) {
    forall n :: 0 <= n < |es| ==> Calm(RunFrom(s, es[..n]), es[n])
  }

  ghost predicate Unexpired(hang: nat, es: seq<Event>) {
    forall n :: 0 <= n < |es| ==> !Expires(QuietSince(es[..n]), hang, es[n])
  }

  lemma CalmlyPrefix(s: Rec, es: seq<Event>, n: nat)
    requires Calmly(s, es) && n <= |es|
    ensures Calmly(s, es[..n])
  {
    forall k | 0 <= k < n ensures Calm(RunFrom(s, es[..n][..k]), es[..n][k]) {
      assert es[..n][..k] == es[..k];
    }
  }

  lemma UnexpiredPrefix(hang: nat, es: seq<Event>, n: nat)
    requires Unexpired(hang, es) && n <= |es|
    ensures Unexpired(hang, es[..n])
  {
    forall k | 0 <= k < n ensures !Expires(QuietSince(es[..n][..k]), hang, es[..n][k]) {
      assert es[..n][..k] == es[..k];
    }
  }

  lemma {:induction false} ClipLasts(s: Rec, es: seq<Event>)
    requires Automatic(s) && s.det.phase == Active && Calmly(s, es) && Unexpired(s.det.hangTime, es)
    ensures var t := RunFrom(s, es);
      t.writer == s.writer && Automatic(t) && Tracks(t, QuietSince(es)) && t.det.hangTime == s.det.hangTime
  {
    hide Step;
    hide Automatic;
    hide Expires;
    hide Calm;
    if es != [] {
      var n := |es| - 1;
      CalmlyPrefix(s, es, n);
      UnexpiredPrefix(s.det.hangTime, es, n);
      ClipLasts(s, es[..n]);
      CalmStep(RunFrom(s, es[..n]), QuietSince(es[..n]), es[n]);
    }
  }

  /** An automatic clip ends at exactly the first inactive sample or tick that comes hang time or more after the
      start of its quiet period: never earlier, and then at once. */
  lemma ClipEndsExactly(s: Rec, es: seq<Event>)
    requires Automatic(s) && s.det.phase == Active && es != [] && Calmly(s, es)
    requires Unexpired(s.det.hangTime, es[..|es| - 1])
    ensures var n := |es| - 1;
      && RunFrom(s, es[..n]).writer == s.writer
      && RunFrom(s, es).writer == (if Expires(QuietSince(es[..n]), s.det.hangTime, es[n]) then None else s.writer)
  {
    hide Step;
    hide Automatic;
    hide Expires;
    hide Calm;
    var n := |es| - 1;
    CalmlyPrefix(s, es, n);
    ClipLasts(s, es[..n]);
    CalmStep(RunFrom(s, es[..n]), QuietSince(es[..n]), es[n]);
  }

  ghost predicate NonDecreasing(es: seq<Event>, i: nat) {
    forall k, l :: i <= k <= l < |es| ==> EventTime(es[k]) <= EventTime(es[l])
  }

  lemma {:induction false} QuietAfterActive(es: seq<Event>, i: nat, n: nat)
    requires i < n <= |es| && ActiveSample(es[i]) && NonDecreasing(es, i)
    ensures var q := QuietSince(es[..n]); q.Some? ==> q.value >= EventTime(es[i])
    decreases n
  {
    assert es[..n][..n - 1] == es[..n - 1];
    if n > i + 1 {
      QuietAfterActive(es, i, n - 1);
    }
  }

  /** Two active samples less than the hang time apart are in the same clip. */
  lemma SameClip(s: Rec, es: seq<Event>, i: nat)
    requires Automatic(s) && s.det.phase == Active && Calmly(s, es)
    requires i < |es| - 1 && ActiveSample(es[i]) && ActiveSample(es[|es| - 1])
    requires Unexpired(s.det.hangTime, es[..i]) && NonDecreasing(es, i)
    requires EventTime(es[|es| - 1]) - EventTime(es[i]) < s.det.hangTime
    ensures RunFrom(s, es[..i]).writer == RunFrom(s, es).writer == s.writer
  {
    hide RunFrom;
    hide Automatic;
    hide Expires;
    NoExpiry(s.det.hangTime, es, i);
    ClipLasts(s, es);
    CalmlyPrefix(s, es, i);
    ClipLasts(s, es[..i]);
  }

  /** Between two active samples less than the hang time apart no quiet period can last that long. */
  lemma NoExpiry(hang: nat, es: seq<Event>, i: nat)
    requires i < |es| - 1 && ActiveSample(es[i]) && ActiveSample(es[|es| - 1])
    requires Unexpired(hang, es[..i]) && NonDecreasing(es, i) && EventTime(es[|es| - 1]) - EventTime(es[i]) < hang
    ensures Unexpired(hang, es)
  {
    hide IsActive;
    forall n | 0 <= n < |es| ensures !Expires(QuietSince(es[..n]), hang, es[n]) {
      if n < i {
        assert es[..i][..n] == es[..n] && es[..i][n] == es[n];
      } else if n > i {
        QuietAfterActive(es, i, n);
      }
    }
  }

  /** A telemetry update that opens a clip leaves it automatic with an active detector, so the above applies from
      there on. */
  lemma OpenedAutomatic(s: Rec, status: Status, at: nat, io: Io)
    requires ClipConsistent(s) && s.fault.None?
    ensures var t := Step(s, Op.UpdateTelemetry(status, at), io).0;
      t.writer.Some? && t.writer != s.writer ==> Automatic(t) && t.det == Fresh(s.cfg.hangTime).(phase := Active)
  {
    hide IsActive;
    hide EndsByFrequency;
    var w := When(Op.UpdateTelemetry(status, at), io);
    TelemetryConsistent(s, status, w, io);
    FinalizeKeepsReports(s.(status := status), w, io);
  }

  // ----- Debounce -----

  /** No clip is open and no start is pending; automatic starts are debounced. */
  ghost predicate NothingPending(s: Rec) {
    s.writer.None? && !s.manual && s.fault.None? && s.pendingAt == 0 && s.cfg.startDebounce > 0
  }

  /** An active sample that opens the clip of an activity that began at `since`. */
  predicate Opens(s: Rec, since: Instant, e: Event) {
    ActiveSample(e) && EventTime(e) >= since + s.cfg.startDebounce && s.cfg.outputDir != "" && e.io.open
  }

  /** What leaves a start pending: any other active sample, a failing open included, and every operation that is
      neither telemetry nor a manual start. */
  predicate KeepsDebouncing(s: Rec, since: Instant, e: Event) {
    if e.op.UpdateTelemetry? then ActiveSample(e) && !Opens(s, since, e) else !e.op.StartManual?
  }

  /** An activity begins and nothing has decided it yet. */
  ghost predicate Debouncing(s: Rec, es: seq<Event>) {
    && es != [] && ActiveSample(es[0])
    && forall n :: 1 <= n < |es| ==> KeepsDebouncing(RunFrom(s, es[..n]), EventTime(es[0]), es[n])
  }

  /** Nothing but the policy, its detector and the current status has changed. */
  ghost predicate AwaitsDebounce(s: Rec, first: Event, t: Rec)
    requires first.op.UpdateTelemetry?
  {
    && t == s.(status := t.status, cfg := t.cfg, det := t.det,
               pendingAt := EventTime(first), pendingStatus := first.op.status)
    && t.cfg.startDebounce == s.cfg.startDebounce
  }

  lemma DebouncingStarts(s: Rec, e: Event)
    requires NothingPending(s) && ActiveSample(e)
    ensures AwaitsDebounce(s, e, Step(s, e.op, e.io).0)
  {
    hide IsActive;
    hide Begin;
  }

  lemma DebouncingStep(s: Rec, first: Event, t: Rec, e: Event)
    requires NothingPending(s) && first.op.UpdateTelemetry? && AwaitsDebounce(s, first, t)
    requires KeepsDebouncing(t, EventTime(first), e)
    ensures AwaitsDebounce(s, first, Step(t, e.op, e.io).0)
  {
    hide IsActive;
    hide CountLoud;
  }

  lemma {:induction false} StillDebouncing(s: Rec, es: seq<Event>)
    requires NothingPending(s) && Debouncing(s, es)
    ensures AwaitsDebounce(s, es[0], RunFrom(s, es))
  {
    hide Step;
    hide IsActive;
    hide AwaitsDebounce;
    var n := |es| - 1;
    if n == 0 {
      assert es[..0] == [];
      DebouncingStarts(s, es[0]);
    } else {
      forall k | 1 <= k < n ensures KeepsDebouncing(RunFrom(s, es[..n][..k]), EventTime(es[0]), es[..n][k]) {
        assert es[..n][..k] == es[..k];
      }
      StillDebouncing(s, es[..n]);
      DebouncingStep(s, es[0], RunFrom(s, es[..n]), es[n]);
    }
  }

  /** The clip of an activity that began with `first`, opened just now. */
  ghost predicate ClipOpened(s: Rec, first: Event, t: Rec)
    requires first.op.UpdateTelemetry?
  {
    && t.writer == Some(s.log.count) && t.log == Log(s.log.count + 1, s.log.calls + [Opened(s.log.count)], s.log.clips)
    && t.started == EventTime(first) && t.info == first.op.status && t.trigger == Telemetry && !t.manual
    && t.path == PathOf(t.cfg, EventTime(first), first.op.status)
    && t.pendingAt == 0 && t.det == Fresh(t.cfg.hangTime).(phase := Active)
  }

  /** The start has been given up: nothing is open or pending. */
  ghost predicate GivenUp(s: Rec, t: Rec) {
    t == s.(status := t.status, cfg := t.cfg, det := Fresh(t.cfg.hangTime), pendingStatus := NO_STATUS)
  }

  /** A manual clip takes the place of the pending start, or fails to open and leaves nothing pending. */
  ghost predicate TakenOver(s: Rec, e: Event, t: Rec) {
    && t.pendingAt == 0 && t.fault.None?
    && if t.cfg.outputDir != "" && e.io.open
       then t.manual && t.writer == Some(s.log.count) && t.started == EventTime(e) && t.trigger in {Manual, Mixed}
       else !t.manual && t.writer.None? && t.log == s.log
  }

  /** A pending start is decided by exactly the first event that is an active sample at least the debounce time after
      the first one and can open a file, an inactive sample, or a manual start. The first opens the clip, dated and
      labelled from the beginning of the activity; the others leave nothing pending. */
  lemma DebounceExactly(s: Rec, es: seq<Event>)
    requires NothingPending(s) && |es| >= 2 && Debouncing(s, es[..|es| - 1])
    ensures var n := |es| - 1; var m, t := RunFrom(s, es[..n]), RunFrom(s, es);
      if KeepsDebouncing(m, EventTime(es[0]), es[n]) then AwaitsDebounce(s, es[0], t)
      else if Opens(m, EventTime(es[0]), es[n]) then ClipOpened(s, es[0], t)
      else if InactiveSample(es[n]) then GivenUp(s, t)
      else TakenOver(s, es[n], t)
  {
    hide Step;
    hide IsActive;
    hide AwaitsDebounce;
    hide ClipOpened;
    hide GivenUp;
    hide TakenOver;
    var n := |es| - 1;
    var m, e := RunFrom(s, es[..n]), es[n];
    StillDebouncing(s, es[..n]);
    if KeepsDebouncing(m, EventTime(es[0]), e) {
      DebouncingStep(s, es[0], m, e);
    } else if Opens(m, EventTime(es[0]), e) {
      DebounceOpens(s, es[0], m, e);
    } else {
      DebounceEnds(s, es[0], m, e);
    }
  }

  lemma DebounceOpens(s: Rec, first: Event, m: Rec, e: Event)
    requires NothingPending(s) && first.op.UpdateTelemetry? && AwaitsDebounce(s, first, m)
    requires Opens(m, EventTime(first), e)
    ensures ClipOpened(s, first, Step(m, e.op, e.io).0)
  {
    hide IsActive;
  }

  lemma DebounceEnds(s: Rec, first: Event, m: Rec, e: Event)
    requires NothingPending(s) && first.op.UpdateTelemetry? && AwaitsDebounce(s, first, m)
    requires InactiveSample(e) || e.op.StartManual?
    ensures var t := Step(m, e.op, e.io).0; if InactiveSample(e) then GivenUp(s, t) else TakenOver(s, e, t)
  {
    hide IsActive;
  }

  // ----- The time line -----

  predicate Timed(op: Op) { !op.UpdateOutputDir? && !op.UpdateAutoPolicy? }

  function LastTime(es: seq<Event>): nat {
    if es == [] then 0
    else if Timed(es[|es| - 1].op) then EventTime(es[|es| - 1]) else LastTime(es[..|es| - 1])
  }

  /** Every timed event comes strictly after the one before it. */
  ghost predicate Increasing(es: seq<Event>) {
    es == [] || (var n := |es| - 1;
      Increasing(es[..n]) && (Timed(es[n].op) ==> LastTime(es[..n]) < EventTime(es[n])))
  }

  /** start < end <= next start, with the start time as ID. */
  ghost predicate Ordered(clips: seq<Clip>) {
    && (forall i :: 0 <= i < |clips| ==> clips[i].id == clips[i].startedAt < clips[i].endedAt)
    && (forall i, j :: 0 <= i < j < |clips| ==> clips[i].endedAt <= clips[j].startedAt)
  }

  function LastEnd(clips: seq<Clip>): nat { if clips == [] then 0 else clips[|clips| - 1].endedAt }

  ghost predicate Timely(s: Rec, last: nat) {
    && Ordered(s.log.clips) && LastEnd(s.log.clips) <= last
    && (s.writer.Some? ==> LastEnd(s.log.clips) <= s.started <= last)
    && (s.pendingAt != 0 ==> LastEnd(s.log.clips) <= s.pendingAt <= last)
  }

  lemma FinalizeTimely(s: Rec, last: nat, at: Instant, io: Io)
    requires Timely(s, last) && last < at
    ensures Timely(Finalize(s, at, io).0, at) && (s.pendingAt == 0 ==> Finalize(s, at, io).0.pendingAt == 0)
    ensures s.writer.Some? ==> Finalize(s, at, io).0.pendingAt == 0
  {
    hide Suppress;
    if s.writer.Some? && !Suppress(s, at) && io.finish.Some? {
      var clip := ClipOf(s, at, io.finish.value);
      OrderedMore(s.log.clips, clip);
    }
  }

  lemma OrderedMore(clips: seq<Clip>, c: Clip)
    requires Ordered(clips) && c.id == c.startedAt < c.endedAt && LastEnd(clips) <= c.startedAt
    ensures Ordered(clips + [c]) && LastEnd(clips + [c]) == c.endedAt
  {
    forall i | 0 <= i < |clips| ensures clips[i].endedAt <= c.startedAt {
      if i < |clips| - 1 {
        assert clips[i].endedAt <= clips[|clips| - 1].startedAt < clips[|clips| - 1].endedAt;
      }
    }
  }

  lemma TelemetryTimely(s: Rec, last: nat, status: Status, at: Instant, io: Io)
    requires ClipConsistent(s) && Timely(s, last) && last < at
    ensures Timely(OnTelemetry(s, status, at, io).0, at)
  {
    hide IsActive;
    hide EndsByFrequency;
    hide Finalize;
    hide Ordered;
    var active := IsActive(status);
    var t := s.(status := status);
    var u := t.(det := Observe(s.det, active, at).0,
                trigger := if s.writer.Some? && active && s.trigger == Manual then Mixed else s.trigger);
    FinalizeTimely(t, last, at, io);
    FinalizeTimely(u, last, at, io);
    FinalizeCloses(t, at, io);
  }

  lemma StepTimely(s: Rec, last: nat, e: Event)
    requires ClipConsistent(s) && Timely(s, last) && (Timed(e.op) ==> last < EventTime(e))
    ensures Timely(Step(s, e.op, e.io).0, if Timed(e.op) then EventTime(e) else last)
  {
    hide OnTelemetry;
    hide Finalize;
    hide Ordered;
    hide IsActive;
    hide CountLoud;
    var at := EventTime(e);
    match e.op
    case UpdateTelemetry(status, _) => if s.fault.None? { TelemetryTimely(s, last, status, at, e.io); }
    case StopManual(_) => FinalizeTimely(s.(manual := false), last, at, e.io);
    case Tick(_) => FinalizeTimely(s.(det := Observe(s.det, false, at).0), last, at, e.io);
    case Close => FinalizeTimely(s, last, at, e.io);
    case _ =>
  }

  lemma {:induction false} RunTimely(cfg: Config, es: seq<Event>)
    requires Increasing(es)
    ensures Timely(Run(cfg, es), LastTime(es))
  {
    hide Step;
    if es != [] {
      var n := |es| - 1;
      RunTimely(cfg, es[..n]);
      RunConsistent(cfg, es[..n]);
      StepTimely(Run(cfg, es[..n]), LastTime(es[..n]), es[n]);
    }
  }

  /** With strictly increasing event times the finished clips of any run lie one after the other, and their
      start-time IDs are distinct. */
  lemma ClipsInOrder(cfg: Config, es: seq<Event>)
    requires Increasing(es)
    ensures var clips := Run(cfg, es).log.clips;
      Ordered(clips) && forall i, j :: 0 <= i < j < |clips| ==> clips[i].id < clips[j].id
  {
    RunTimely(cfg, es);
  }

  // ----- Suppression -----

  /** A finished clip that was purely automatic is at least this long. */
  ghost predicate LongEnough(clips: seq<Clip>, least: nat) {
    forall i :: 0 <= i < |clips| && clips[i].trigger == Telemetry ==> clips[i].endedAt - clips[i].startedAt >= least
  }

  lemma FinalizeLongEnough(s: Rec, at: Time, io: Io, least: nat)
    requires least > 0 && least <= s.cfg.minAuto && LongEnough(s.log.clips, least)
    requires s.writer.Some? ==> s.trigger != NoTrigger
    ensures LongEnough(Finalize(s, at, io).0.log.clips, least)
  {
  }

  lemma TelemetryLongEnough(s: Rec, status: Status, at: Instant, io: Io, least: nat)
    requires ClipConsistent(s) && least > 0 && least <= s.cfg.minAuto && LongEnough(s.log.clips, least)
    ensures LongEnough(OnTelemetry(s, status, at, io).0.log.clips, least)
  {
    hide IsActive;
    hide EndsByFrequency;
    hide Finalize;
    hide LongEnough;
    var active := IsActive(status);
    var t := s.(status := status);
    var u := t.(det := Observe(s.det, active, at).0,
                trigger := if s.writer.Some? && active && s.trigger == Manual then Mixed else s.trigger);
    FinalizeLongEnough(t, at, io, least);
    FinalizeLongEnough(u, at, io, least);
  }

  lemma StepLongEnough(s: Rec, e: Event, least: nat)
    requires ClipConsistent(s) && least > 0 && least <= s.cfg.minAuto && LongEnough(s.log.clips, least)
    ensures LongEnough(Step(s, e.op, e.io).0.log.clips, least)
  {
    hide OnTelemetry;
    hide Finalize;
    hide LongEnough;
    hide IsActive;
    hide CountLoud;
    var at := EventTime(e);
    match e.op
    case UpdateTelemetry(status, _) => TelemetryLongEnough(s, status, at, e.io, least);
    case StopManual(_) => FinalizeLongEnough(s.(manual := false), at, e.io, least);
    case Tick(_) => FinalizeLongEnough(s.(det := Observe(s.det, false, at).0), at, e.io, least);
    case Close => FinalizeLongEnough(s, at, e.io, least);
    case _ =>
  }

  lemma StepKeepsMinAuto(s: Rec, e: Event)
    ensures var t := Step(s, e.op, e.io).0;
      t.cfg.minAuto ==
        if !e.op.UpdateAutoPolicy? then s.cfg.minAuto else if e.op.minAuto < 0 then 0 else e.op.minAuto
  {
    hide Finalize;
    hide CountLoud;
    hide IsActive;
    hide EndsByFrequency;
    var at := EventTime(e);
    FinalizeKeepsReports(s, at, e.io);
    FinalizeKeepsReports(s.(manual := false), at, e.io);
    FinalizeKeepsReports(s.(det := Observe(s.det, false, at).0), at, e.io);
    if e.op.UpdateTelemetry? {
      var active := IsActive(e.op.status);
      var t := s.(status := e.op.status);
      FinalizeKeepsReports(t, at, e.io);
      FinalizeKeepsReports(t.(det := Observe(s.det, active, at).0,
        trigger := if s.writer.Some? && active && s.trigger == Manual then Mixed else s.trigger), at, e.io);
    }
  }

  /** While the configured minimum is never below `least`, no purely automatic clip shorter than that is kept. */
  lemma {:induction false} AutomaticClipsLongEnough(cfg: Config, es: seq<Event>, least: nat)
    requires 0 < least <= cfg.minAuto
    requires forall i :: 0 <= i < |es| && es[i].op.UpdateAutoPolicy? ==> es[i].op.minAuto >= least
    ensures LongEnough(Run(cfg, es).log.clips, least) && Run(cfg, es).cfg.minAuto >= least
  {
    hide Step;
    if es != [] {
      var n := |es| - 1;
      AutomaticClipsLongEnough(cfg, es[..n], least);
      RunConsistent(cfg, es[..n]);
      StepLongEnough(Run(cfg, es[..n]), es[n], least);
      StepKeepsMinAuto(Run(cfg, es[..n]), es[n]);
    }
  }

  /** An automatic clip is kept exactly when it is long enough, holds PCM and holds floor(seconds * 8000) loud
      samples, each as far as configured. A clip that ends before it started has length 0. */
  lemma KeptExactly(s: Rec, at: Time, io: Io)
    requires s.writer.Some? && s.trigger == Telemetry && io.finish.Some?
    ensures var length := if at < s.started then 0 else at - s.started;
      Finalize(s, at, io).0.log.clips != s.log.clips <==>
        (|| (s.cfg.minAuto == 0 && s.cfg.minNonSilent == 0)
         || (length >= s.cfg.minAuto && s.total > 0 && s.nonSilent >= s.cfg.minNonSilent * 8000 / SECOND))
  {
    ThresholdExact(s.cfg.minNonSilent);
  }

  /** The two-part threshold is the exact one rounded down, and no step of it overflows 63 bits. */
  lemma ThresholdExact(d: nat)
    ensures MinSamples(d) == d * 8000 / SECOND
    ensures d < 0x8000_0000_0000_0000 ==>
      d / SECOND * 8000 < 0x8000_0000_0000_0000 && d % SECOND * 8000 < 0x8000_0000_0000_0000
      && MinSamples(d) < 0x8000_0000_0000_0000
  {
    var q, r := d / SECOND, d % SECOND;
    assert d == q * SECOND + r;
    assert d * 8000 == q * 8000 * SECOND + r * 8000;
    assert (q * 8000 * SECOND + r * 8000) / SECOND == q * 8000 + r * 8000 / SECOND;
  }
}
