/** When activity sessions start and end, what their rows then show, and how their labels come about. */
module ActivityTiming {
  import opened ActivityDetector
  import opened ActivitySpec
  import ActivityInvariant
  import Text

  // ----- What a session's label shows -----

  function MergeAll(base: Status, updates: seq<Status>): Status {
    if updates == [] then base else Merge(MergeAll(base, updates[..|updates| - 1]), updates[|updates| - 1])
  }

  /** The last value that is not blank, trimmed; `first` when there is none. */
  function LastNonBlank(first: string, updates: seq<Status>, field: Status -> string): string {
    if updates == [] then first
    else
      var v := Text.TrimSpace(field(updates[|updates| - 1]));
      if v != "" then v else LastNonBlank(first, updates[..|updates| - 1], field)
  }

  /** Each label field of a session is the last non-blank value seen for it; nothing else of the first one changes. */
  lemma {:induction false} LabelsAreLatest(base: Status, updates: seq<Status>)
    ensures var m := MergeAll(base, updates);
      && m.frequency == LastNonBlank(base.frequency, updates, (s: Status) => s.frequency)
      && m.system == LastNonBlank(base.system, updates, (s: Status) => s.system)
      && m.channel == LastNonBlank(base.channel, updates, (s: Status) => s.channel)
      && m.talkgroup == LastNonBlank(base.talkgroup, updates, (s: Status) => s.talkgroup)
      && m.connected == base.connected && m.active == base.active && m.updatedAt == base.updatedAt
  {
    hide Text.TrimSpace;
    if updates != [] {
      LabelsAreLatest(base, updates[..|updates| - 1]);
    }
  }

  /** The statuses of the active samples. */
  function Actives(es: seq<Event>): seq<Status> {
    if es == [] then []
    else
      var e := es[|es| - 1];
      Actives(es[..|es| - 1]) + if ActiveSample(e) then [e.status] else []
  }

  lemma {:induction false} ActivesAfterFirst(es: seq<Event>)
    requires es != []
    ensures Actives(es) == Actives(es[..1]) + Actives(es[1..])
  {
    var n := |es| - 1;
    if n == 0 {
      assert es[..1] == es && es[1..] == [];
    } else {
      ActivesAfterFirst(es[..n]);
      assert es[..n][..1] == es[..1] && es[..n][1..] == es[1..][..n - 1];
    }
  }

  // ----- Samples -----

  function EventTime(e: Event): Instant
    requires e.StatusUpdate?
  {
    Resolve(e.status.updatedAt, e.now)
  }

  predicate ActiveSample(e: Event) { e.StatusUpdate? && e.status.connected && e.status.active }
  predicate InactiveSample(e: Event) { e.StatusUpdate? && e.status.connected && !e.status.active }
  predicate Disconnection(e: Event) { e.StatusUpdate? && !e.status.connected }

  ghost predicate StaysLive(m: Model, es: seq<Event>) {
    forall n :: 0 <= n <= |es| ==> RunFrom(m, es[..n]).session.active
  }

  lemma LiveStep(m: Model, e: Event)
    requires ActivityInvariant.Sound(m) && m.initialized && m.session.active && Step(m, e).session.active
    ensures var t := Step(m, e);
      && t.initialized && t.session.start == m.session.start
      && t.session.status == if ActiveSample(e) then Merge(m.session.status, e.status) else m.session.status
  {
    hide Merge;
    hide Prepend;
    hide SessionRow;
    hide ActivityInvariant.ShowsNewest;
    hide ActivityInvariant.Accounted;
    hide RemoveRow;
  }

  /** As long as a session is live its label merges its active samples in the order they come, whatever inactive
      ones and settings come between. */
  lemma {:induction false} SessionLabel(m: Model, es: seq<Event>)
    requires ActivityInvariant.Sound(m) && m.initialized && StaysLive(m, es)
    ensures var t := RunFrom(m, es);
      && ActivityInvariant.Sound(t) && t.initialized && t.session.active && t.session.start == m.session.start
      && t.session.status == MergeAll(m.session.status, Actives(es))
  {
    hide Step;
    hide Merge;
    hide ActivityInvariant.Sound;
    assert RunFrom(m, es[..|es|]).session.active && es[..|es|] == es;
    if es != [] {
      var n := |es| - 1;
      forall k | 0 <= k <= n ensures RunFrom(m, es[..n][..k]).session.active {
        assert es[..n][..k] == es[..k];
      }
      SessionLabel(m, es[..n]);
      var s := RunFrom(m, es[..n]);
      ActivityInvariant.StepSound(s, es[n]);
      LiveStep(s, es[n]);
      if ActiveSample(es[n]) {
        assert (Actives(es[..n]) + [es[n].status])[..|Actives(es[..n])|] == Actives(es[..n]);
      } else {
        assert Actives(es) == Actives(es[..n]);
      }
    }
  }

  // ----- How a pending window is decided -----

  /** What leaves a window that was opened at `start` pending: settings, and active samples before the debounce time. */
  predicate KeepsWaiting(m: Model, start: Instant, e: Event) {
    e.NewSettings? || (ActiveSample(e) && EventTime(e) < start + StartDebounce(m))
  }

  /** A window opens and nothing has decided it yet. */
  ghost predicate Waiting(m: Model, es: seq<Event>) {
    && es != [] && ActiveSample(es[0])
    && forall n :: 1 <= n < |es| ==> KeepsWaiting(RunFrom(m, es[..n]), EventTime(es[0]), es[n])
  }

  function Label(es: seq<Event>): Status
    requires es != [] && ActiveSample(es[0])
  {
    MergeAll(es[0].status, Actives(es[1..]))
  }

  function SamplesSeen(es: seq<Event>): (k: nat)
    requires es != []
    ensures k > 0
  {
    1 + |Actives(es[1..])|
  }

  lemma LabelNext(es: seq<Event>)
    requires |es| >= 2 && ActiveSample(es[0])
    ensures var n := |es| - 1;
      if ActiveSample(es[n])
      then Label(es) == Merge(Label(es[..n]), es[n].status) && SamplesSeen(es) == SamplesSeen(es[..n]) + 1
      else Label(es) == Label(es[..n]) && SamplesSeen(es) == SamplesSeen(es[..n])
  {
    hide Merge;
    var n := |es| - 1;
    var a := Actives(es[1..][..n - 1]);
    assert es[1..][..n - 1] == es[..n][1..];
    if ActiveSample(es[n]) {
      assert (a + [es[n].status])[..|a|] == a;
    } else {
      assert a + [] == a;
    }
  }

  /** The state while the window is pending. */
  ghost predicate Pends(m: Model, es: seq<Event>, t: Model)
    requires es != [] && ActiveSample(es[0])
  {
    && t.initialized && t.lastConnected && !t.session.active && t.rows == m.rows && t.suppressed == m.suppressed
    && t.past == m.past.(starts := m.past.starts + 1)
    && t.pending == Pending(true, EventTime(es[0]), Label(es), SamplesSeen(es))
  }

  lemma {:induction false} StillPending(m: Model, es: seq<Event>)
    requires !m.session.active && !m.pending.on && Waiting(m, es)
    ensures Pends(m, es, RunFrom(m, es))
  {
    hide Merge;
    hide Prepend;
    hide OnInactive;
    hide OnDisconnect;
    hide Label;
    hide SamplesSeen;
    var n := |es| - 1;
    if n == 0 {
      FirstLabel(es);
      assert es[..0] == [];
    } else {
      forall k | 1 <= k < n ensures KeepsWaiting(RunFrom(m, es[..n][..k]), EventTime(es[0]), es[..n][k]) {
        assert es[..n][..k] == es[..k];
      }
      StillPending(m, es[..n]);
      LabelNext(es);
    }
  }

  lemma FirstLabel(es: seq<Event>)
    requires |es| == 1 && ActiveSample(es[0])
    ensures Label(es) == es[0].status && SamplesSeen(es) == 1
  {
    assert es[1..] == [];
  }

  /** The one thing a session leaves behind. */
  function LeftBehind(h: History, start: Time, end: Time, shown: Status, least: int): History {
    if end - start >= least then AddRow(h, Finished(start, end, shown))
    else AddEntry(h, Entry(end, TooShort(end - start), shown))
  }

  /** The window has become a session; a disconnection ends it at once, an inactive sample starts its end. */
  ghost predicate BecameSession(m: Model, start: Instant, shown: Status, least: int, e: Event, t: Model)
    requires e.StatusUpdate?
  {
    var at := EventTime(e);
    var h := m.past.(starts := m.past.starts + 1);
    && !t.pending.on
    && (if Disconnection(e)
        then !t.session.active
             && t.past == AddRow(LeftBehind(h, start, if at < start then start else at, shown, least), Disconnected(at))
        else t.session == Session(true, 0, start, shown, InactiveSample(e), if InactiveSample(e) then at else 0)
             && t.past == h && t.rows == Prepend(m.rows, Live(start, if at < start then start else at, shown), MAX_ROWS)
             && t.suppressed == m.suppressed)
  }

  /** The window has left one suppressed entry, which says what was missing: time, or else samples. */
  ghost predicate WasSuppressed(m: Model, start: Instant, debounce: int, samples: nat, shown: Status, e: Event,
                                t: Model)
    requires e.StatusUpdate?
  {
    var at := EventTime(e);
    var reason := if at >= start + debounce then TooFewSamples(samples, Disconnection(e))
                  else DebounceNotMet(if at < start then 0 else at - start, Disconnection(e));
    var entry := Entry(at, reason, shown);
    var h := AddEntry(m.past.(starts := m.past.starts + 1), entry);
    && !t.pending.on && !t.session.active
    && t.past == (if Disconnection(e) then AddRow(h, Disconnected(at)) else h)
    && t.suppressed == Prepend(m.suppressed, entry, MAX_SUPPRESSED)
    && t.rows == if Disconnection(e) then Prepend(m.rows, Disconnected(at), MAX_ROWS) else m.rows
  }

  /** A window is decided by exactly the first event that is an active sample the start debounce or more after its
      first one, an inactive sample, or a disconnection. It then becomes a session, dated from its first sample, if
      and only if it has two active samples and the start debounce has passed; otherwise it is suppressed. */
  lemma WindowDecidedExactly(m: Model, es: seq<Event>)
    requires !m.session.active && !m.pending.on && |es| >= 2 && Waiting(m, es[..|es| - 1])
    ensures var n := |es| - 1; var s, t := RunFrom(m, es[..n]), RunFrom(m, es);
      var start := EventTime(es[0]);
      if KeepsWaiting(s, start, es[n]) then Pends(m, es, t)
      else if SamplesSeen(es) >= 2 && EventTime(es[n]) >= start + StartDebounce(s)
      then BecameSession(m, start, Label(es), MinActivity(s), es[n], t)
      else WasSuppressed(m, start, StartDebounce(s), SamplesSeen(es), Label(es), es[n], t)
  {
    hide Step;
    hide Merge;
    hide Label;
    hide SamplesSeen;
    hide MergeAll;
    hide Actives;
    hide BecameSession;
    hide WasSuppressed;
    var n := |es| - 1;
    var s := RunFrom(m, es[..n]);
    var start := EventTime(es[0]);
    StillPending(m, es[..n]);
    LabelNext(es);
    if KeepsWaiting(s, start, es[n]) {
      forall k | 1 <= k < |es| ensures KeepsWaiting(RunFrom(m, es[..k]), start, es[k]) {
        if k < n {
          assert es[..n][..k] == es[..k] && es[..n][k] == es[k];
        }
      }
      StillPending(m, es);
    } else if ActiveSample(es[n]) {
      DecidedByActive(m, es[..n], s, es[n], Label(es));
    } else if InactiveSample(es[n]) {
      DecidedByInactive(m, es[..n], s, es[n]);
    } else {
      DecidedByDisconnection(m, es[..n], s, es[n]);
    }
  }

  lemma DecidedByActive(m: Model, es: seq<Event>, s: Model, e: Event, shown: Status)
    requires es != [] && ActiveSample(es[0]) && Pends(m, es, s) && ActiveSample(e)
    requires shown == Merge(Label(es), e.status) && EventTime(e) >= EventTime(es[0]) + StartDebounce(s)
    ensures BecameSession(m, EventTime(es[0]), shown, MinActivity(s), e, Step(s, e))
  {
    hide Merge;
    hide MergeAll;
    hide Actives;
    hide Prepend;
    hide OnInactive;
    hide OnDisconnect;
  }

  lemma DecidedByInactive(m: Model, es: seq<Event>, s: Model, e: Event)
    requires es != [] && ActiveSample(es[0]) && Pends(m, es, s) && InactiveSample(e)
    ensures if SamplesSeen(es) >= 2 && EventTime(e) >= EventTime(es[0]) + StartDebounce(s)
            then BecameSession(m, EventTime(es[0]), Label(es), MinActivity(s), e, Step(s, e))
            else WasSuppressed(m, EventTime(es[0]), StartDebounce(s), SamplesSeen(es), Label(es), e, Step(s, e))
  {
    hide MergeAll;
    hide Actives;
    hide OnActive;
    hide OnDisconnect;
    hide EndSession;
  }

  lemma DecidedByDisconnection(m: Model, es: seq<Event>, s: Model, e: Event)
    requires es != [] && ActiveSample(es[0]) && Pends(m, es, s) && Disconnection(e)
    ensures if SamplesSeen(es) >= 2 && EventTime(e) >= EventTime(es[0]) + StartDebounce(s)
            then BecameSession(m, EventTime(es[0]), Label(es), MinActivity(s), e, Step(s, e))
            else WasSuppressed(m, EventTime(es[0]), StartDebounce(s), SamplesSeen(es), Label(es), e, Step(s, e))
  {
    hide MergeAll;
    hide Actives;
    hide OnActive;
    hide OnInactive;
    hide Prepend;
  }

  // ----- How a session ends -----

  /** What leaves a session, quiet since `since`, ending: settings, and inactive samples before the end debounce. */
  predicate KeepsEnding(m: Model, since: Instant, e: Event) {
    e.NewSettings? || (InactiveSample(e) && EventTime(e) < since + EndDebounce(m))
  }

  /** A quiet period begins and nothing has decided it yet. */
  ghost predicate Quiet(m: Model, es: seq<Event>) {
    && es != [] && InactiveSample(es[0])
    && forall n :: 1 <= n < |es| ==> KeepsEnding(RunFrom(m, es[..n]), EventTime(es[0]), es[n])
  }

  /** The rows below the top one. */
  function Below(rows: seq<Row>): seq<Row> { if rows == [] then [] else rows[1..] }

  /** The state while the session is ending. */
  ghost predicate Ending(m: Model, since: Instant, t: Model) {
    && t.initialized && t.lastConnected && !t.pending.on && t.past == m.past && t.suppressed == m.suppressed
    && t.session == m.session.(ending := true, endingAt := since)
    && t.rows != [] && Below(t.rows) == Below(m.rows)
  }

  lemma EndingStep(m: Model, since: Instant, t: Model, e: Event)
    requires Ending(m, since, t) && m.session.active && KeepsEnding(t, since, e)
    ensures Ending(m, since, Step(t, e))
  {
    hide OnActive;
    hide OnDisconnect;
    hide EndSession;
    hide UpdateRow;
  }

  lemma EndingStarts(m: Model, e: Event)
    requires ActivityInvariant.OwnsTopRow(m) && m.initialized && m.session.active && !m.session.ending
    requires InactiveSample(e)
    ensures Ending(m, EventTime(e), Step(m, e))
  {
    hide OnActive;
    hide OnDisconnect;
    hide EndSession;
    hide Prepend;
    hide SessionRow;
  }

  lemma {:induction false} StillEnding(m: Model, es: seq<Event>)
    requires ActivityInvariant.OwnsTopRow(m) && m.initialized && m.session.active && !m.session.ending && Quiet(m, es)
    ensures Ending(m, EventTime(es[0]), RunFrom(m, es))
  {
    hide Step;
    hide Ending;
    hide ActivityInvariant.OwnsTopRow;
    var n := |es| - 1;
    if n == 0 {
      assert es[..0] == [];
      EndingStarts(m, es[0]);
    } else {
      forall k | 1 <= k < n ensures KeepsEnding(RunFrom(m, es[..n][..k]), EventTime(es[0]), es[..n][k]) {
        assert es[..n][..k] == es[..k];
      }
      StillEnding(m, es[..n]);
      EndingStep(m, EventTime(es[0]), RunFrom(m, es[..n]), es[n]);
    }
  }

  /** The session of `m` has lasted until `until`, or no time at all if that is before its start: kept as a finished
      row if long enough, otherwise its row is gone and it is listed as suppressed. */
  ghost predicate SessionEnded(m: Model, until: Instant, least: int, e: Event, t: Model)
    requires e.StatusUpdate?
  {
    var start := m.session.start;
    var end := if until < start then start else until;
    var kept := end - start >= least;
    var rows := (if kept then [Finished(start, end, m.session.status)] else []) + Below(m.rows);
    var h := LeftBehind(m.past, start, end, m.session.status, least);
    && !t.session.active && !t.pending.on
    && t.past == (if Disconnection(e) then AddRow(h, Disconnected(EventTime(e))) else h)
    && t.rows == (if Disconnection(e) then Prepend(rows, Disconnected(EventTime(e)), MAX_ROWS) else rows)
    && t.suppressed == if kept then m.suppressed
                       else Prepend(m.suppressed, Entry(end, TooShort(end - start), m.session.status), MAX_SUPPRESSED)
  }

  lemma EndedBy(m: Model, endAt: Instant)
    requires m.session.active && m.session.row == 0 && m.rows != []
    ensures var t := EndSession(m, endAt);
      var start := m.session.start;
      var end := if endAt < start then start else endAt;
      var kept := end - start >= MinActivity(m);
      && !t.session.active && t.pending == m.pending && t.lastConnected == m.lastConnected
      && t.past == LeftBehind(m.past, start, end, m.session.status, MinActivity(m))
      && t.rows == (if kept then [Finished(start, end, m.session.status)] else []) + Below(m.rows)
      && t.suppressed == if kept then m.suppressed
                         else Prepend(m.suppressed, Entry(end, TooShort(end - start), m.session.status), MAX_SUPPRESSED)
  {
    hide Prepend;
    hide AddRow;
    hide AddEntry;
    hide Below;
    var end := if endAt < m.session.start then m.session.start else endAt;
    TopRow(m.rows, Finished(m.session.start, end, m.session.status));
  }

  /** Rewriting the top row, and removing it. */
  lemma TopRow(rows: seq<Row>, row: Row)
    requires rows != []
    ensures rows[0 := row] == [row] + Below(rows)
    ensures rows[..0] + rows[1..] == [] + Below(rows)
  {
  }

  lemma EndedByEvent(m: Model, since: Instant, s: Model, e: Event)
    requires Ending(m, since, s) && m.session.active && m.session.row == 0
    requires (InactiveSample(e) && !KeepsEnding(s, since, e)) || Disconnection(e)
    ensures SessionEnded(m, since, MinActivity(s), e, Step(s, e))
  {
    hide OnActive;
    hide EndSession;
    hide LeftBehind;
    hide Below;
    hide Prepend;
    hide AddRow;
    EndedBy(s.(everConnected := s.everConnected || e.status.connected), since);
  }

  lemma ResumedBy(m: Model, since: Instant, s: Model, e: Event)
    requires Ending(m, since, s) && m.session.active && m.session.row == 0 && ActiveSample(e)
    ensures Resumed(m, Step(s, e))
  {
    hide OnInactive;
    hide OnDisconnect;
    hide Merge;
    hide SessionRow;
  }

  /** The session goes on as if it had not been quiet. */
  ghost predicate Resumed(m: Model, t: Model) {
    && t.session.active && !t.session.ending && t.session.start == m.session.start && !t.pending.on
    && Below(t.rows) == Below(m.rows) && t.past == m.past && t.suppressed == m.suppressed
  }

  /** A quiet session is decided by exactly the first event that is an active sample, an inactive one the end
      debounce or more after the first inactive one, or a disconnection. An active sample resumes it; otherwise it
      has lasted until that first inactive sample. */
  lemma SessionEndsExactly(m: Model, es: seq<Event>)
    requires ActivityInvariant.OwnsTopRow(m) && m.initialized && m.session.active && !m.session.ending
    requires |es| >= 2 && Quiet(m, es[..|es| - 1])
    ensures var n := |es| - 1; var s, t := RunFrom(m, es[..n]), RunFrom(m, es);
      var since := EventTime(es[0]);
      if KeepsEnding(s, since, es[n]) then Ending(m, since, t)
      else if ActiveSample(es[n]) then Resumed(m, t)
      else SessionEnded(m, since, MinActivity(s), es[n], t)
  {
    hide Step;
    hide Ending;
    hide Resumed;
    hide SessionEnded;
    var n := |es| - 1;
    var s := RunFrom(m, es[..n]);
    var since := EventTime(es[0]);
    StillEnding(m, es[..n]);
    if KeepsEnding(s, since, es[n]) {
      EndingStep(m, since, s, es[n]);
    } else if ActiveSample(es[n]) {
      ResumedBy(m, since, s, es[n]);
    } else {
      EndedByEvent(m, since, s, es[n]);
    }
  }

  /** A session that is not quiet ends with the connection, at that moment. */
  lemma DisconnectionEnds(m: Model, e: Event)
    requires ActivityInvariant.OwnsTopRow(m) && m.initialized && m.session.active && !m.session.ending
    requires m.lastConnected && Disconnection(e)
    ensures SessionEnded(m, EventTime(e), MinActivity(m), e, Step(m, e))
  {
    hide OnActive;
    hide OnInactive;
    hide EndSession;
    hide LeftBehind;
    hide Below;
    hide Prepend;
    hide AddRow;
    EndedBy(m, EventTime(e));
  }

  // ----- What the list shows meanwhile -----

  /** The row of a live session shows its start, its latest mark and its label; a sample marks it unless the session is
      already ending and stays so. */
  lemma LiveRowShows(m: Model, e: Event)
    requires ActivityInvariant.OwnsTopRow(m) && m.initialized && m.session.active && Step(m, e).session.active
    ensures var t := Step(m, e);
      if ActiveSample(e) || (InactiveSample(e) && !m.session.ending) then
        var at := EventTime(e);
        var mark := if at < m.session.start then m.session.start else at;
        t.rows != [] && t.rows[0] == Live(m.session.start, mark, t.session.status) && Below(t.rows) == Below(m.rows)
      else t.rows == m.rows
  {
    hide Merge;
    hide Prepend;
    hide RemoveRow;
  }

  /** In every run only a connected scanner has something open, and it is known whether one ever was connected. */
  lemma {:induction false} OpenMeansConnected(settings: Settings, es: seq<Event>)
    ensures var m := Run(settings, es);
      && (m.pending.on || m.session.active ==> m.initialized && m.lastConnected)
      && (!m.initialized ==> !m.lastConnected)
      && (m.everConnected <==> exists i :: 0 <= i < |es| && es[i].StatusUpdate? && es[i].status.connected)
  {
    hide Step;
    if es != [] {
      var n := |es| - 1;
      OpenMeansConnected(settings, es[..n]);
      ActivityInvariant.RunSound(settings, es[..n]);
      ConnectionStep(Run(settings, es[..n]), es[n]);
      if i :| 0 <= i < n && es[i].StatusUpdate? && es[i].status.connected {
        assert es[..n][i].status.connected;
      }
      assert forall i :: 0 <= i < n ==> es[..n][i] == es[i];
    }
  }

  lemma ConnectionStep(m: Model, e: Event)
    requires ActivityInvariant.Sound(m) && (!m.initialized ==> !m.session.active)
    ensures var t := Step(m, e);
      if e.NewSettings? then t == m.(settings := t.settings)
      else
        && t.initialized && t.lastConnected == e.status.connected
        && t.everConnected == (m.everConnected || e.status.connected)
        && (Disconnection(e) ==> !t.pending.on && !t.session.active)
  {
    hide OnActive;
    hide OnInactive;
    hide OnDisconnect;
    hide ActivityInvariant.Sound;
    if e.StatusUpdate? {
      var p := Prepare(m, e.status);
      PrepareSound(m, e.status);
      ActivityInvariant.KeepsSettings(p, e.status, EventTime(e));
      ActivityInvariant.OnDisconnectSound(p, EventTime(e));
      NotConnected(p, EventTime(e));
    }
  }

  lemma PrepareSound(m: Model, s: Status)
    requires ActivityInvariant.Sound(m) && (!m.initialized ==> !m.session.active)
    ensures ActivityInvariant.Sound(Prepare(m, s))
  {
    hide ActivityInvariant.Sound;
    ActivityInvariant.SameSound(m, Prepare(m, s));
  }

  lemma NotConnected(p: Model, at: Instant)
    ensures !OnDisconnect(p, at).lastConnected
  {
    hide SettlePending;
    hide EndSession;
    hide Prepend;
  }

  /** An update that finds the scanner still disconnected changes nothing that is shown. */
  lemma StillDisconnected(settings: Settings, es: seq<Event>, e: Event)
    requires Disconnection(e) && !Run(settings, es).lastConnected
    ensures var m, t := Run(settings, es), Step(Run(settings, es), e);
      t.rows == m.rows && t.suppressed == m.suppressed && t.past == m.past && !t.lastConnected
  {
    hide Run;
    OpenMeansConnected(settings, es);
  }

  /** The debounce and minimum times in nanoseconds, and how many lines the lists hold. */
  lemma Units(m: Model)
    ensures StartDebounce(m) == m.settings.startMS * 1_000_000 && EndDebounce(m) == m.settings.endMS * 1_000_000
    ensures MinActivity(m) == m.settings.minMS * 1_000_000
    ensures MAX_ROWS == 200 && MAX_SUPPRESSED == 200
  {
  }

  /** Milliseconds as configured: 0 stands for the default and a negative number for none. */
  lemma SettingsRead(s: Settings)
    ensures var n := Normalize(s);
      && n.startMS == (if s.startMS > 0 then s.startMS else if s.startMS == 0 then 150 else 0)
      && n.endMS == (if s.endMS > 0 then s.endMS else if s.endMS == 0 then 600 else 0)
      && n.minMS == (if s.minMS > 0 then s.minMS else if s.minMS == 0 then 300 else 0)
  {
  }

  /** With nothing open a disconnection adds its row if the scanner was connected, and an inactive sample nothing. */
  lemma NothingOpen(m: Model, e: Event)
    requires !m.session.active && !m.pending.on && (Disconnection(e) || InactiveSample(e))
    ensures var t := Step(m, e);
      && t.suppressed == m.suppressed && !t.session.active && !t.pending.on
      && if Disconnection(e) && m.initialized && m.lastConnected
         then t.rows == Prepend(m.rows, Disconnected(EventTime(e)), MAX_ROWS)
              && t.past == AddRow(m.past, Disconnected(EventTime(e)))
         else t.rows == m.rows && t.past == m.past
  {
    hide Prepend;
    hide EndSession;
    hide OnActive;
  }
}
