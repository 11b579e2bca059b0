/** What the activity list keeps over every run of status updates. */
module ActivityInvariant {
  import opened ActivityDetector
  import opened ActivitySpec

  /** The rows that are no longer going to change. */
  function Settled(m: Model): seq<Row> {
    if m.session.active && m.rows != [] then m.rows[1..] else m.rows
  }

  /** A live session owns the top row and nothing is pending beside it; without one no row is live. */
  ghost predicate OwnsTopRow(m: Model) {
    && (m.session.active ==>
          && !m.pending.on && m.session.row == 0 && m.rows != []
          && m.rows[0].Live? && m.rows[0].start == m.session.start && m.rows[0].status == m.session.status)
    && (forall i :: 0 <= i < |Settled(m)| ==> !Settled(m)[i].Live?)
  }

  /** Settled rows are the newest ones ever settled, in order; only when there were 200 rows may older ones be
      missing, and then at least 199 are shown. Suppressed entries are exactly the newest 200. */
  ghost predicate ShowsNewest(m: Model) {
    && |m.rows| <= MAX_ROWS
    && Settled(m) <= m.past.rows
    && (|Settled(m)| < |m.past.rows| ==> |Settled(m)| >= MAX_ROWS - 1)
    && m.suppressed == (if |m.past.entries| > MAX_SUPPRESSED then m.past.entries[..MAX_SUPPRESSED] else m.past.entries)
  }

  /** No window twice, and later ones first. */
  ghost predicate LatestFirst(windows: seq<nat>) {
    forall i, j :: 0 <= i < j < |windows| && windows[i] > 0 ==> windows[j] < windows[i]
  }

  /** Each window ever started, numbered 1, 2, ..., has exactly one outcome: it is the newest one and still open, or
      it has one finished row of its own, or one suppressed entry of its own. */
  ghost predicate Accounted(h: History, open: bool) {
    && |h.rowWindows| == |h.rows| && |h.entryWindows| == |h.entries|
    && (forall i :: 0 <= i < |h.rows| ==> (h.rowWindows[i] > 0 <==> h.rows[i].Finished?))
    && LatestFirst(h.rowWindows) && LatestFirst(h.entryWindows)
    && (forall w :: 1 <= w <= h.starts ==> w in h.rowWindows || w in h.entryWindows || (open && w == h.starts))
    && (forall w :: w in h.rowWindows && w > 0 ==> w <= h.starts && w !in h.entryWindows && !(open && w == h.starts))
    && (forall w :: w in h.entryWindows ==> 1 <= w <= h.starts && !(open && w == h.starts))
    && (open ==> h.starts > 0)
  }

  ghost predicate EachWindowOnce(m: Model) {
    Accounted(m.past, m.pending.on || m.session.active)
  }

  ghost predicate Sound(m: Model) {
    OwnsTopRow(m) && ShowsNewest(m) && EachWindowOnce(m)
  }

  lemma StartAccounted(h: History)
    requires Accounted(h, false)
    ensures Accounted(h.(starts := h.starts + 1), true)
  {
  }

  lemma NoteWindow(windows: seq<nat>, w: nat)
    requires LatestFirst(windows) && (w == 0 || forall v :: v in windows ==> v < w)
    ensures LatestFirst([w] + windows) && forall v :: v in [w] + windows <==> v == w || v in windows
  {
    var all := [w] + windows;
    assert forall i :: 1 <= i < |all| ==> all[i] in windows;
    assert forall v :: v in [w] <==> v == w;
  }

  lemma EntryAccounted(h: History, e: Entry)
    requires Accounted(h, true)
    ensures Accounted(AddEntry(h, e), false)
  {
    hide LatestFirst;
    NoteWindow(h.entryWindows, h.starts);
  }

  lemma RowAccounted(h: History, row: Row)
    requires Accounted(h, row.Finished?)
    ensures Accounted(AddRow(h, row), false)
  {
    hide LatestFirst;
    NoteWindow(h.rowWindows, if row.Finished? then h.starts else 0);
  }

  lemma PromoteSound(m: Model, mark: Time)
    requires Sound(m) && m.pending.on
    ensures Sound(Promote(m, mark))
  {
    hide Accounted;
    hide Prepend;
    hide SessionRow;
    var start := if m.pending.at == 0 then mark else m.pending.at;
    PrependBelow(m.rows, SessionRow(start, mark, m.pending.status, true));
    LiveRow(start, mark, m.pending.status);
  }

  lemma LiveRow(start: Time, mark: Time, status: Status)
    ensures var r := SessionRow(start, mark, status, true); r.Live? && r.start == start && r.status == status
  {
  }

  lemma PrependBelow(rows: seq<Row>, row: Row)
    requires |rows| <= MAX_ROWS
    ensures var r := Prepend(rows, row, MAX_ROWS);
      r[1..] == if |rows| < MAX_ROWS then rows else rows[..MAX_ROWS - 1]
  {
  }

  lemma SuppressPendingSound(m: Model, at: Time, atDisconnect: bool)
    requires Sound(m) && m.pending.on
    ensures Sound(SuppressPending(m, at, atDisconnect))
  {
    hide Accounted;
    EntryAccounted(m.past, SuppressPending(m, at, atDisconnect).past.entries[0]);
  }

  lemma SettlePendingSound(m: Model, at: Instant, atDisconnect: bool)
    requires Sound(m)
    ensures Sound(SettlePending(m, at, atDisconnect)) && !SettlePending(m, at, atDisconnect).pending.on
  {
    hide Sound;
    if m.pending.on {
      PromoteSound(m, at);
      SuppressPendingSound(m, at, atDisconnect);
    }
  }

  /** Marking a live session rewrites the top row and no other. */
  lemma MarkSound(m: Model, session: Session, at: Time)
    requires Sound(m) && m.session.active && session.active && session.row == m.session.row
    requires session.start == m.session.start
    ensures var u := UpdateRow(m.(session := session), at, true);
      Sound(u) && u.session == session && |u.rows| == |m.rows| && u.rows[1..] == m.rows[1..] && u.past == m.past
  {
  }

  lemma ShortSessionSound(m: Model, e: Entry)
    requires Sound(m) && m.session.active
    ensures Sound(SuppressEntry(RemoveRow(m), e).(session := Session(false, -1, 0, NO_STATUS, false, 0)))
  {
    hide Accounted;
    EntryAccounted(m.past, e);
    assert RemoveRow(m).rows == m.rows[1..];
  }

  lemma LongSessionSound(m: Model, row: Row)
    requires Sound(m) && m.session.active && row.Finished?
    ensures Sound(m.(rows := m.rows[0 := row], past := AddRow(m.past, row),
                     session := Session(false, -1, 0, NO_STATUS, false, 0)))
  {
    hide Accounted;
    RowAccounted(m.past, row);
    assert m.rows[0 := row] == [row] + m.rows[1..];
    assert ([row] + m.past.rows)[1..] == m.past.rows;
  }

  lemma EndSessionSound(m: Model, endAt: Time)
    requires Sound(m)
    ensures Sound(EndSession(m, endAt)) && !EndSession(m, endAt).session.active
  {
    hide Settled;
    hide ShowsNewest;
    hide EachWindowOnce;
    if m.session.active {
      var end := if endAt == 0 || endAt < m.session.start then m.session.start else endAt;
      ShortSessionSound(m, Entry(end, TooShort(end - m.session.start), m.session.status));
      LongSessionSound(m, SessionRow(m.session.start, end, m.session.status, false));
    }
  }

  lemma DisconnectRowSound(m: Model, at: Time)
    requires Sound(m) && !m.session.active && !m.pending.on
    ensures Sound(m.(rows := Prepend(m.rows, Disconnected(at), MAX_ROWS), past := AddRow(m.past, Disconnected(at))))
  {
    hide Accounted;
    RowAccounted(m.past, Disconnected(at));
    assert ([Disconnected(at)] + m.past.rows)[1..] == m.past.rows;
  }

  /** Settings, connection flags and, without a session, the row index do not matter. */
  lemma SameSound(m: Model, n: Model)
    requires Sound(m) && n.rows == m.rows && n.suppressed == m.suppressed && n.pending == m.pending && n.past == m.past
    requires n.session == m.session || (!m.session.active && !n.session.active)
    ensures Sound(n)
  {
  }

  lemma OnActiveSound(m: Model, s: Status, at: Instant)
    requires Sound(m)
    ensures Sound(OnActive(m, s, at))
  {
    hide Merge;
    hide UpdateRow;
    hide Promote;
    hide Accounted;
    if m.session.active {
      MarkSound(m, m.session.(status := Merge(m.session.status, s), ending := false, endingAt := 0), at);
    } else {
      var p := if !m.pending.on
               then m.(pending := Pending(true, at, s, 1), past := m.past.(starts := m.past.starts + 1))
               else m.(pending := Pending(true, m.pending.at, Merge(m.pending.status, s), m.pending.samples + 1));
      if !m.pending.on {
        StartAccounted(m.past);
      }
      assert Sound(p);
      PromoteSound(p, at);
    }
  }

  lemma OnInactiveSound(m: Model, at: Instant)
    requires Sound(m)
    ensures Sound(OnInactive(m, at))
  {
    hide Sound;
    hide SettlePending;
    hide UpdateRow;
    hide EndSession;
    SettlePendingSound(m, at, false);
    var s := SettlePending(m, at, false);
    if s.session.active {
      if !s.session.ending {
        MarkSound(s, s.session.(ending := true, endingAt := at), at);
      } else {
        EndSessionSound(s, s.session.endingAt);
      }
    }
  }

  lemma OnDisconnectSound(m: Model, at: Instant)
    requires Sound(m)
    ensures Sound(OnDisconnect(m, at)) && !OnDisconnect(m, at).session.active && !OnDisconnect(m, at).pending.on
  {
    hide Sound;
    hide SettlePending;
    hide EndSession;
    SettlePendingSound(m, at, true);
    var s := SettlePending(m, at, true);
    var endAt := if s.session.ending && s.session.endingAt != 0 then s.session.endingAt else at;
    EndSessionSound(s, endAt);
    EndKeepsPending(s, endAt);
    var e := if s.session.active then EndSession(s, endAt) else s;
    DisconnectRowSound(e, at);
    var d := if e.lastConnected
             then e.(rows := Prepend(e.rows, Disconnected(at), MAX_ROWS), past := AddRow(e.past, Disconnected(at)))
             else e;
    SameSound(d, d.(lastConnected := false));
  }

  lemma EndKeepsPending(m: Model, endAt: Time)
    ensures var e := EndSession(m, endAt);
      e.pending == m.pending && e.settings == m.settings && e.initialized == m.initialized
      && e.everConnected == m.everConnected
  {
  }

  lemma SettleKeeps(m: Model, at: Instant, atDisconnect: bool)
    ensures var s := SettlePending(m, at, atDisconnect);
      s.past.rows == m.past.rows && s.settings == m.settings && s.initialized == m.initialized
      && s.everConnected == m.everConnected
  {
    hide Prepend;
  }

  lemma UpdateRowKeeps(m: Model, at: Time)
    ensures var u := UpdateRow(m, at, true);
      u.past == m.past && u.settings == m.settings && u.initialized == m.initialized
      && u.everConnected == m.everConnected
  {
    hide Prepend;
  }

  lemma OnActiveKeeps(m: Model, s: Status, at: Instant)
    ensures var t := OnActive(m, s, at);
      t.past.rows == m.past.rows && t.settings == m.settings && t.initialized == m.initialized
      && t.everConnected == m.everConnected
  {
    hide Prepend;
    hide Merge;
    hide SessionRow;
  }

  lemma StepSound(m: Model, e: Event)
    requires Sound(m) && (!m.initialized ==> !m.session.active)
    ensures Sound(Step(m, e)) && (!Step(m, e).initialized ==> !Step(m, e).session.active)
  {
    hide Sound;
    hide OnActive;
    hide OnInactive;
    hide OnDisconnect;
    match e
    case NewSettings(settings) => SameSound(m, Step(m, e));
    case StatusUpdate(s, now) =>
      var p := Prepare(m, s);
      var at := Resolve(s.updatedAt, now);
      SameSound(m, p);
      OnActiveSound(p, s, at);
      OnInactiveSound(p, at);
      OnDisconnectSound(p, at);
      KeepsSettings(p, s, at);
      var n := if s.active then OnActive(p, s, at) else OnInactive(p, at);
      SameSound(n, n.(lastConnected := true));
  }

  lemma KeepsSettings(m: Model, s: Status, at: Instant)
    ensures OnActive(m, s, at).initialized == OnInactive(m, at).initialized == OnDisconnect(m, at).initialized
      == m.initialized
    ensures OnActive(m, s, at).settings == OnInactive(m, at).settings == OnDisconnect(m, at).settings == m.settings
    ensures OnActive(m, s, at).everConnected == OnInactive(m, at).everConnected == OnDisconnect(m, at).everConnected
      == m.everConnected
  {
    hide OnActive;
    hide SettlePending;
    hide UpdateRow;
    hide EndSession;
    hide Prepend;
    OnActiveKeeps(m, s, at);
    SettleKeeps(m, at, false);
    SettleKeeps(m, at, true);
    var t, u := SettlePending(m, at, false), SettlePending(m, at, true);
    UpdateRowKeeps(t.(session := t.session.(ending := true, endingAt := at)), at);
    EndKeepsPending(t, t.session.endingAt);
    EndKeepsPending(u, if u.session.ending && u.session.endingAt != 0 then u.session.endingAt else at);
  }

  /** In every run: sessions and rows agree, the newest rows are shown, and each window has exactly one outcome. */
  lemma {:induction false} RunSound(settings: Settings, es: seq<Event>)
    ensures Sound(Run(settings, es)) && (!Run(settings, es).initialized ==> !Run(settings, es).session.active)
  {
    hide Step;
    if es != [] {
      RunSound(settings, es[..|es| - 1]);
      StepSound(Run(settings, es[..|es| - 1]), es[|es| - 1]);
    }
  }
}
