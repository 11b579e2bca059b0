/** Which rows the activity list shows after a run, and how long finished ones last. */
module ActivityRows {
  import opened ActivityDetector
  import opened ActivityInvariant
  import opened ActivitySpec

  // ----- 199 or 200 rows -----

  /** A full list keeps 200 rows when its session ends if and only if the session was long enough to keep; the row
      that a too short one pushed out does not come back. */
  lemma FullListAfterSession(m: Model, endAt: Time)
    requires Sound(m) && m.session.active && |m.past.rows| >= MAX_ROWS
    ensures var end := if endAt < m.session.start then m.session.start else endAt;
      var t := EndSession(m, endAt);
      && |m.rows| == MAX_ROWS
      && (|t.rows| == MAX_ROWS <==> end - m.session.start >= MinActivity(m))
      && (|t.rows| == MAX_ROWS - 1 <==> end - m.session.start < MinActivity(m))
  {
    EndSessionSound(m, endAt);
  }

  /** The last thing to end, a session or a connection, was a session too short to keep. */
  function EndedShort(settings: Settings, es: seq<Event>): bool {
    es != [] && AfterStep(EndedShort(settings, es[..|es| - 1]), Run(settings, es[..|es| - 1]), Run(settings, es))
  }

  function AfterStep(short: bool, m: Model, t: Model): bool {
    if t.past.rows != m.past.rows then false
    else if t.past.entries != m.past.entries && t.past.entries != [] && t.past.entries[0].reason.TooShort? then true
    else short
  }

  /** Without a session a list that was ever full shows 199 rows after a session too short to keep, else 200. */
  ghost predicate Shows(m: Model, short: bool) {
    !m.session.active && |m.past.rows| >= MAX_ROWS ==> |m.rows| == if short then MAX_ROWS - 1 else MAX_ROWS
  }

  lemma SettleShows(m: Model, at: Instant, atDisconnect: bool, short: bool)
    requires Sound(m) && Shows(m, short)
    ensures var t := SettlePending(m, at, atDisconnect);
      Shows(t, short) && AfterStep(short, m, t) == short
      && t.past.rows == m.past.rows && |t.past.entries| >= |m.past.entries|
  {
    hide Accounted;
  }

  lemma EndShows(m: Model, endAt: Time, short: bool)
    requires Sound(m) && m.session.active
    ensures var t := EndSession(m, endAt);
      && Shows(t, AfterStep(short, m, t))
      && (t.past.rows == m.past.rows ==> t.past.entries != [] && t.past.entries[0].reason.TooShort?)
      && (t.past.rows == m.past.rows ==> |t.past.entries| > |m.past.entries|)
      && |t.past.rows| >= |m.past.rows|
  {
    hide Accounted;
    EndSessionSound(m, endAt);
  }

  lemma ActiveShows(m: Model, s: Status, at: Instant, short: bool)
    requires Sound(m) && Shows(m, short)
    ensures var t := OnActive(m, s, at); Shows(t, short) && AfterStep(short, m, t) == short
  {
    hide Accounted;
    hide Merge;
    hide SessionRow;
  }

  lemma InactiveShows(m: Model, at: Instant, short: bool)
    requires Sound(m) && Shows(m, short)
    ensures var t := OnInactive(m, at); Shows(t, AfterStep(short, m, t))
  {
    hide Accounted;
    hide SettlePending;
    hide EndSession;
    hide UpdateRow;
    SettleShows(m, at, false, short);
    SettlePendingSound(m, at, false);
    var s := SettlePending(m, at, false);
    if s.session.active {
      if s.session.ending {
        EndShows(s, s.session.endingAt, short);
      } else {
        MarkSound(s, s.session.(ending := true, endingAt := at), at);
      }
    }
  }

  lemma DisconnectRowShows(m: Model, at: Instant)
    requires Sound(m) && !m.session.active
    ensures var t := m.(rows := Prepend(m.rows, Disconnected(at), MAX_ROWS), past := AddRow(m.past, Disconnected(at)));
      Shows(t, false)
  {
    hide Accounted;
  }

  lemma DisconnectShows(m: Model, at: Instant, short: bool)
    requires Sound(m) && Shows(m, short)
    ensures var t := OnDisconnect(m, at); Shows(t, AfterStep(short, m, t))
  {
    hide Accounted;
    hide ShowsNewest;
    hide OwnsTopRow;
    hide Prepend;
    hide SettlePending;
    hide EndSession;
    SettleShows(m, at, true, short);
    SettlePendingSound(m, at, true);
    var s := SettlePending(m, at, true);
    var endAt := if s.session.ending && s.session.endingAt != 0 then s.session.endingAt else at;
    EndSessionSound(s, endAt);
    if s.session.active {
      EndShows(s, endAt, short);
    }
    DisconnectRowShows(if s.session.active then EndSession(s, endAt) else s, at);
  }

  lemma StepShows(m: Model, e: Event, short: bool)
    requires Sound(m) && Shows(m, short) && (!m.initialized ==> !m.session.active)
    ensures Shows(Step(m, e), AfterStep(short, m, Step(m, e)))
  {
    hide OnActive;
    hide OnInactive;
    hide OnDisconnect;
    hide Accounted;
    if e.StatusUpdate? {
      var p := Prepare(m, e.status);
      var at := Resolve(e.status.updatedAt, e.now);
      SameSound(m, p);
      ActiveShows(p, e.status, at, short);
      InactiveShows(p, at, short);
      DisconnectShows(p, at, short);
    }
  }

  /** In every run, with no session live: all rows that ever became permanent while fewer than 200 did; then 200,
      or 199 exactly when the last session or connection to end was a session too short to keep. */
  lemma {:induction false} RowsShown(settings: Settings, es: seq<Event>)
    ensures var m := Run(settings, es);
      && Shows(m, EndedShort(settings, es))
      && (!m.session.active && |m.past.rows| < MAX_ROWS ==> m.rows == m.past.rows)
  {
    hide Step;
    hide Accounted;
    RunSound(settings, es);
    if es != [] {
      var n := |es| - 1;
      RowsShown(settings, es[..n]);
      RunSound(settings, es[..n]);
      StepShows(Run(settings, es[..n]), es[n], EndedShort(settings, es[..n]));
    }
  }

  // ----- A run that ends with 199 rows -----

  const DEFAULTS := Settings(150, 600, 300)
  const UP := StatusUpdate(NO_STATUS.(connected := true), 1)
  const DOWN := StatusUpdate(NO_STATUS, 1)

  function Sample(active: bool, at: Instant): Event {
    StatusUpdate(NO_STATUS.(connected := true, active := active), at)
  }

  /** A connection that comes and goes n times. */
  function Flapping(n: nat): (es: seq<Event>)
    ensures |es| == 2 * n
  {
    if n == 0 then [] else Flapping(n - 1) + [UP] + [DOWN]
  }

  ghost predicate Rests(m: Model, n: nat) {
    && !m.session.active && !m.pending.on && m.settings == DEFAULTS && m.past.entries == []
    && |m.past.rows| == n && (n <= MAX_ROWS ==> m.rows == m.past.rows)
  }

  lemma UpRests(m: Model, n: nat)
    requires Rests(m, n)
    ensures Rests(Step(m, UP), n) && Step(m, UP).lastConnected && Step(m, UP).initialized
  {
    hide OnActive;
    hide OnDisconnect;
  }

  lemma DownRests(m: Model, n: nat)
    requires Rests(m, n) && n < MAX_ROWS && m.lastConnected && m.initialized
    ensures Rests(Step(m, DOWN), n + 1)
  {
    hide OnActive;
    hide OnInactive;
    hide EndSession;
  }

  lemma {:induction false} FlappingRests(n: nat)
    requires n <= MAX_ROWS
    ensures Rests(Run(DEFAULTS, Flapping(n)), n)
  {
    hide Step;
    hide Rests;
    if n > 0 {
      var es, fs := Flapping(n), Flapping(n - 1);
      FlappingRests(n - 1);
      UpRests(Run(DEFAULTS, fs), n - 1);
      DownRests(Run(DEFAULTS, fs + [UP]), n - 1);
      assert es[..2 * n - 1] == fs + [UP] && (fs + [UP])[..2 * n - 2] == fs;
    } else {
      InitRests();
    }
  }

  lemma InitRests()
    ensures Rests(Init(DEFAULTS), 0)
  {
  }

  /** One short session on top of a full list. */
  function ShortSession(): seq<Event> {
    [Sample(true, 1), Sample(true, 151 * MS), Sample(false, 151 * MS), Sample(false, 751 * MS)]
  }

  lemma ShortSessionStarts(m: Model)
    requires Rests(m, MAX_ROWS)
    ensures var t := Step(Step(m, Sample(true, 1)), Sample(true, 151 * MS));
      && t.session.active && t.session.start == 1 && !t.session.ending && t.session.row == 0 && !t.pending.on
      && |t.rows| == MAX_ROWS && t.past.rows == m.past.rows && t.settings == DEFAULTS && t.initialized
  {
    hide Merge;
    hide OnInactive;
    hide OnDisconnect;
    var m1 := Step(m, Sample(true, 1));
    assert m1.pending == Pending(true, 1, Sample(true, 1).status, 1) && m1.rows == m.rows;
  }

  lemma ShortSessionEnds(m: Model)
    requires m.session.active && m.session.start == 1 && !m.session.ending && m.session.row == 0 && !m.pending.on
    requires |m.rows| == MAX_ROWS && m.settings == DEFAULTS && m.initialized
    ensures var t := Step(Step(m, Sample(false, 151 * MS)), Sample(false, 751 * MS));
      !t.session.active && |t.rows| == MAX_ROWS - 1 && t.past.rows == m.past.rows
  {
    hide OnActive;
    hide OnDisconnect;
    hide Prepend;
    hide SessionRow;
    var m1 := Step(m, Sample(false, 151 * MS));
    assert m1.session == m.session.(ending := true, endingAt := 151 * MS) && |m1.rows| == MAX_ROWS;
  }

  /** The list really shows 199 rows at times: after 200 lost connections and one short session. */
  lemma ShowsOneLess()
    ensures var m := Run(DEFAULTS, Flapping(MAX_ROWS) + ShortSession());
      !m.session.active && |m.rows| == MAX_ROWS - 1 && |m.past.rows| == MAX_ROWS
  {
    hide Step;
    hide Flapping;
    FlappingRests(MAX_ROWS);
    var fs := Flapping(MAX_ROWS);
    var m := Run(DEFAULTS, fs);
    ShortSessionStarts(m);
    ShortSessionEnds(Step(Step(m, Sample(true, 1)), Sample(true, 151 * MS)));
    var es := fs + ShortSession();
    RunStep(es, |fs|);
    RunStep(es, |fs| + 1);
    RunStep(es, |fs| + 2);
    RunStep(es, |fs| + 3);
    assert es[..|fs|] == fs && es[..|fs| + 4] == es;
  }

  lemma RunStep(es: seq<Event>, n: nat)
    requires n < |es|
    ensures Run(DEFAULTS, es[..n + 1]) == Step(Run(DEFAULTS, es[..n]), es[n])
  {
    assert es[..n + 1][..n] == es[..n];
  }

  // ----- Which settings are in force -----

  predicate Seen(es: seq<Event>) { exists i :: 0 <= i < |es| && es[i].StatusUpdate? }

  /** New settings are normalized when they arrive; the first status update normalizes once more. */
  function InForce(given: Settings, es: seq<Event>): Settings {
    if es == [] then given
    else
      var n := |es| - 1;
      match es[n]
      case NewSettings(settings) => Normalize(settings)
      case StatusUpdate(_, _) => if Seen(es[..n]) then InForce(given, es[..n]) else Normalize(InForce(given, es[..n]))
  }

  lemma {:induction false} SettingsInForce(given: Settings, es: seq<Event>)
    ensures Run(given, es).settings == InForce(given, es) && (Run(given, es).initialized <==> Seen(es))
  {
    hide OnActive;
    hide OnInactive;
    hide OnDisconnect;
    hide Normalize;
    if es != [] {
      var n := |es| - 1;
      SettingsInForce(given, es[..n]);
      assert Seen(es) <==> Seen(es[..n]) || es[n].StatusUpdate? by {
        if i :| 0 <= i < n && es[i].StatusUpdate? {
          assert es[..n][i].StatusUpdate?;
        }
        assert forall i :: 0 <= i < n ==> es[..n][i] == es[i];
      }
      if es[n].StatusUpdate? {
        KeepsSettings(Prepare(Run(given, es[..n]), es[n].status), es[n].status,
                      Resolve(es[n].status.updatedAt, es[n].now));
      }
    }
  }

  /** The program normalizes its settings before the first status update as well. A negative one, which then stands
      for 0, does not survive the second time: it ends as the default. */
  lemma {:induction false} NormalizedTwice(given: Settings, es: seq<Event>)
    requires es != [] && forall i :: 0 <= i < |es| ==> es[i].StatusUpdate?
    ensures InForce(Normalize(given), es) == Normalize(Normalize(given))
    ensures InForce(Normalize(given), es) == Normalize(given)
      <==> given.startMS >= 0 && given.endMS >= 0 && given.minMS >= 0
  {
    var n := |es| - 1;
    if n > 0 {
      NormalizedTwice(given, es[..n]);
      assert es[..n][0].StatusUpdate?;
    } else {
      assert es[..n] == [];
    }
  }

  // ----- Finished rows last long enough -----

  ghost predicate LongEnough(rows: seq<Row>, least: int) {
    forall i :: 0 <= i < |rows| && rows[i].Finished? ==> rows[i].end - rows[i].start >= least
  }

  lemma EndSessionLongEnough(m: Model, endAt: Time, least: int)
    requires LongEnough(m.past.rows, least) && MinActivity(m) >= least
    ensures LongEnough(EndSession(m, endAt).past.rows, least)
  {
  }

  lemma StepLongEnough(m: Model, e: Event, least: int)
    requires LongEnough(m.past.rows, least)
    requires e.StatusUpdate? ==> MinActivity(Prepare(m, e.status)) >= least
    ensures LongEnough(Step(m, e).past.rows, least)
  {
    hide OnActive;
    hide SettlePending;
    hide UpdateRow;
    hide EndSession;
    hide Prepend;
    if e.StatusUpdate? {
      var p := Prepare(m, e.status);
      var at := Resolve(e.status.updatedAt, e.now);
      OnActiveKeeps(p, e.status, at);
      SettleKeeps(p, at, false);
      SettleKeeps(p, at, true);
      var t, u := SettlePending(p, at, false), SettlePending(p, at, true);
      UpdateRowKeeps(t.(session := t.session.(ending := true, endingAt := at)), at);
      EndSessionLongEnough(t, t.session.endingAt, least);
      EndSessionLongEnough(u, if u.session.ending && u.session.endingAt != 0 then u.session.endingAt else at, least);
    }
  }

  /** In every run no finished row is shorter than the least minimum that was in force at a status update. */
  lemma {:induction false} FinishedRowsLongEnough(given: Settings, es: seq<Event>, least: int)
    requires forall k :: 0 <= k < |es| && es[k].StatusUpdate? ==> InForce(given, es[..k + 1]).minMS * MS >= least
    ensures LongEnough(Run(given, es).past.rows, least)
  {
    hide Step;
    hide LongEnough;
    hide InForce;
    if es == [] {
      NoRows(least);
    } else {
      var n := |es| - 1;
      forall k | 0 <= k < n && es[k].StatusUpdate? ensures InForce(given, es[..n][..k + 1]).minMS * MS >= least {
        assert es[..n][..k + 1] == es[..k + 1];
      }
      FinishedRowsLongEnough(given, es[..n], least);
      if es[n].StatusUpdate? {
        PreparedSettings(given, es);
      }
      StepLongEnough(Run(given, es[..n]), es[n], least);
    }
  }

  lemma NoRows(least: int)
    ensures LongEnough([], least)
  {
  }

  lemma PreparedSettings(given: Settings, es: seq<Event>)
    requires es != [] && es[|es| - 1].StatusUpdate?
    ensures var n := |es| - 1;
      es[..n + 1] == es && Prepare(Run(given, es[..n]), es[n].status).settings == InForce(given, es)
  {
    hide Step;
    hide Normalize;
    SettingsInForce(given, es[..|es| - 1]);
  }
}
