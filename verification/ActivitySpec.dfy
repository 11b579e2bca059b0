/** The activity list of the user interface (internal/gui/model.go) as a state machine over status updates. */
module ActivitySpec {
  import opened ActivityDetector
  import Text

  datatype Status = Status(connected: bool, active: bool, updatedAt: Time,
                           frequency: string, system: string, channel: string, talkgroup: string)

  const NO_STATUS := Status(false, false, 0, "", "", "", "")
  const MAX_ROWS: nat := 200
  const MAX_SUPPRESSED: nat := 200
  const MS: nat := 1_000_000

  /** Milliseconds; a non-positive value only before normalization. */
  datatype Settings = Settings(startMS: int, endMS: int, minMS: int)

  function Normalize(s: Settings): Settings {
    Settings(NormalMS(s.startMS, 150), NormalMS(s.endMS, 600), NormalMS(s.minMS, 300))
  }

  function NormalMS(ms: int, default: int): int { if ms == 0 then default else if ms < 0 then 0 else ms }

  /** A line of the activity list; a live one is rewritten in place until its session ends. */
  datatype Row =
    | Live(start: Time, mark: Time, status: Status)
    | Finished(start: Time, end: Time, status: Status)
    | Disconnected(at: Time)

  function SessionRow(start: Time, mark: Time, status: Status, live: bool): Row {
    var m := if mark == 0 || mark < start then start else mark;
    if live then Live(start, m, status) else Finished(start, m, status)
  }

  datatype Reason = DebounceNotMet(observed: int, atDisconnect: bool) | TooFewSamples(samples: nat, atDisconnect: bool)
                  | TooShort(duration: int)

  datatype Entry = Entry(at: Time, reason: Reason, status: Status)

  datatype Pending = Pending(on: bool, at: Time, status: Status, samples: nat)
  datatype Session = Session(active: bool, row: int, start: Time, status: Status, ending: bool, endingAt: Time)

  const NO_PENDING := Pending(false, 0, NO_STATUS, 0)

  /** What ever happened, newest first: lines that became permanent, suppressed windows, and how many windows were
      started. Windows are numbered from 1; the last two fields give the window behind each line, 0 where there is
      none, and behind each entry. */
  datatype History = History(rows: seq<Row>, entries: seq<Entry>, starts: nat,
                             rowWindows: seq<nat>, entryWindows: seq<nat>)

  function AddEntry(h: History, e: Entry): History {
    h.(entries := [e] + h.entries, entryWindows := [h.starts] + h.entryWindows)
  }

  function AddRow(h: History, row: Row): History {
    h.(rows := [row] + h.rows, rowWindows := [if row.Finished? then h.starts else 0] + h.rowWindows)
  }

  datatype Model = Model(rows: seq<Row>, suppressed: seq<Entry>, pending: Pending, session: Session,
                         settings: Settings, initialized: bool, everConnected: bool, lastConnected: bool, past: History)

  function Init(settings: Settings): Model {
    Model([], [], NO_PENDING, Session(false, 0, 0, NO_STATUS, false, 0), settings, false, false, false,
          History([], [], 0, [], []))
  }

  function StartDebounce(m: Model): int { m.settings.startMS * MS }
  function EndDebounce(m: Model): int { m.settings.endMS * MS }
  function MinActivity(m: Model): int { m.settings.minMS * MS }

  /** `prependWithCap`. */
  function Prepend<T>(rows: seq<T>, row: T, cap: nat): (r: seq<T>)
    requires cap > 0
    ensures 0 < |r| <= cap && r[0] == row
  {
    var all := [row] + rows;
    if |all| > cap then all[..cap] else all
  }

  function Merge(base: Status, update: Status): Status {
    var f, s, c, t := Text.TrimSpace(update.frequency), Text.TrimSpace(update.system), Text.TrimSpace(update.channel),
                      Text.TrimSpace(update.talkgroup);
    base.(frequency := if f != "" then f else base.frequency, system := if s != "" then s else base.system,
          channel := if c != "" then c else base.channel, talkgroup := if t != "" then t else base.talkgroup)
  }

  predicate CanPromote(m: Model, at: Time) {
    m.pending.on && m.pending.samples >= 2 && at >= m.pending.at + StartDebounce(m)
  }

  function SuppressEntry(m: Model, e: Entry): Model {
    m.(suppressed := Prepend(m.suppressed, e, MAX_SUPPRESSED), past := AddEntry(m.past, e))
  }

  function SuppressPending(m: Model, at: Time, atDisconnect: bool): Model {
    var observed := if at < m.pending.at then 0 else at - m.pending.at;
    var reason := if at >= m.pending.at + StartDebounce(m) && m.pending.samples < 2
                  then TooFewSamples(m.pending.samples, atDisconnect) else DebounceNotMet(observed, atDisconnect);
    SuppressEntry(m, Entry(at, reason, m.pending.status)).(pending := NO_PENDING)
  }

  function Promote(m: Model, mark: Time): Model {
    var start := if m.pending.at == 0 then mark else m.pending.at;
    m.(rows := Prepend(m.rows, SessionRow(start, mark, m.pending.status, true), MAX_ROWS),
       session := Session(true, 0, start, m.pending.status, false, 0), pending := NO_PENDING)
  }

  /** Rewrites the session's own row, or puts a new one on top when it has none. */
  function UpdateRow(m: Model, mark: Time, live: bool): Model {
    var row := SessionRow(m.session.start, mark, m.session.status, live);
    if 0 <= m.session.row < |m.rows| then m.(rows := m.rows[m.session.row := row])
    else m.(rows := Prepend(m.rows, row, MAX_ROWS), session := m.session.(row := 0))
  }

  function RemoveRow(m: Model): Model {
    if 0 <= m.session.row < |m.rows|
    then m.(rows := m.rows[..m.session.row] + m.rows[m.session.row + 1..], session := m.session.(row := -1))
    else m
  }

  function EndSession(m: Model, endAt: Time): Model {
    if !m.session.active then m
    else
      var end := if endAt == 0 || endAt < m.session.start then m.session.start else endAt;
      var duration := end - m.session.start;
      var m' := if duration < MinActivity(m)
                then SuppressEntry(RemoveRow(m), Entry(end, TooShort(duration), m.session.status))
                else
                  var u := UpdateRow(m, end, false);
                  u.(past := AddRow(u.past, SessionRow(m.session.start, end, m.session.status, false)));
      m'.(session := Session(false, -1, 0, NO_STATUS, false, 0))
  }

  function OnActive(m: Model, s: Status, at: Instant): Model {
    if m.session.active then
      var session := m.session.(status := Merge(m.session.status, s), ending := false, endingAt := 0);
      UpdateRow(m.(session := session), at, true)
    else
      var p := if !m.pending.on
               then m.(pending := Pending(true, at, s, 1), past := m.past.(starts := m.past.starts + 1))
               else m.(pending := Pending(true, m.pending.at, Merge(m.pending.status, s), m.pending.samples + 1));
      if CanPromote(p, at) then Promote(p, at) else p
  }

  /** A pending start either becomes a session or is suppressed. */
  function SettlePending(m: Model, at: Instant, atDisconnect: bool): Model {
    if !m.pending.on then m else if CanPromote(m, at) then Promote(m, at) else SuppressPending(m, at, atDisconnect)
  }

  function OnInactive(m0: Model, at: Instant): Model {
    var m := SettlePending(m0, at, false);
    if !m.session.active then m
    else if !m.session.ending then UpdateRow(m.(session := m.session.(ending := true, endingAt := at)), at, true)
    else if at < m.session.endingAt + EndDebounce(m) then m
    else EndSession(m, m.session.endingAt)
  }

  function OnDisconnect(m0: Model, at: Instant): Model {
    var m := SettlePending(m0, at, true);
    var e := if m.session.active
             then EndSession(m, if m.session.ending && m.session.endingAt != 0 then m.session.endingAt else at) else m;
    var d := if e.lastConnected
             then e.(rows := Prepend(e.rows, Disconnected(at), MAX_ROWS), past := AddRow(e.past, Disconnected(at)))
             else e;
    d.(lastConnected := false)
  }

  datatype Event = StatusUpdate(status: Status, now: Instant) | NewSettings(settings: Settings)

  function Prepare(m: Model, s: Status): Model {
    var c := m.(everConnected := m.everConnected || s.connected);
    if c.initialized then c
    else c.(lastConnected := s.connected, session := c.session.(row := -1), settings := Normalize(c.settings),
            initialized := true)
  }

  function Step(m: Model, e: Event): Model {
    match e
    case NewSettings(settings) => m.(settings := Normalize(settings))
    case StatusUpdate(s, now) =>
      var p := Prepare(m, s);
      var at := Resolve(s.updatedAt, now);
      if !s.connected then OnDisconnect(p, at)
      else (if s.active then OnActive(p, s, at) else OnInactive(p, at)).(lastConnected := true)
  }

  function RunFrom(m: Model, es: seq<Event>): Model {
    if es == [] then m else Step(RunFrom(m, es[..|es| - 1]), es[|es| - 1])
  }

  function Run(settings: Settings, es: seq<Event>): Model { RunFrom(Init(settings), es) }
}
