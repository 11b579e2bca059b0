/** uiModel's activity part as an object, each method proved against ActivitySpec. */
module ActivityModel {
  import opened ActivityDetector
  import opened ActivitySpec

  class UiModel {
    var activities: seq<Row>
    var suppressed: seq<Entry>
    var pending: Pending   // the pendingStart fields
    var session: Session   // the session fields
    var activity: Settings
    var initialized: bool
    var everConnected: bool
    var lastConnected: bool
    ghost var past: History

    ghost function State(): Model
      reads this
    {
      Model(activities, suppressed, pending, session, activity, initialized, everConnected, lastConnected, past)
    }

    constructor (settings: Settings)
      ensures State() == Init(settings)
    {
      activities, suppressed := [], [];
      pending, session := NO_PENDING, Session(false, 0, 0, NO_STATUS, false, 0);
      activity, initialized, everConnected, lastConnected := settings, false, false, false;
      past := History([], [], 0, [], []);
    }

    method AppendActivity(scanner: Status, clock: Instant)
      modifies this
      ensures State() == Step(old(State()), StatusUpdate(scanner, clock))
    {
      hide OnActive;
      hide OnInactive;
      hide OnDisconnect;
      NoteConnection(scanner);
      var now := scanner.updatedAt;
      if now == 0 {
        now := clock;
      }
      if !scanner.connected {
        HandleDisconnect(now);
        return;
      }
      if scanner.active {
        HandleActiveSample(scanner, now);
      } else {
        HandleInactiveSample(now);
      }
      lastConnected := true;
    }

    /** The first lines of appendActivity. */
    method NoteConnection(scanner: Status)
      modifies this
      ensures State() == Prepare(old(State()), scanner)
    {
      if scanner.connected {
        everConnected := true;
      }
      if !initialized {
        lastConnected := scanner.connected;
        session := session.(row := -1);
        activity := Normalize(activity);
        initialized := true;
      }
    }

    /** The branch of appendActivity for a scanner that is not connected. */
    method HandleDisconnect(now: Instant)
      modifies this
      ensures State() == OnDisconnect(old(State()), now)
    {
      hide EndSession;
      hide Promote;
      hide SuppressPending;
      if pending.on {
        var can := CanPromotePending(now);
        if can {
          PromotePendingToSession(now);
        } else {
          SuppressPendingStart(now, true);
        }
      }
      if session.active {
        var endAt := now;
        if session.ending && session.endingAt != 0 {
          endAt := session.endingAt;
        }
        FinalizeSession(endAt);
      }
      if lastConnected {
        past := AddRow(past, Disconnected(now));
        activities := Prepend(activities, Disconnected(now), MAX_ROWS);
      }
      lastConnected := false;
    }

    method HandleActiveSample(scanner: Status, at: Instant)
      modifies this
      ensures State() == OnActive(old(State()), scanner, at)
    {
      hide Promote;
      hide UpdateRow;
      hide Merge;
      if session.active {
        session := session.(status := Merge(session.status, scanner), ending := false, endingAt := 0);
        UpdateSessionRow(at, true);
        return;
      }
      if !pending.on {
        pending := Pending(true, at, scanner, 1);
        past := past.(starts := past.starts + 1);
      } else {
        pending := pending.(status := Merge(pending.status, scanner), samples := pending.samples + 1);
      }
      var can := CanPromotePending(at);
      if can {
        PromotePendingToSession(at);
      }
    }

    method HandleInactiveSample(at: Instant)
      modifies this
      ensures State() == OnInactive(old(State()), at)
    {
      hide Promote;
      hide SuppressPending;
      hide UpdateRow;
      hide EndSession;
      if pending.on {
        var can := CanPromotePending(at);
        if can {
          PromotePendingToSession(at);
        } else {
          SuppressPendingStart(at, false);
        }
      }
      if !session.active {
        return;
      }
      if !session.ending {
        session := session.(ending := true, endingAt := at);
        UpdateSessionRow(at, true);
        return;
      }
      if at < session.endingAt + activity.endMS * MS {
        return;
      }
      FinalizeSession(session.endingAt);
    }

    method FinalizeSession(endAt0: Time)
      modifies this
      ensures State() == EndSession(old(State()), endAt0)
    {
      hide SessionRow;
      hide Prepend;
      hide AddRow;
      hide AddEntry;
      if !session.active {
        return;
      }
      var endAt := endAt0;
      if endAt == 0 || endAt < session.start {
        endAt := session.start;
      }
      var duration := endAt - session.start;
      if duration < activity.minMS * MS {
        RemoveSessionRow();
        PrependSuppressed(Entry(endAt, TooShort(duration), session.status));
      } else {
        ghost var row := SessionRow(session.start, endAt, session.status, false);
        UpdateSessionRow(endAt, false);
        past := AddRow(past, row);
      }
      session := Session(false, -1, 0, NO_STATUS, false, 0);
    }

    method SuppressPendingStart(at: Time, disconnect: bool)
      modifies this
      ensures State() == SuppressPending(old(State()), at, disconnect)
    {
      var duration := 0;
      if at >= pending.at {
        duration := at - pending.at;
      }
      var reason := DebounceNotMet(duration, disconnect);
      if !(at < pending.at + activity.startMS * MS) && pending.samples < 2 {
        reason := TooFewSamples(pending.samples, disconnect);
      }
      PrependSuppressed(Entry(at, reason, pending.status));
      ClearPendingStart();
    }

    method CanPromotePending(at: Time) returns (can: bool)
      ensures can == CanPromote(State(), at)
    {
      if !pending.on {
        return false;
      }
      if pending.samples < 2 {
        return false;
      }
      can := !(at < pending.at + activity.startMS * MS);
    }

    method PromotePendingToSession(markAt: Time)
      modifies this
      ensures State() == Promote(old(State()), markAt)
    {
      var start := pending.at;
      if start == 0 {
        start := markAt;
      }
      session := Session(true, 0, start, pending.status, false, 0);
      ClearPendingStart();
      activities := Prepend(activities, SessionRow(session.start, markAt, session.status, true), MAX_ROWS);
    }

    method UpdateSessionRow(at: Time, active: bool)
      modifies this`activities, this`session
      ensures State() == UpdateRow(old(State()), at, active)
    {
      var row := SessionRow(session.start, at, session.status, active);
      if session.row >= 0 && session.row < |activities| {
        activities := activities[session.row := row];
        return;
      }
      activities := Prepend(activities, row, MAX_ROWS);
      session := session.(row := 0);
    }

    method RemoveSessionRow()
      modifies this`activities, this`session
      ensures State() == RemoveRow(old(State()))
    {
      if session.row < 0 || session.row >= |activities| {
        return;
      }
      activities := activities[..session.row] + activities[session.row + 1..];
      session := session.(row := -1);
    }

    method PrependSuppressed(e: Entry)
      modifies this`suppressed, this`past
      ensures State() == SuppressEntry(old(State()), e)
    {
      suppressed := Prepend(suppressed, e, MAX_SUPPRESSED);
      past := AddEntry(past, e);
    }

    method ClearPendingStart()
      modifies this`pending
      ensures pending == NO_PENDING
    {
      pending := NO_PENDING;
    }
  }
}
