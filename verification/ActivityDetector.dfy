/** internal/activity/detector.go: the IDLE/ACTIVE/HANG machine. */
module ActivityDetector {

  type Time = nat              // nanoseconds; 0 is the zero time
  type Instant = t: nat | t > 0 witness 1

  const DEFAULT_HANG: nat := 10_000_000_000

  datatype Phase = Idle | Active | Hang

  datatype Detection = Detection(hangTime: nat, phase: Phase, hangUntil: Time)

  datatype Outcome = Outcome(phase: Phase, becameActive: bool, shouldFinalize: bool)

  function Fresh(hangTime: int): Detection {
    Detection(if hangTime <= 0 then DEFAULT_HANG else hangTime, Idle, 0)
  }

  function Resolve(at: Time, now: Instant): Instant { if at == 0 then now else at }

  /** One observation at time `at`. */
  function Observe(d: Detection, active: bool, at: Instant): (Detection, Outcome) {
    match d.phase
    case Idle =>
      if active then (d.(phase := Active), Outcome(Active, true, false)) else (d, Outcome(Idle, false, false))
    case Active =>
      if active then (d, Outcome(Active, false, false))
      else (d.(phase := Hang, hangUntil := at + d.hangTime), Outcome(Hang, false, false))
    case Hang =>
      if active then (d.(phase := Active), Outcome(Active, true, false))
      else if at >= d.hangUntil then (d.(phase := Idle, hangUntil := 0), Outcome(Idle, false, true))
      else (d, Outcome(Hang, false, false))
  }

  class Detector {
    const hangTime: nat
    var phase: Phase
    var hangUntil: Time

    ghost function State(): Detection
      reads this
    {
      Detection(hangTime, phase, hangUntil)
    }

    constructor (hangTime: int)
      ensures State() == Fresh(hangTime)
    {
      this.hangTime := if hangTime <= 0 then DEFAULT_HANG else hangTime;
      phase, hangUntil := Idle, 0;
    }

    method Evaluate(active: bool, at: Time, now: Instant) returns (r: Outcome)
      modifies this
      ensures (State(), r) == Observe(old(State()), active, Resolve(at, now))
    {
      var t := at;
      if t == 0 {
        t := now;
      }
      match phase {
        case Idle =>
          if active {
            phase := Active;
            return Outcome(phase, true, false);
          }
        case Active =>
          if !active {
            phase := Hang;
            hangUntil := t + hangTime;
          }
        case Hang =>
          if active {
            phase := Active;
            return Outcome(phase, true, false);
          }
          if !(t < hangUntil) {
            phase := Idle;
            hangUntil := 0;
            return Outcome(phase, false, true);
          }
      }
      r := Outcome(phase, false, false);
    }
  }

  // ----- What the machine tells -----

  datatype Sample = Sample(active: bool, at: Instant)

  function Watch(d: Detection, ss: seq<Sample>): Detection {
    if ss == [] then d else Observe(Watch(d, ss[..|ss| - 1]), ss[|ss| - 1].active, ss[|ss| - 1].at).0
  }

  lemma {:induction false} WatchNothing(hang: nat, ss: seq<Sample>)
    requires hang > 0 && forall i :: 0 <= i < |ss| ==> !ss[i].active
    ensures Watch(Fresh(hang), ss) == Detection(hang, Idle, 0)
  {
    if ss != [] {
      WatchNothing(hang, ss[..|ss| - 1]);
    }
  }

  lemma {:induction false} WatchKeepsHang(hang: nat, ss: seq<Sample>)
    requires hang > 0
    ensures Watch(Fresh(hang), ss).hangTime == hang
  {
    if ss != [] {
      WatchKeepsHang(hang, ss[..|ss| - 1]);
    }
  }

  /** The machine is active while the last sample was; after that it hangs from the first inactive sample on, until an
      inactive sample comes the hang time or more after that one. Here `i` is the last active sample. */
  lemma {:induction false} WatchTells(hang: nat, ss: seq<Sample>, i: nat)
    requires hang > 0 && i < |ss| && ss[i].active && forall j :: i < j < |ss| ==> !ss[j].active
    ensures var d := Watch(Fresh(hang), ss);
      && d.hangTime == hang
      && if i == |ss| - 1 then d.phase == Active
         else if exists j :: i + 1 < j < |ss| && ss[j].at >= ss[i + 1].at + hang then d.phase == Idle
         else d.phase == Hang && d.hangUntil == ss[i + 1].at + hang
    decreases |ss|
  {
    var n := |ss| - 1;
    WatchKeepsHang(hang, ss[..n]);
    if i < n {
      WatchTells(hang, ss[..n], i);
      if j :| i + 1 < j < n && ss[j].at >= ss[i + 1].at + hang {
        assert ss[..n][j].at >= ss[..n][i + 1].at + hang;
      }
    }
  }

  /** What an observation reports: the phase it leads to, whether activity begins, and whether the hang time is over. */
  lemma ObservationTells(d: Detection, active: bool, at: Instant)
    ensures var (t, r) := Observe(d, active, at);
      && r.phase == t.phase && (active <==> t.phase == Active)
      && (r.becameActive <==> d.phase != Active && t.phase == Active)
      && (r.shouldFinalize <==> d.phase == Hang && t.phase == Idle)
      && (d.phase == Hang && t.phase == Idle <==> d.phase == Hang && !active && at >= d.hangUntil)
  {
  }
}
