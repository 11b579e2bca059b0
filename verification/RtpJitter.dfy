/** The jitter buffer of internal/audio/monitor/manager.go, over wrapping 32-bit RTP timestamps, and the proof
    that it does what the buffer over unbounded timestamps does. */
module RtpJitter {
  import Least
  import J = Jitter

  const MOD: int := 0x1_0000_0000
  const HALF: int := 0x8000_0000
  const DEFAULT_SIZE: nat := 6

  type u32 = t: int | 0 <= t < 0x1_0000_0000

  function Wrap(t: int): u32 { t % 0x1_0000_0000 }

  /** `rtpTimestampBefore`: int32(a - b) < 0. */
  predicate Before(a: u32, b: u32) { (a - b) % 0x1_0000_0000 >= 0x8000_0000 }

  datatype Frame = Frame(ts: u32, samples: J.Audio)

  datatype State = State(max: nat, pending: map<u32, J.Audio>, expected: u32, ready: bool)

  // ----- One call as a function of the state and of the key that sorting puts first -----

  predicate Accepts(s: State, f: Frame) {
    |f.samples| > 0 && !(s.ready && Before(f.ts, s.expected))
  }

  function Accept(s: State, f: Frame): State {
    State(s.max, if f.ts in s.pending then s.pending else s.pending[f.ts := f.samples],
          if s.ready then s.expected else f.ts, true)
  }

  function Remove(s: State, k: u32): State
    requires k in s.pending
  {
    State(s.max, s.pending - {k}, Wrap(k + J.Step(s.pending[k])), s.ready)
  }

  function Drain(s: State): (r: (State, seq<Frame>))
    decreases |s.pending|
    ensures |r.0.pending| <= |s.pending| && r.0.max == s.max && r.0.pending.Keys <= s.pending.Keys
  {
    if s.expected !in s.pending then (s, [])
    else
      var (s', out) := Drain(Remove(s, s.expected));
      (s', [Frame(s.expected, s.pending[s.expected])] + out)
  }

  /** Over capacity the frame at `first` leaves: thrown away when it lies behind, handed out otherwise. */
  function Evict(s: State, out: seq<Frame>, first: u32): (State, seq<Frame>)
    requires first in s.pending
  {
    if Before(first, s.expected) then (s.(pending := s.pending - {first}), out)
    else (Remove(s, first), out + [Frame(first, s.pending[first])])
  }

  /** `rtpTimestampBefore` orders these keys strictly and totally. */
  ghost predicate Orders(keys: set<u32>) {
    && (forall a, b :: a in keys && b in keys && a != b ==> (Before(a, b) <==> !Before(b, a)))
    && (forall a, b, c :: a in keys && b in keys && c in keys && Before(a, b) && Before(b, c) ==> Before(a, c))
  }

  /** What sorting promises of the key it puts first: it is one of them, and the earliest if there is an order. */
  ghost predicate First(keys: set<u32>, k: u32) {
    k in keys && (Orders(keys) ==> forall j :: j in keys ==> j == k || Before(k, j))
  }

  ghost predicate Overflows(s: State, out: seq<Frame>, s': State, out': seq<Frame>) {
    if |s.pending| <= s.max then (s', out') == (s, out)
    else exists first: u32 :: First(s.pending.Keys, first) && (s', out') == Evict(s, out, first)
  }

  /** One call may take `s` to `s'` and return `out`. */
  ghost predicate Pushes(s: State, f: Frame, s': State, out: seq<Frame>) {
    if !Accepts(s, f) then s' == s && out == []
    else
      var (d, o) := Drain(Accept(s, f));
      Overflows(d, o, s', out)
  }

  // ----- The buffer itself -----

  class JitterBuffer {
    const maxPending: nat
    var pending: map<u32, J.Audio>
    var expected: u32
    var ready: bool

    ghost predicate Valid()
      reads this
    {
      |pending| <= maxPending && Live()
    }

    /** Only frames with samples are held. */
    ghost predicate Live()
      reads this
    {
      forall k :: k in pending ==> |pending[k]| > 0
    }

    ghost function Contents(): State
      reads this
    {
      State(maxPending, pending, expected, ready)
    }

    constructor (maxPending: int)
      ensures Valid() && Contents() == State(if maxPending <= 0 then 6 else maxPending, map[], 0, false)
    {
      this.maxPending := if maxPending <= 0 then DEFAULT_SIZE else maxPending;
      pending, expected, ready := map[], 0, false;
    }

    method Push(frame: Frame) returns (out: seq<Frame>)
      requires Valid()
      modifies this
      ensures Valid()
      ensures Pushes(old(Contents()), frame, Contents(), out)
    {
      hide Drain;
      hide First;
      hide Evict;
      if |frame.samples| == 0 {
        return [];
      }
      if !ready {
        expected := frame.ts;
        ready := true;
      } else if Before(frame.ts, expected) {
        return [];
      }
      if frame.ts !in pending {
        pending := pending[frame.ts := frame.samples];
      }
      out := HandOutExpected();
      if |pending| > maxPending {
        out := EvictEarliest(out);
      }
    }

    /** The loop that hands out frames for as long as the expected one is there. */
    method HandOutExpected() returns (out: seq<Frame>)
      requires Live()
      modifies this`pending, this`expected
      ensures Live() && |pending| <= old(|pending|)
      ensures (Contents(), out) == Drain(old(Contents()))
    {
      hide Drain;
      out := [];
      while expected in pending
        invariant Live() && |pending| <= old(|pending|)
        invariant Drain(old(Contents())).0 == Drain(Contents()).0
        invariant Drain(old(Contents())).1 == out + Drain(Contents()).1
        decreases |pending|
      {
        ghost var s := Contents();
        DrainNext(s, out);
        J.RemoveKey(pending, expected);
        var item := pending[expected];
        out := out + [Frame(expected, item)];
        pending := pending - {expected};
        var step := |item|;
        if step == 0 {
          step := 1;
        }
        expected := (expected + step) % 0x1_0000_0000;
        assert Contents() == Remove(s, s.expected);
      }
      DrainDone(Contents());
      assert out + [] == out;
    }

    /** The loop that brings the buffer back to capacity; one frame over, one pass. */
    method EvictEarliest(out: seq<Frame>) returns (out': seq<Frame>)
      requires Live() && |pending| == maxPending + 1
      modifies this`pending, this`expected
      ensures Live() && |pending| == maxPending
      ensures Overflows(old(Contents()), out, Contents(), out')
    {
      var keys := SortKeys(pending.Keys);
      out' := out;
      ghost var first := keys[0];
      while |pending| > maxPending && |keys| > 0
        invariant Live() && maxPending <= |pending| <= maxPending + 1
        invariant |pending| > maxPending ==>
          Contents() == old(Contents()) && out' == out && |keys| > 0 && keys[0] == first
        invariant |pending| <= maxPending ==> (Contents(), out') == Evict(old(Contents()), out, first)
        decreases |keys|
      {
        var ts := keys[0];
        keys := keys[1..];
        J.RemoveKey(pending, ts);
        if Before(ts, expected) {
          pending := pending - {ts};
          continue;
        }
        if ts !in pending {
          continue;
        }
        var item := pending[ts];
        out' := out' + [Frame(ts, item)];
        pending := pending - {ts};
        var step := |item|;
        if step == 0 {
          step := 1;
        }
        expected := (ts + step) % 0x1_0000_0000;
      }
    }
  }

  lemma DrainDone(s: State)
    requires s.expected !in s.pending
    ensures Drain(s) == (s, [])
  {
  }

  lemma DrainNext(s: State, out: seq<Frame>)
    requires s.expected in s.pending
    ensures Drain(s).0 == Drain(Remove(s, s.expected)).0
    ensures out + Drain(s).1 == (out + [Frame(s.expected, s.pending[s.expected])]) + Drain(Remove(s, s.expected)).1
  {
  }

  /** `sort.Slice` with `rtpTimestampBefore`: some arrangement of the keys, ascending when there is an order. */
  method SortKeys(keys: set<u32>) returns (r: seq<u32>)
    ensures |r| == |keys| && forall k :: k in r <==> k in keys
    ensures Orders(keys) ==> forall i, j :: 0 <= i < j < |r| ==> Before(r[i], r[j])
  {
    r := [];
    var rest := keys;
    while rest != {}
      invariant rest <= keys && |r| + |rest| == |keys|
      invariant forall k :: k in keys <==> k in rest || k in r
      invariant Orders(keys) ==> forall i, k :: 0 <= i < |r| && k in rest ==> Before(r[i], k)
      invariant Orders(keys) ==> forall i, j :: 0 <= i < j < |r| ==> Before(r[i], r[j])
      decreases rest
    {
      var m :| m in rest;
      var others := rest - {m};
      while others != {}
        invariant m in rest && others <= rest
        invariant Orders(keys) ==> forall k :: k in rest && k !in others ==> k == m || Before(m, k)
        decreases others
      {
        var x :| x in others;
        if Before(x, m) {
          m := x;
        }
        others := others - {x};
      }
      r := r + [m];
      rest := rest - {m};
    }
  }

  // ----- Simulation of the buffer over unbounded timestamps -----

  ghost predicate In(base: int, t: int) { base <= t < base + 0x8000_0000 }

  /** Everything the next call can compare lies in one half of the timestamp circle: the expected timestamp,
      the start and end of every pending frame, and those of the new frame. */
  ghost predicate LiveWithin(base: int, s: J.State, f: J.Frame) {
    Held(base, s) && In(base, f.ts) && In(base, f.End())
  }

  ghost predicate Held(base: int, s: J.State) {
    && (s.ready ==> In(base, s.expected))
    && forall k :: k in s.pending ==> In(base, k) && In(base, k + J.Step(s.pending[k]))
  }

  ghost predicate HalfRange(s: J.State, f: J.Frame) { exists base :: LiveWithin(base, s, f) }

  ghost function WrapKeys(keys: set<int>): set<u32> { set k | k in keys :: Wrap(k) }

  /** The wrapping buffer holds the same frames and expects the same timestamp, modulo 2^32. */
  ghost predicate Sim(w: State, s: J.State) {
    && w.max == s.max && w.ready == s.ready && (s.ready ==> w.expected == Wrap(s.expected))
    && w.pending.Keys == WrapKeys(s.pending.Keys)
    && forall k :: k in s.pending ==> w.pending[Wrap(k)] == s.pending[k]
  }

  function WrapFrame(f: J.Frame): Frame { Frame(Wrap(f.ts), f.samples) }

  function WrapFrames(fs: seq<J.Frame>): (r: seq<Frame>)
    ensures |r| == |fs|
  {
    seq(|fs|, i requires 0 <= i < |fs| => WrapFrame(fs[i]))
  }

  /** The comparison is right exactly when its arguments are less than 2^31 apart, -2^31 included. */
  lemma BeforeIsRight(a: int, b: int)
    requires -0x1_0000_0000 < a - b < 0x1_0000_0000
    ensures (Before(Wrap(a), Wrap(b)) <==> a < b) <==> -0x8000_0000 <= a - b < 0x8000_0000
  {
    assert (Wrap(a) - Wrap(b)) % 0x1_0000_0000 == (a - b) % 0x1_0000_0000;
  }

  lemma BeforeInHalf(base: int, a: int, b: int)
    requires In(base, a) && In(base, b)
    ensures Before(Wrap(a), Wrap(b)) <==> a < b
    ensures Wrap(a) == Wrap(b) <==> a == b
  {
    BeforeIsRight(a, b);
  }

  lemma WrapStep(k: int, n: nat)
    ensures Wrap(Wrap(k) + n) == Wrap(k + n)
  {
  }

  /** Wrapped keys of a half range are ordered by the comparison as the keys themselves are. */
  lemma HalfRangeOrders(base: int, keys: set<int>)
    requires forall k :: k in keys ==> In(base, k)
    ensures Orders(WrapKeys(keys))
  {
    var w := WrapKeys(keys);
    forall a, b | a in w && b in w && a != b ensures Before(a, b) <==> !Before(b, a) {
      var x :| x in keys && a == Wrap(x);
      var y :| y in keys && b == Wrap(y);
      BeforeInHalf(base, x, y);
      BeforeInHalf(base, y, x);
    }
    forall a, b, c | a in w && b in w && c in w && Before(a, b) && Before(b, c) ensures Before(a, c) {
      var x :| x in keys && a == Wrap(x);
      var y :| y in keys && b == Wrap(y);
      var z :| z in keys && c == Wrap(z);
      BeforeInHalf(base, x, y);
      BeforeInHalf(base, y, z);
      BeforeInHalf(base, x, z);
    }
  }

  lemma {:induction false} WrapKeysSize(base: int, keys: set<int>)
    requires forall k :: k in keys ==> In(base, k)
    ensures |WrapKeys(keys)| == |keys|
  {
    if keys == {} {
      assert WrapKeys(keys) == {};
    } else {
      var k := Least.Earliest(keys);
      WrapKeysSize(base, keys - {k});
      WrapKeysRemove(base, keys, k);
    }
  }

  lemma WrapKeysRemove(base: int, keys: set<int>, k: int)
    requires k in keys && forall k :: k in keys ==> In(base, k)
    ensures WrapKeys(keys - {k}) == WrapKeys(keys) - {Wrap(k)} && Wrap(k) in WrapKeys(keys)
  {
    forall x | x in keys && x != k ensures Wrap(x) != Wrap(k) {
      BeforeInHalf(base, x, k);
    }
  }

  lemma InWrapKeys(base: int, keys: set<int>, k: int)
    requires In(base, k) && forall k :: k in keys ==> In(base, k)
    ensures Wrap(k) in WrapKeys(keys) <==> k in keys
  {
    forall x | x in keys ensures Wrap(x) == Wrap(k) <==> x == k {
      BeforeInHalf(base, x, k);
    }
  }

  lemma AcceptSim(base: int, w: State, s: J.State, f: J.Frame)
    requires Sim(w, s) && LiveWithin(base, s, f)
    ensures Accepts(w, WrapFrame(f)) <==> J.Accepts(s, f)
    ensures J.Accepts(s, f) ==> Sim(Accept(w, WrapFrame(f)), J.Accept(s, f)) && Held(base, J.Accept(s, f))
  {
    if s.ready {
      BeforeInHalf(base, f.ts, s.expected);
    }
    InWrapKeys(base, s.pending.Keys, f.ts);
    forall k | k in s.pending ensures Wrap(k) == Wrap(f.ts) <==> k == f.ts {
      BeforeInHalf(base, k, f.ts);
    }
  }

  lemma RemoveSim(base: int, w: State, s: J.State, k: int)
    requires Sim(w, s) && Held(base, s) && s.ready && k in s.pending
    ensures Wrap(k) in w.pending && Sim(Remove(w, Wrap(k)), J.Remove(s, k)) && Held(base, J.Remove(s, k))
    ensures Sim(w.(pending := w.pending - {Wrap(k)}), s.(pending := s.pending - {k}))
  {
    WrapKeysRemove(base, s.pending.Keys, k);
    WrapStep(k, J.Step(s.pending[k]));
    var wp, sp := w.pending - {Wrap(k)}, s.pending - {k};
    assert wp.Keys == w.pending.Keys - {Wrap(k)} && sp.Keys == s.pending.Keys - {k};
    forall j | j in sp ensures wp[Wrap(j)] == sp[j] {
      BeforeInHalf(base, j, k);
    }
  }

  lemma {:induction false} DrainSim(base: int, w: State, s: J.State)
    requires Sim(w, s) && Held(base, s) && s.ready
    ensures Sim(Drain(w).0, J.Drain(s).0) && Held(base, J.Drain(s).0)
    ensures Drain(w).1 == WrapFrames(J.Drain(s).1)
    decreases |s.pending|
  {
    hide Sim;
    hide Held;
    ExpectedSim(base, w, s);
    if s.expected in s.pending {
      RemoveSim(base, w, s, s.expected);
      J.RemoveKey(s.pending, s.expected);
      DrainSim(base, Remove(w, w.expected), J.Remove(s, s.expected));
      WrapConcat([J.Frame(s.expected, s.pending[s.expected])], J.Drain(J.Remove(s, s.expected)).1);
    }
  }

  lemma ExpectedSim(base: int, w: State, s: J.State)
    requires Sim(w, s) && Held(base, s) && s.ready
    ensures w.expected == Wrap(s.expected) && (w.expected in w.pending <==> s.expected in s.pending)
    ensures s.expected in s.pending ==> w.pending[w.expected] == s.pending[s.expected]
  {
    InWrapKeys(base, s.pending.Keys, s.expected);
  }

  lemma WrapConcat(a: seq<J.Frame>, b: seq<J.Frame>)
    ensures WrapFrames(a + b) == WrapFrames(a) + WrapFrames(b)
  {
  }

  /** The key that sorting puts first is the earliest one. */
  lemma FirstIsEarliest(base: int, keys: set<int>, first: u32)
    requires keys != {} && (forall k :: k in keys ==> In(base, k)) && First(WrapKeys(keys), first)
    ensures first == Wrap(Least.Earliest(keys))
  {
    HalfRangeOrders(base, keys);
    var m := Least.Earliest(keys);
    var k :| k in keys && Wrap(k) == first;
    BeforeInHalf(base, k, m);
    assert Wrap(m) in WrapKeys(keys);
  }

  lemma SameSize(base: int, w: State, s: J.State)
    requires Sim(w, s) && Held(base, s)
    ensures |w.pending| == |s.pending| && w.max == s.max
  {
    WrapKeysSize(base, s.pending.Keys);
    assert |w.pending| == |w.pending.Keys| && |s.pending| == |s.pending.Keys|;
  }

  lemma EvictSim(base: int, w: State, s: J.State, out: seq<J.Frame>, m: int)
    requires Sim(w, s) && Held(base, s) && s.ready && m in s.pending
    ensures Wrap(m) in w.pending
    ensures var (w', out') := Evict(w, WrapFrames(out), Wrap(m));
      if m < s.expected then Sim(w', s.(pending := s.pending - {m})) && out' == WrapFrames(out)
      else Sim(w', J.Remove(s, m)) && out' == WrapFrames(out + [J.Frame(m, s.pending[m])])
  {
    RemoveSim(base, w, s, m);
    BeforeInHalf(base, m, s.expected);
    WrapConcat(out, [J.Frame(m, s.pending[m])]);
  }

  lemma OverflowSim(base: int, w: State, s: J.State, w': State, out: seq<J.Frame>, out': seq<Frame>)
    requires Sim(w, s) && Held(base, s) && s.ready && Overflows(w, WrapFrames(out), w', out')
    ensures Sim(w', J.Overflow(s, out).state) && out' == WrapFrames(J.Overflow(s, out).out)
  {
    hide Evict;
    SameSize(base, w, s);
    if |s.pending| > s.max {
      var first: u32 :| First(w.pending.Keys, first) && (w', out') == Evict(w, WrapFrames(out), first);
      FirstIsEarliest(base, s.pending.Keys, first);
      EvictSim(base, w, s, out, Least.Earliest(s.pending.Keys));
    }
  }

  /** One call: the same frames come out and the same frames stay, across wrap-around. */
  lemma PushSim(w: State, s: J.State, f: J.Frame, w': State, out: seq<Frame>)
    requires Sim(w, s) && HalfRange(s, f) && Pushes(w, WrapFrame(f), w', out)
    ensures Sim(w', J.Push(s, f).state) && out == WrapFrames(J.Push(s, f).out)
  {
    var base :| LiveWithin(base, s, f);
    AcceptSim(base, w, s, f);
    if J.Accepts(s, f) {
      DrainSim(base, Accept(w, WrapFrame(f)), J.Accept(s, f));
      var (d, o) := Drain(Accept(w, WrapFrame(f)));
      var (e, p) := J.Drain(J.Accept(s, f));
      OverflowSim(base, d, e, w', p, out);
    }
  }

  /** `ws` and `outs` are the states and outputs of a buffer fed `fs`. */
  ghost predicate IsRun(max: nat, fs: seq<Frame>, ws: seq<State>, outs: seq<seq<Frame>>) {
    && |ws| == |fs| + 1 && |outs| == |fs| && ws[0] == State(max, map[], 0, false)
    && forall i :: 0 <= i < |fs| ==> Pushes(ws[i], fs[i], ws[i + 1], outs[i])
  }

  function Flatten(outs: seq<seq<Frame>>): seq<Frame> {
    if outs == [] then [] else Flatten(outs[..|outs| - 1]) + outs[|outs| - 1]
  }

  lemma StartSim(max: nat, w: State)
    requires w == State(max, map[], 0, false)
    ensures Sim(w, J.Run(max, []).state)
  {
  }

  /** Whole runs: while live timestamps keep to a half range, the wrapping buffer hands out exactly what the
      unbounded one does, frame by frame, and holds the same frames at the end. */
  lemma {:induction false} RunSim(max: nat, fs: seq<J.Frame>, ws: seq<State>, outs: seq<seq<Frame>>)
    requires IsRun(max, WrapFrames(fs), ws, outs)
    requires forall i :: 0 <= i < |fs| ==> HalfRange(J.Run(max, fs[..i]).state, fs[i])
    ensures Sim(ws[|fs|], J.Run(max, fs).state)
    ensures Flatten(outs) == WrapFrames(J.Run(max, fs).emitted)
  {
    hide Sim;
    hide HalfRange;
    hide Pushes;
    hide J.Push;
    if fs != [] {
      var n := |fs| - 1;
      assert WrapFrames(fs[..n]) == WrapFrames(fs)[..n];
      forall i | 0 <= i < n ensures HalfRange(J.Run(max, fs[..n][..i]).state, fs[..n][i]) {
        assert fs[..n][..i] == fs[..i];
      }
      RunSim(max, fs[..n], ws[..n + 1], outs[..n]);
      PushSim(ws[n], J.Run(max, fs[..n]).state, fs[n], ws[n + 1], outs[n]);
      WrapConcat(J.Run(max, fs[..n]).emitted, J.Push(J.Run(max, fs[..n]).state, fs[n]).out);
    } else {
      StartSim(max, ws[0]);
    }
  }
}
