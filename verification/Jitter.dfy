/** The reorder buffer of the audio monitor over unbounded timestamps: the reference for the wrapping one. */
module Jitter {
  import Least
  import opened Octets

  type Audio = seq<int16>

  datatype Frame = Frame(ts: int, samples: Audio) {
    function End(): int { ts + |samples| }
  }

  /** How far a frame advances the expected timestamp. */
  function Step(samples: Audio): (n: nat)
    ensures n > 0
  {
    if |samples| == 0 then 1 else |samples|
  }

  datatype State = State(max: nat, pending: map<int, Audio>, expected: int, ready: bool)

  /** What one call does: the new state, the frames handed out, and the frame thrown away as stale, if any. */
  datatype Pushed = Pushed(state: State, out: seq<Frame>, accepted: bool, stale: set<int>)

  predicate Accepts(s: State, f: Frame) {
    |f.samples| > 0 && (s.ready ==> s.expected <= f.ts)
  }

  /** Takes the frame in; of two frames with one timestamp the first is kept. */
  function Accept(s: State, f: Frame): State {
    State(s.max, if f.ts in s.pending then s.pending else s.pending[f.ts := f.samples],
          if s.ready then s.expected else f.ts, true)
  }

  /** The buffer once the frame at `k` has been handed out. */
  function Remove(s: State, k: int): State
    requires k in s.pending
  {
    State(s.max, s.pending - {k}, k + Step(s.pending[k]), s.ready)
  }

  /** Hands out frames for as long as the expected one is there. */
  function Drain(s: State): (r: (State, seq<Frame>))
    decreases |s.pending|
    ensures |r.0.pending| <= |s.pending| && r.0.max == s.max && r.0.ready == s.ready
    ensures r.0.expected !in r.0.pending
  {
    if s.expected !in s.pending then (s, [])
    else
      var (s', out) := Drain(Remove(s, s.expected));
      (s', [Frame(s.expected, s.pending[s.expected])] + out)
  }

  /** Over capacity, the earliest frame leaves: thrown away when it lies behind, handed out otherwise. */
  ghost function Overflow(s: State, out: seq<Frame>): Pushed {
    if |s.pending| <= s.max then Pushed(s, out, true, {})
    else
      var ts := Least.Earliest(s.pending.Keys);
      if ts < s.expected then Pushed(s.(pending := s.pending - {ts}), out, true, {ts})
      else Pushed(Remove(s, ts), out + [Frame(ts, s.pending[ts])], true, {})
  }

  ghost function Push(s: State, f: Frame): Pushed {
    if !Accepts(s, f) then Pushed(s, [], false, {})
    else
      var (s', out) := Drain(Accept(s, f));
      Overflow(s', out)
  }

  // ----- Whole runs -----

  /** A run so far: the buffer, everything handed out, the frames taken in by timestamp, the stale ones. */
  datatype Trace = Trace(state: State, emitted: seq<Frame>, accepted: map<int, Audio>, stale: set<int>)

  ghost function Start(max: nat): Trace { Trace(State(max, map[], 0, false), [], map[], {}) }

  ghost function Advance(t: Trace, f: Frame): Trace {
    var p := Push(t.state, f);
    Trace(p.state, t.emitted + p.out,
          if p.accepted && f.ts !in t.state.pending then t.accepted[f.ts := f.samples] else t.accepted,
          t.stale + p.stale)
  }

  ghost function Run(max: nat, fs: seq<Frame>): Trace {
    if fs == [] then Start(max) else Advance(Run(max, fs[..|fs| - 1]), fs[|fs| - 1])
  }

  ghost function Timestamps(fs: seq<Frame>): set<int> { set i | 0 <= i < |fs| :: fs[i].ts }

  /** Consecutive frames cover disjoint stretches of the sample clock, in order. */
  ghost predicate InOrder(fs: seq<Frame>) {
    forall i, j :: 0 <= i < j < |fs| ==> fs[i].ts + |fs[i].samples| <= fs[j].ts
  }

  ghost predicate EndsBy(fs: seq<Frame>, limit: int) {
    forall i :: 0 <= i < |fs| ==> fs[i].ts + |fs[i].samples| <= limit
  }

  /** Every accepted frame is in exactly one place: handed out, pending, or stale. */
  ghost predicate Accounted(t: Trace) {
    && t.accepted.Keys == Timestamps(t.emitted) + t.state.pending.Keys + t.stale
    && Timestamps(t.emitted) !! t.state.pending.Keys && Timestamps(t.emitted) !! t.stale
    && t.state.pending.Keys !! t.stale
    && (forall i :: 0 <= i < |t.emitted| ==> t.accepted[t.emitted[i].ts] == t.emitted[i].samples)
    && (forall k :: k in t.state.pending ==> t.accepted[k] == t.state.pending[k])
    && (forall k :: k in t.accepted ==> t.accepted[k] != [])
  }

  /** What left the buffer lies behind the expected timestamp, so it cannot come back. */
  ghost predicate GoneIsBehind(t: Trace) {
    && EndsBy(t.emitted, t.state.expected)
    && forall k :: k in t.stale ==> k < t.state.expected
  }

  ghost predicate Sound(t: Trace) {
    && (!t.state.ready ==> t.accepted == map[] && t.emitted == [])
    && InOrder(t.emitted) && GoneIsBehind(t) && Accounted(t)
  }

  lemma TimestampsConcat(a: seq<Frame>, b: seq<Frame>)
    ensures Timestamps(a + b) == Timestamps(a) + Timestamps(b)
  {
    forall x | x in Timestamps(b) ensures x in Timestamps(a + b) {
      var i :| 0 <= i < |b| && b[i].ts == x;
      assert (a + b)[|a| + i].ts == x;
    }
    forall x | x in Timestamps(a) ensures x in Timestamps(a + b) {
      var i :| 0 <= i < |a| && a[i].ts == x;
      assert (a + b)[i].ts == x;
    }
  }

  /** Handing out one more frame, taken from `pending` at or after the expected timestamp, keeps a trace sound. */
  lemma EmitKeepsSound(t: Trace, k: int)
    requires Sound(t) && t.state.ready && k in t.state.pending && t.state.expected <= k
    ensures Sound(Emit(t, k))
  {
    var f := Frame(k, t.state.pending[k]);
    TimestampsConcat(t.emitted, [f]);
    assert Timestamps([f]) == {k} by {
      assert [f][0].ts == k;
    }
  }

  ghost function Emit(t: Trace, k: int): Trace
    requires k in t.state.pending
  {
    t.(state := Remove(t.state, k), emitted := t.emitted + [Frame(k, t.state.pending[k])])
  }

  /** Draining a trace is handing out the expected frame for as long as it is there. */
  lemma DrainUnfold(t: Trace)
    requires t.state.expected in t.state.pending
    ensures var e := Emit(t, t.state.expected);
      && Drain(t.state).0 == Drain(e.state).0
      && t.emitted + Drain(t.state).1 == e.emitted + Drain(e.state).1
      && |e.state.pending| < |t.state.pending|
  {
    RemoveKey(t.state.pending, t.state.expected);
    hide Remove;
    var first := Frame(t.state.expected, t.state.pending[t.state.expected]);
    Reassociate(t.emitted, first, Drain(Emit(t, t.state.expected).state).1);
  }

  lemma Reassociate(a: seq<Frame>, f: Frame, b: seq<Frame>)
    ensures a + ([f] + b) == (a + [f]) + b
  {
  }

  lemma {:induction false} DrainKeepsSound(t: Trace)
    requires Sound(t) && t.state.ready
    ensures var (s', out) := Drain(t.state);
      Sound(t.(state := s', emitted := t.emitted + out)) && t.state.expected <= s'.expected
    decreases |t.state.pending|
  {
    hide Sound;
    if t.state.expected in t.state.pending {
      EmitKeepsSound(t, t.state.expected);
      DrainUnfold(t);
      DrainKeepsSound(Emit(t, t.state.expected));
    } else {
      assert t.emitted + [] == t.emitted;
    }
  }

  lemma AcceptKeepsSound(t: Trace, f: Frame)
    requires Sound(t) && Accepts(t.state, f)
    ensures Sound(t.(state := Accept(t.state, f),
                     accepted := if f.ts in t.state.pending then t.accepted else t.accepted[f.ts := f.samples]))
  {
    forall i | 0 <= i < |t.emitted| ensures t.emitted[i].ts != f.ts {
      assert t.emitted[i].ts in Timestamps(t.emitted);
    }
    assert f.ts !in Timestamps(t.emitted);
    assert f.ts !in t.stale;
  }

  lemma DiscardKeepsSound(t: Trace, k: int)
    requires Sound(t) && t.state.ready && k in t.state.pending && k < t.state.expected
    ensures Sound(t.(state := t.state.(pending := t.state.pending - {k}), stale := t.stale + {k}))
  {
  }

  lemma OverflowKeepsSound(t: Trace, before: seq<Frame>, out: seq<Frame>)
    requires Sound(t) && t.state.ready && t.emitted == before + out
    ensures var p := Overflow(t.state, out);
      Sound(t.(state := p.state, emitted := before + p.out, stale := t.stale + p.stale))
      && p.state.ready && t.state.expected <= p.state.expected && p.accepted
  {
    hide Sound;
    var s := t.state;
    assert t.stale + {} == t.stale;
    if |s.pending| > s.max {
      var ts := Least.Earliest(s.pending.Keys);
      if ts >= s.expected {
        EmitKeepsSound(t, ts);
        assert before + (out + [Frame(ts, s.pending[ts])]) == t.emitted + [Frame(ts, s.pending[ts])];
      } else {
        DiscardKeepsSound(t, ts);
      }
    }
  }

  lemma AdvanceKeepsSound(t: Trace, f: Frame)
    requires Sound(t)
    ensures Sound(Advance(t, f))
    ensures t.state.ready ==> Advance(t, f).state.ready && t.state.expected <= Advance(t, f).state.expected
    ensures t.emitted <= Advance(t, f).emitted
  {
    hide Sound;
    hide Drain;
    if Accepts(t.state, f) {
      AcceptKeepsSound(t, f);
      var t1 := t.(state := Accept(t.state, f),
                   accepted := if f.ts in t.state.pending then t.accepted else t.accepted[f.ts := f.samples]);
      DrainKeepsSound(t1);
      var (s2, out) := Drain(t1.state);
      var t2 := t1.(state := s2, emitted := t1.emitted + out);
      OverflowKeepsSound(t2, t.emitted, out);
      assert t.stale + {} == t.stale;
    } else {
      assert t.emitted + [] == t.emitted;
      assert t.stale + {} == t.stale;
    }
  }

  /** Over every run: frames come out in order over disjoint stretches, none twice, and every accepted frame
      is handed out, pending or stale, and only one of these. */
  lemma {:induction false} RunIsSound(max: nat, fs: seq<Frame>)
    ensures Sound(Run(max, fs))
  {
    if fs != [] {
      RunIsSound(max, fs[..|fs| - 1]);
      AdvanceKeepsSound(Run(max, fs[..|fs| - 1]), fs[|fs| - 1]);
    }
  }

  /** The expected timestamp never goes back, and what was handed out stays handed out. */
  lemma {:induction false} ExpectedNeverGoesBack(max: nat, fs: seq<Frame>, n: nat)
    requires n <= |fs|
    ensures var a, b := Run(max, fs[..n]), Run(max, fs);
      a.emitted <= b.emitted && (a.state.ready ==> b.state.ready && a.state.expected <= b.state.expected)
    decreases |fs|
  {
    if n == |fs| {
      assert fs[..n] == fs;
    } else {
      var m := |fs| - 1;
      ExpectedNeverGoesBack(max, fs[..m], n);
      assert fs[..m][..n] == fs[..n];
      RunIsSound(max, fs[..m]);
      AdvanceKeepsSound(Run(max, fs[..m]), fs[m]);
    }
  }

  /** In a sound trace no timestamp is handed out twice. */
  lemma NoneTwice(t: Trace, i: nat, j: nat)
    requires Sound(t) && i < j < |t.emitted|
    ensures t.emitted[i].ts < t.emitted[j].ts
  {
    assert t.emitted[i].ts in Timestamps(t.emitted);
  }

  /** After every call at most `max` frames are held, and overflow takes at most one of them. */
  lemma PushBounded(s: State, f: Frame)
    requires |s.pending| <= s.max
    ensures |Push(s, f).state.pending| <= s.max && Push(s, f).state.max == s.max
    ensures Accepts(s, f) ==> |Drain(Accept(s, f)).0.pending| <= s.max + 1
  {
    if Accepts(s, f) {
      var s1 := Accept(s, f);
      assert |s1.pending| <= |s.pending| + 1;
      var s2 := Drain(s1).0;
      if |s2.pending| > s2.max {
        var ts := Least.Earliest(s2.pending.Keys);
        RemoveKey(s2.pending, ts);
      }
    }
  }

  lemma RemoveKey<K, V>(m: map<K, V>, k: K)
    requires k in m
    ensures |m - {k}| == |m| - 1
  {
    assert (m - {k}).Keys == m.Keys - {k};
    assert |(m - {k}).Keys| == |m - {k}|;
  }
}
