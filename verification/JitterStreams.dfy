/** What the jitter buffer is for: which frames it takes and hands out in one call, and how it puts a stream whose
    packets arrive out of order back together. */
module JitterStreams {
  import Least
  import opened Jitter
  import R = RtpJitter

  // ----- One call, said outright -----

  /** `out` is the unbroken run of held frames from `from` on, and ends at `next`. */
  ghost predicate Chain(held: map<int, Audio>, from: int, out: seq<Frame>, next: int)
    decreases |out|
  {
    if out == [] then next == from
    else
      && out[0].ts == from && from in held && held[from] == out[0].samples
      && Chain(held, from + |out[0].samples|, out[1..], next)
  }

  ghost predicate Filled(held: map<int, Audio>) { forall k :: k in held ==> held[k] != [] }

  lemma {:induction false} ChainMore(small: map<int, Audio>, held: map<int, Audio>, from: int, out: seq<Frame>,
                                     next: int)
    requires Chain(small, from, out, next) && forall k :: k in small ==> k in held && held[k] == small[k]
    ensures Chain(held, from, out, next)
    decreases |out|
  {
    if out != [] {
      ChainMore(small, held, from + |out[0].samples|, out[1..], next);
    }
  }

  lemma ChainFirst(held: map<int, Audio>, f: Frame, out: seq<Frame>, next: int)
    requires f.ts in held && held[f.ts] == f.samples && Chain(held - {f.ts}, f.End(), out, next)
    ensures Chain(held, f.ts, [f] + out, next)
  {
    ChainMore(held - {f.ts}, held, f.End(), out, next);
    assert ([f] + out)[1..] == out;
  }

  lemma SubtractFirst(held: map<int, Audio>, f: Frame, out: seq<Frame>)
    ensures held - Timestamps([f] + out) == (held - {f.ts}) - Timestamps(out)
  {
    TimestampsConcat([f], out);
    assert Timestamps([f]) == {f.ts} by {
      assert [f][0].ts == f.ts;
    }
  }

  lemma DrainNext(s: State)
    requires s.expected in s.pending
    ensures var r := Remove(s, s.expected);
      && Drain(s) == (Drain(r).0, [Frame(s.expected, s.pending[s.expected])] + Drain(r).1)
      && |r.pending| < |s.pending|
  {
    RemoveKey(s.pending, s.expected);
  }

  lemma DrainNone(s: State)
    requires s.expected !in s.pending
    ensures Drain(s) == (s, []) && s.pending - Timestamps([]) == s.pending
  {
    assert Timestamps([]) == {};
  }

  lemma {:induction false} DrainExactly(s: State)
    requires Filled(s.pending)
    ensures var (t, out) := Drain(s);
      && Chain(s.pending, s.expected, out, t.expected) && t.expected !in s.pending && t.expected >= s.expected
      && t == State(s.max, s.pending - Timestamps(out), t.expected, s.ready)
    decreases |s.pending|
  {
    hide Drain;
    hide Timestamps;
    if s.expected in s.pending {
      var f, r := Frame(s.expected, s.pending[s.expected]), Remove(s, s.expected);
      DrainNext(s);
      DrainExactly(r);
      ChainFirst(s.pending, f, Drain(r).1, Drain(r).0.expected);
      SubtractFirst(s.pending, f, Drain(r).1);
    } else {
      DrainNone(s);
    }
  }

  /** What is left after the run goes over capacity: its earliest frame leaves, for nothing if the run is past it. */
  ghost predicate Settles(max: nat, rest: map<int, Audio>, out: seq<Frame>, next: int, p: Pushed) {
    if |rest| <= max then p == Pushed(State(max, rest, next, true), out, true, {})
    else exists k :: k in rest && (forall j :: j in rest ==> k <= j) && Leaves(max, rest, out, next, k, p)
  }

  ghost predicate Leaves(max: nat, rest: map<int, Audio>, out: seq<Frame>, next: int, k: int, p: Pushed)
    requires k in rest
  {
    if k < next then p == Pushed(State(max, rest - {k}, next, true), out, true, {k})
    else p == Pushed(State(max, rest - {k}, k + |rest[k]|, true), out + [Frame(k, rest[k])], true, {})
  }

  /** A call takes every frame that holds samples and does not lie behind, hands out the unbroken run that is then
      there, and settles the rest; anything else it drops without a trace. */
  lemma PushExactly(s: State, f: Frame)
    requires Filled(s.pending)
    ensures var p := Push(s, f);
      if f.samples == [] || (s.ready && f.ts < s.expected) then p == Pushed(s, [], false, {})
      else
        var held := if f.ts in s.pending then s.pending else s.pending[f.ts := f.samples];
        var from := if s.ready then s.expected else f.ts;
        exists out, next :: (Chain(held, from, out, next) && next !in held
                             && Settles(s.max, held - Timestamps(out), out, next, p))
  {
    if Accepts(s, f) {
      var a := Accept(s, f);
      DrainExactly(a);
      var (t, out) := Drain(a);
      assert a.pending == if f.ts in s.pending then s.pending else s.pending[f.ts := f.samples];
      OverflowSettles(t, out);
      assert Chain(a.pending, a.expected, out, t.expected) && t.expected !in a.pending
             && Settles(s.max, a.pending - Timestamps(out), out, t.expected, Push(s, f));
    }
  }

  lemma OverflowSettles(t: State, out: seq<Frame>)
    requires t.ready && Filled(t.pending)
    ensures Settles(t.max, t.pending, out, t.expected, Overflow(t, out))
  {
    if |t.pending| > t.max {
      var k := Least.Earliest(t.pending.Keys);
      assert Leaves(t.max, t.pending, out, t.expected, k, Overflow(t, out));
    }
  }

  // ----- A stream whose packets arrive in any order -----

  /** Each packet begins where the one before it ends. */
  ghost predicate Contiguous(stream: seq<Frame>) {
    && (forall i :: 0 <= i < |stream| ==> stream[i].samples != [])
    && (forall i :: 0 <= i < |stream| - 1 ==> stream[i + 1].ts == stream[i].ts + |stream[i].samples|)
  }

  lemma {:induction false} Later(stream: seq<Frame>, i: nat, j: nat)
    requires Contiguous(stream) && i < j < |stream|
    ensures stream[i].End() <= stream[j].ts
    decreases j
  {
    if i < j - 1 {
      Later(stream, i, j - 1);
    }
  }

  /** Where the stream is at packet i, its end included. */
  ghost function At(stream: seq<Frame>, i: nat): int
    requires stream != [] && i <= |stream|
  {
    if i < |stream| then stream[i].ts else stream[|stream| - 1].End()
  }

  lemma AtLater(stream: seq<Frame>, i: nat, j: nat)
    requires Contiguous(stream) && i < |stream| && j <= |stream|
    ensures stream[i].ts < At(stream, j) <==> i < j
    ensures i + 1 <= |stream| && At(stream, i + 1) == stream[i].End()
  {
    if j < |stream| && i < j {
      Later(stream, i, j);
    } else if j < |stream| && j < i {
      Later(stream, j, i);
    } else if j == |stream| && i < |stream| - 1 {
      Later(stream, i, |stream| - 1);
    }
  }

  /** The first packet from k on that is not among `seen`. */
  ghost function Gap(seen: set<nat>, k: nat, n: nat): (g: nat)
    requires k <= n
    ensures k <= g <= n && (g < n ==> g !in seen) && forall j :: k <= j < g ==> j in seen
    decreases n - k
  {
    if k == n || k !in seen then k else Gap(seen, k + 1, n)
  }

  /** The packets at the positions in `a` are pending, and no others. */
  ghost predicate Pending(stream: seq<Frame>, a: set<nat>, held: map<int, Audio>) {
    && (forall j :: j in a ==> j < |stream| && stream[j].ts in held && held[stream[j].ts] == stream[j].samples)
    && (forall k :: k in held ==> exists j :: j in a && stream[j].ts == k)
    && |held| == |a|
  }

  lemma PendingAt(stream: seq<Frame>, a: set<nat>, held: map<int, Audio>, j: nat)
    requires Contiguous(stream) && Pending(stream, a, held) && j <= |stream|
    ensures stream != [] ==> (At(stream, j) in held <==> j in a)
  {
    if stream != [] && At(stream, j) in held {
      var i :| i in a && stream[i].ts == At(stream, j);
      AtLater(stream, i, j);
      if j < |stream| {
        AtLater(stream, j, i);
      }
    }
  }

  lemma AddKey<K, V>(m: map<K, V>, k: K, v: V)
    requires k !in m
    ensures |m[k := v]| == |m| + 1
  {
    assert m[k := v].Keys == m.Keys + {k};
    assert |m[k := v].Keys| == |m[k := v]|;
  }

  lemma PendingMore(stream: seq<Frame>, a: set<nat>, held: map<int, Audio>, j: nat)
    requires Contiguous(stream) && Pending(stream, a, held) && j < |stream| && j !in a
    ensures Pending(stream, a + {j}, held[stream[j].ts := stream[j].samples])
  {
    hide Contiguous;
    hide Pending;
    PendingAt(stream, a, held, j);
    AddKey(held, stream[j].ts, stream[j].samples);
    var more := held[stream[j].ts := stream[j].samples];
    forall i | i in a + {j}
      ensures i < |stream| && stream[i].ts in more && more[stream[i].ts] == stream[i].samples
    {
      if i != j {
        PendingBound(stream, a, held, i);
      }
    }
    forall k | k in more ensures HeldFor(stream, a + {j}, k) {
      var i := if k == stream[j].ts then j else PositionOf(stream, a, held, k);
      assert i in a + {j} && i < |stream| && stream[i].ts == k;
    }
    SameCount(stream, a, held);
    PendingFrom(stream, a + {j}, more);
  }

  ghost predicate HeldFor(stream: seq<Frame>, a: set<nat>, k: int) {
    exists j :: j in a && j < |stream| && stream[j].ts == k
  }

  lemma SameCount(stream: seq<Frame>, a: set<nat>, held: map<int, Audio>)
    requires Pending(stream, a, held)
    ensures |held| == |a|
  {
  }

  lemma PendingFrom(stream: seq<Frame>, a: set<nat>, held: map<int, Audio>)
    requires forall j :: j in a ==> j < |stream| && stream[j].ts in held && held[stream[j].ts] == stream[j].samples
    requires forall k :: k in held ==> HeldFor(stream, a, k)
    requires |held| == |a|
    ensures Pending(stream, a, held)
  {
  }

  ghost function PositionOf(stream: seq<Frame>, a: set<nat>, held: map<int, Audio>, k: int): (i: nat)
    requires Pending(stream, a, held) && k in held
    ensures i in a && i < |stream| && stream[i].ts == k
  {
    var i :| i in a && stream[i].ts == k;
    i
  }

  lemma PendingLess(stream: seq<Frame>, a: set<nat>, held: map<int, Audio>, j: nat)
    requires Contiguous(stream) && Pending(stream, a, held) && j in a
    ensures Pending(stream, a - {j}, held - {stream[j].ts})
  {
    hide Contiguous;
    hide Pending;
    PendingBound(stream, a, held, j);
    RemoveKey(held, stream[j].ts);
    var less := held - {stream[j].ts};
    forall i | i in a - {j}
      ensures i < |stream| && stream[i].ts in less && less[stream[i].ts] == stream[i].samples
    {
      PendingBound(stream, a, held, i);
      AtLater(stream, i, j);
      AtLater(stream, j, i);
    }
    forall k | k in less ensures HeldFor(stream, a - {j}, k) {
      var i := PositionOf(stream, a, held, k);
      assert i in a - {j};
    }
    SameCount(stream, a, held);
    PendingFrom(stream, a - {j}, less);
  }

  /** What of `a` is left once the positions from g up to h are gone. */
  ghost function Without(a: set<nat>, g: nat, h: nat): set<nat> { set j | j in a && !(g <= j < h) }

  lemma WithoutOne(a: set<nat>, g: nat, h: nat)
    requires g < h
    ensures Without(a - {g}, g + 1, h) == Without(a, g, h) && Without(a, g, g) == a
  {
  }

  lemma DrainStreamNext(stream: seq<Frame>, a: set<nat>, g: nat, s: State)
    requires Contiguous(stream) && stream != [] && g <= |stream| && Pending(stream, a, s.pending) && g in a
    requires s.expected == At(stream, g) && s.expected in s.pending
    ensures g < |stream|
    ensures var r := Remove(s, s.expected);
      && Drain(s) == (Drain(r).0, [stream[g]] + Drain(r).1)
      && r.expected == At(stream, g + 1) && r.max == s.max && r.ready == s.ready
      && Pending(stream, a - {g}, r.pending)
  {
    hide Drain;
    hide Pending;
    hide At;
    hide Contiguous;
    PendingBound(stream, a, s.pending, g);
    DrainNext(s);
    AtLater(stream, g, g);
    StartsAt(stream, g);
    PendingLess(stream, a, s.pending, g);
  }

  lemma SliceNext(stream: seq<Frame>, g: nat, h: nat)
    requires g < h <= |stream|
    ensures stream[g..h] == [stream[g]] + stream[g + 1..h]
  {
  }

  /** Draining hands out the packets up to the next gap. */
  lemma {:induction false} DrainStream(stream: seq<Frame>, a: set<nat>, g: nat, s: State)
    requires Contiguous(stream) && stream != [] && g <= |stream| && Pending(stream, a, s.pending)
    requires s.expected == At(stream, g)
    ensures var (t, out) := Drain(s);
      var h := Gap(a, g, |stream|);
      && out == stream[g..h] && t.expected == At(stream, h) && t.max == s.max && t.ready == s.ready
      && Pending(stream, Without(a, g, h), t.pending)
    decreases |stream| - g
  {
    hide Drain;
    hide Pending;
    hide Without;
    hide Contiguous;
    hide Gap;
    hide At;
    PendingAt(stream, a, s.pending, g);
    var h := Gap(a, g, |stream|);
    hide Remove;
    if s.expected in s.pending {
      DrainStreamNext(stream, a, g, s);
      GapStep(a, g, |stream|);
      DrainStream(stream, a - {g}, g + 1, Remove(s, s.expected));
      WithoutOne(a, g, h);
      SliceNext(stream, g, h);
    } else {
      DrainNone(s);
      GapNone(a, g, |stream|);
      WithoutOne(a, g, g + 1);
      assert stream[g..g] == [];
    }
  }

  lemma StartsAt(stream: seq<Frame>, g: nat)
    requires Contiguous(stream) && g < |stream|
    ensures At(stream, g) == stream[g].ts && stream[g].samples != []
  {
  }

  lemma PendingBound(stream: seq<Frame>, a: set<nat>, held: map<int, Audio>, j: nat)
    requires Pending(stream, a, held) && j in a
    ensures j < |stream| && stream[j].ts in held && held[stream[j].ts] == stream[j].samples
  {
  }

  lemma GapNone(a: set<nat>, g: nat, n: nat)
    requires g <= n && g !in a
    ensures Gap(a, g, n) == g
  {
  }

  lemma {:induction false} GapStep(a: set<nat>, g: nat, n: nat)
    requires g < n && g in a
    ensures Gap(a, g, n) == Gap(a - {g}, g + 1, n)
  {
    GapWithout(a, g, g + 1, n);
  }

  lemma {:induction false} GapWithout(a: set<nat>, j: nat, k: nat, n: nat)
    requires j < k <= n
    ensures Gap(a, k, n) == Gap(a - {j}, k, n)
    decreases n - k
  {
    if k < n && k in a {
      GapWithout(a, j, k + 1, n);
    }
  }

  lemma {:induction false} GapAgrees(a: set<nat>, b: set<nat>, k: nat, n: nat)
    requires k <= n && forall j :: j >= k ==> (j in a <==> j in b)
    ensures Gap(a, k, n) == Gap(b, k, n)
    decreases n - k
  {
    if k < n && k in a {
      GapAgrees(a, b, k + 1, n);
    }
  }

  lemma {:induction false} GapSkips(a: set<nat>, k: nat, g: nat, n: nat)
    requires k <= g <= n && forall j :: k <= j < g ==> j in a
    ensures Gap(a, k, n) == Gap(a, g, n)
    decreases g - k
  {
    if k < g {
      GapSkips(a, k + 1, g, n);
    }
  }

  ghost function Seen(order: seq<nat>): set<nat> { set j | j in order }

  /** How much of the stream has arrived without a gap. */
  ghost function Whole(order: seq<nat>, n: nat): (g: nat)
    ensures g <= n
  {
    Gap(Seen(order), 0, n)
  }

  /** The packets that have arrived beyond the first gap. */
  ghost function Waiting(order: seq<nat>, n: nat): set<nat> { Without(Seen(order), 0, Whole(order, n)) }

  function Arrivals(stream: seq<Frame>, order: seq<nat>): (fs: seq<Frame>)
    requires forall i :: 0 <= i < |order| ==> order[i] < |stream|
    ensures |fs| == |order|
  {
    seq(|order|, i requires 0 <= i < |order| => stream[order[i]])
  }

  ghost predicate Reassembled(stream: seq<Frame>, order: seq<nat>, t: Trace) {
    var n := |stream|;
    && t.emitted == stream[..Whole(order, n)] && Pending(stream, Waiting(order, n), t.state.pending)
    && t.state.ready == (order != [])
    && (order != [] ==> stream != [] && t.state.expected == At(stream, Whole(order, n)))
  }

  /** One more packet: nothing changes for one handed out already; any other joins those waiting. */
  lemma SeenMore(order: seq<nat>, j: nat, n: nat)
    requires j < n
    ensures var g := Whole(order, n);
      if j < g then Whole(order + [j], n) == g && Waiting(order + [j], n) == Waiting(order, n)
      else
        var a := Waiting(order, n) + {j};
        Whole(order + [j], n) == Gap(a, g, n) && Waiting(order + [j], n) == Without(a, g, Gap(a, g, n))
  {
    var g, more := Whole(order, n), Seen(order + [j]);
    assert more == Seen(order) + {j};
    if j < g {
      assert more == Seen(order);
    } else {
      var a := Waiting(order, n) + {j};
      GapSkips(more, 0, g, n);
      GapAgrees(a, more, g, n);
    }
  }

  lemma NothingSeen(stream: seq<Frame>, max: nat)
    ensures Whole([], |stream|) == 0 && Waiting([], |stream|) == {} && Reassembled(stream, [], Start(max))
  {
    assert Seen([]) == {};
  }

  lemma JoinsWaiting(stream: seq<Frame>, order: seq<nat>, j: nat, t: Trace)
    requires Contiguous(stream) && j < |stream| && Reassembled(stream, order, t) && Whole(order, |stream|) <= j
    requires order == [] ==> j == 0
    ensures Accepts(t.state, stream[j])
    ensures var s := Accept(t.state, stream[j]);
      && s.ready && s.max == t.state.max && s.expected == At(stream, Whole(order, |stream|))
      && Pending(stream, Waiting(order, |stream|) + {j}, s.pending)
  {
    hide Pending;
    hide Waiting;
    var w := Waiting(order, |stream|);
    PendingAt(stream, w, t.state.pending, j);
    AtLater(stream, j, Whole(order, |stream|));
    if j in w {
      assert w + {j} == w;
    } else {
      PendingMore(stream, w, t.state.pending, j);
    }
  }

  lemma ArrivesStep(max: nat, stream: seq<Frame>, order: seq<nat>, j: nat, t: Trace)
    requires Contiguous(stream) && j < |stream| && Reassembled(stream, order, t) && t.state.max == max
    requires (order == [] ==> j == 0) && |Waiting(order + [j], |stream|)| <= max
    ensures Reassembled(stream, order + [j], Advance(t, stream[j])) && Advance(t, stream[j]).state.max == max
  {
    hide Pending;
    hide Waiting;
    hide Whole;
    hide Drain;
    hide Without;
    var g := Whole(order, |stream|);
    SeenMore(order, j, |stream|);
    if j < g {
      AtLater(stream, j, g);
      if order == [] {
        NothingSeen(stream, max);
      }
      assert t.emitted + [] == t.emitted;
    } else {
      JoinsWaiting(stream, order, j, t);
      var s := Accept(t.state, stream[j]);
      var a := Waiting(order, |stream|) + {j};
      DrainStream(stream, a, g, s);
      SameCount(stream, Without(a, g, Gap(a, g, |stream|)), Drain(s).0.pending);
      assert stream[..g] + stream[g..Gap(a, g, |stream|)] == stream[..Gap(a, g, |stream|)];
    }
  }

  /** The packets of a stream may arrive in any order, any of them more than once, as long as the first one comes
      first and never more than `max` wait beyond a gap. At every moment exactly the part of the stream without a gap
      has been handed out, in order, and what lies beyond is waiting. */
  lemma {:induction false} StreamReassembled(max: nat, stream: seq<Frame>, order: seq<nat>)
    requires Contiguous(stream) && (order != [] ==> order[0] == 0)
    requires forall i :: 0 <= i < |order| ==> order[i] < |stream|
    requires forall m :: 0 <= m <= |order| ==> |Waiting(order[..m], |stream|)| <= max
    ensures var t := Run(max, Arrivals(stream, order)); Reassembled(stream, order, t) && t.state.max == max
  {
    hide Reassembled;
    hide Waiting;
    hide Advance;
    if order == [] {
      NothingSeen(stream, max);
    } else {
      var n := |order| - 1;
      forall m | 0 <= m <= n ensures |Waiting(order[..n][..m], |stream|)| <= max {
        assert order[..n][..m] == order[..m];
      }
      StreamReassembled(max, stream, order[..n]);
      assert order[..n] + [order[n]] == order && order[..|order|] == order;
      assert Arrivals(stream, order)[..n] == Arrivals(stream, order[..n]);
      ArrivesStep(max, stream, order[..n], order[n], Run(max, Arrivals(stream, order[..n])));
    }
  }

  // ----- In order, and on the wrapping buffer -----

  function InOrderUpTo(n: nat): (order: seq<nat>)
    ensures |order| == n && forall i :: 0 <= i < n ==> order[i] == i
  {
    seq(n, i => i)
  }

  lemma NoneWaiting(m: nat, n: nat)
    requires m <= n
    ensures Whole(InOrderUpTo(m), n) == m && Waiting(InOrderUpTo(m), n) == {}
  {
    forall j ensures j in Seen(InOrderUpTo(m)) <==> 0 <= j < m {
      if 0 <= j < m {
        assert InOrderUpTo(m)[j] == j;
      }
    }
    GapSkips(Seen(InOrderUpTo(m)), 0, m, n);
  }

  /** A stream that arrives in order is handed out packet by packet, and nothing waits. */
  lemma InOrderPlays(max: nat, stream: seq<Frame>, m: nat)
    requires Contiguous(stream) && m <= |stream|
    ensures var t := Run(max, stream[..m]);
      && t.emitted == stream[..m] && t.state.pending == map[] && t.state.ready == (m > 0)
      && (m > 0 ==> t.state.expected == At(stream, m))
      && (m < |stream| ==> Push(t.state, stream[m]).out == [stream[m]])
  {
    hide Push;
    InOrderReassembled(max, stream, m);
    if m < |stream| {
      InOrderReassembled(max, stream, m + 1);
      var t := Run(max, stream[..m]);
      assert stream[..m + 1][..m] == stream[..m];
      assert t.emitted + Push(t.state, stream[m]).out == stream[..m] + [stream[m]];
      assert (t.emitted + Push(t.state, stream[m]).out)[m..] == (stream[..m] + [stream[m]])[m..];
    }
  }

  lemma InOrderReassembled(max: nat, stream: seq<Frame>, m: nat)
    requires Contiguous(stream) && m <= |stream|
    ensures var t := Run(max, stream[..m]);
      && t.emitted == stream[..m] && t.state.pending == map[] && t.state.ready == (m > 0)
      && (m > 0 ==> t.state.expected == At(stream, m))
  {
    hide Waiting;
    hide Whole;
    hide Run;
    var order := InOrderUpTo(m);
    forall k | 0 <= k <= m ensures |Waiting(order[..k], |stream|)| <= max {
      assert order[..k] == InOrderUpTo(k);
      NoneWaiting(k, |stream|);
    }
    StreamReassembled(max, stream, order);
    NoneWaiting(m, |stream|);
    assert Arrivals(stream, order) == stream[..m];
    NothingPending(stream, Run(max, stream[..m]).state.pending);
  }

  lemma NothingPending(stream: seq<Frame>, held: map<int, Audio>)
    requires Pending(stream, {}, held)
    ensures held == map[]
  {
  }

  /** The wrapping buffer puts a stream together as the unbounded one does. */
  lemma WrappedStreamReassembled(max: nat, stream: seq<Frame>, order: seq<nat>, ws: seq<R.State>,
                                 outs: seq<seq<R.Frame>>)
    requires Contiguous(stream) && (order != [] ==> order[0] == 0)
    requires forall i :: 0 <= i < |order| ==> order[i] < |stream|
    requires forall m :: 0 <= m <= |order| ==> |Waiting(order[..m], |stream|)| <= max
    requires R.IsRun(max, R.WrapFrames(Arrivals(stream, order)), ws, outs)
    requires forall i :: 0 <= i < |order| ==>
      R.HalfRange(Run(max, Arrivals(stream, order)[..i]).state, stream[order[i]])
    ensures R.Flatten(outs) == R.WrapFrames(stream[..Whole(order, |stream|)])
  {
    hide Run;
    hide R.HalfRange;
    hide R.IsRun;
    hide Waiting;
    StreamReassembled(max, stream, order);
    R.RunSim(max, Arrivals(stream, order), ws, outs);
  }

  lemma InOrderHalfRange(max: nat, stream: seq<Frame>, m: nat)
    requires Contiguous(stream) && m < |stream| && |stream[m].samples| < R.HALF
    ensures R.HalfRange(Run(max, stream[..m]).state, stream[m])
  {
    hide Run;
    InOrderPlays(max, stream, m);
    AtLater(stream, m, m);
    assert R.LiveWithin(stream[m].ts, Run(max, stream[..m]).state, stream[m]);
  }

  /** On the wrapping buffer, across any number of wrap-arounds: a stream that arrives in order comes out packet by
      packet, each in its own call. */
  lemma {:induction false} WrappedInOrderPlays(max: nat, stream: seq<Frame>, ws: seq<R.State>, outs: seq<seq<R.Frame>>)
    requires Contiguous(stream) && R.IsRun(max, R.WrapFrames(stream), ws, outs)
    requires forall i :: 0 <= i < |stream| ==> |stream[i].samples| < R.HALF
    ensures forall i :: 0 <= i < |stream| ==> outs[i] == [R.WrapFrame(stream[i])]
  {
    forall i | 0 <= i < |stream| ensures outs[i] == [R.WrapFrame(stream[i])] {
      WrappedCall(max, stream, ws, outs, i);
    }
  }

  lemma WrappedCall(max: nat, stream: seq<Frame>, ws: seq<R.State>, outs: seq<seq<R.Frame>>, m: nat)
    requires Contiguous(stream) && R.IsRun(max, R.WrapFrames(stream), ws, outs) && m < |stream|
    requires forall i :: 0 <= i < |stream| ==> |stream[i].samples| < R.HALF
    ensures outs[m] == [R.WrapFrame(stream[m])]
  {
    hide Run;
    hide Push;
    hide R.Pushes;
    hide R.Sim;
    hide R.HalfRange;
    forall i | 0 <= i < m ensures R.HalfRange(Run(max, stream[..m][..i]).state, stream[..m][i]) {
      assert stream[..m][..i] == stream[..i];
      InOrderHalfRange(max, stream, i);
    }
    assert R.WrapFrames(stream[..m]) == R.WrapFrames(stream)[..m];
    R.RunSim(max, stream[..m], ws[..m + 1], outs[..m]);
    InOrderHalfRange(max, stream, m);
    R.PushSim(ws[m], Run(max, stream[..m]).state, stream[m], ws[m + 1], outs[m]);
    InOrderPlays(max, stream, m);
    assert R.WrapFrames([stream[m]]) == [R.WrapFrame(stream[m])];
  }
}
