/** The publish/subscribe hub that keeps only the latest value (cmd/sigsentinel/state.go), and the drop-oldest send
    it uses (internal/chanutil/publish.go). */
module StateHub {
  import opened Wrappers

  // ----- PublishLatest on one channel, with a receiver that may act between its selects -----

  /** The select that PublishLatest has come to. */
  datatype Stage = TrySend | MakeRoom | TryAgain

  /** What a select leaves in the channel, the select that follows it, and whether it sent. */
  datatype Selected<T> = Selected(buffer: Option<T>, next: Option<Stage>, sent: bool)

  function Select<T>(stage: Stage, buffer: Option<T>, value: T): Selected<T> {
    match stage
    case TrySend =>
      if buffer.None? then Selected(Some(value), None, true) else Selected(buffer, Some(MakeRoom), false)
    case MakeRoom => Selected(None, Some(TryAgain), false)
    case TryAgain => if buffer.None? then Selected(Some(value), None, true) else Selected(buffer, None, false)
  }

  class Channel<T> {
    var buffer: Option<T>        // room for one value
    var taken: seq<T>            // what the receiver has got

    constructor ()
      ensures buffer == None && taken == []
    {
      buffer, taken := None, [];
    }

    /** The receiver may run now and may take what is buffered. */
    method Interfere()
      modifies this
      ensures (buffer, taken) == (old(buffer), old(taken))
        || (old(buffer).Some? && buffer == None && taken == old(taken) + [old(buffer).value])
    {
      var run: bool := *;
      if run && buffer.Some? {
        taken := taken + [buffer.value];
        buffer := None;
      }
    }

    /** `ch <- value` if there is room. */
    method Offer(value: T) returns (sent: bool)
      modifies this`buffer
      ensures sent == old(buffer).None? && buffer == if sent then Some(value) else old(buffer)
    {
      sent := buffer.None?;
      if sent {
        buffer := Some(value);
      }
    }

    /** Sends without blocking, by the selects of `Select`, which are the steps of a publish in the hub below. With no
        other sender the value always gets in, and all that can be lost is the one value that was buffered before. */
    method PublishLatest(value: T) returns (ghost last: Selected<T>)
      modifies this
      ensures last.sent && last.next == None && last.buffer == Some(value)
      ensures buffer == Some(value) || (buffer == None && taken != [] && taken[|taken| - 1] == value)
      ensures taken == old(taken) || taken == old(taken) + [value]
        || (old(buffer).Some? && taken == old(taken) + [old(buffer).value])
        || (old(buffer).Some? && taken == old(taken) + [old(buffer).value, value])
    {
      Interfere();
      last := Select(TrySend, buffer, value);
      var sent := Offer(value);
      assert buffer == last.buffer && sent == last.sent;
      if !sent {
        assert last.next == Some(MakeRoom);
        Interfere();
        last := Select(MakeRoom, buffer, value);
        buffer := None;
        assert buffer == last.buffer && last.next == Some(TryAgain);
        Interfere();
        last := Select(TryAgain, buffer, value);
        sent := Offer(value);
        assert buffer == last.buffer && sent == last.sent;
      }
      Interfere();
    }
  }

  // ----- The hub: publishes, receives, subscriptions and cancellations in any order -----

  /** `buffer` and `received` hold positions in the history of published states; `since` is the one at subscription. */
  datatype Sub = Sub(buffer: Option<nat>, received: seq<nat>, since: nat, closed: bool, registered: bool)

  /** A publish holds the lock until every subscriber it found has been served; `current` is the one being served and
      how far PublishLatest has got with it. */
  datatype Lock = Unlocked | Publishing(todo: set<nat>, current: Option<(nat, Stage)>)

  /** `now` is the position of the newest state; `sentClosed` notes a send on a closed channel. */
  datatype Hub = Hub(now: nat, subs: seq<Sub>, lock: Lock, sentClosed: bool, refused: bool)

  const START := Hub(0, [], Unlocked, false, false)

  datatype Action =
    | Publish            // take the lock and set the state
    | Serve(id: nat)     // turn to the next subscriber
    | Proceed            // the next select of PublishLatest
    | Done               // unlock
    | Subscribe
    | Unsubscribe(id: nat)  // its context has ended: remove and close, under the lock
    | Receive(id: nat)

  function Update(h: Hub, id: nat, s: Sub): Hub
    requires id < |h.subs|
  {
    h.(subs := h.subs[id := s])
  }

  /** The next select of PublishLatest for the subscriber being served. */
  function Selecting(h: Hub, id: nat, stage: Stage, todo: set<nat>): Hub
    requires id < |h.subs|
  {
    var s := h.subs[id];
    var r := Select(stage, s.buffer, h.now);
    Update(h, id, s.(buffer := r.buffer)).(
      lock := Publishing(todo, if r.next.Some? then Some((id, r.next.value)) else None),
      sentClosed := h.sentClosed || (r.sent && s.closed),
      refused := h.refused || (r.next.None? && !r.sent))
  }

  function Registered(subs: seq<Sub>): set<nat> { set i | 0 <= i < |subs| && subs[i].registered }

  function Step(h: Hub, a: Action): Option<Hub> {
    match a
    case Publish =>
      if h.lock == Unlocked then Some(h.(now := h.now + 1, lock := Publishing(Registered(h.subs), None))) else None
    case Serve(id) =>
      if h.lock.Publishing? && h.lock.current == None && id in h.lock.todo && id < |h.subs|
      then Some(h.(lock := Publishing(h.lock.todo - {id}, Some((id, TrySend))))) else None
    case Proceed =>
      if !h.lock.Publishing? || h.lock.current == None || h.lock.current.value.0 >= |h.subs| then None
      else Some(Selecting(h, h.lock.current.value.0, h.lock.current.value.1, h.lock.todo))
    case Done =>
      if h.lock == Publishing({}, None) then Some(h.(lock := Unlocked)) else None
    case Subscribe =>
      if h.lock == Unlocked then Some(h.(subs := h.subs + [Sub(Some(h.now), [], h.now, false, true)])) else None
    case Unsubscribe(id) =>
      if h.lock == Unlocked && id < |h.subs| && h.subs[id].registered
      then Some(Update(h, id, h.subs[id].(closed := true, registered := false))) else None
    case Receive(id) =>
      if id < |h.subs| && h.subs[id].buffer.Some?
      then var s := h.subs[id];
           Some(Update(h, id, s.(received := s.received + [s.buffer.value], buffer := None)))
      else None
  }

  function Run(actions: seq<Action>): Option<Hub> {
    if actions == [] then Some(START)
    else
      match Run(actions[..|actions| - 1])
      case None => None
      case Some(h) => Step(h, actions[|actions| - 1])
  }

  /** What the subscriber has got or will get next. */
  function Line(s: Sub): seq<nat> { s.received + if s.buffer.Some? then [s.buffer.value] else [] }

  /** In order, without repeats, from the state at subscription on, none newer than `now`. */
  ghost predicate Increasing(xs: seq<nat>, since: nat, now: int) {
    && (forall i, j :: 0 <= i < j < |xs| ==> xs[i] < xs[j])
    && (forall i :: 0 <= i < |xs| ==> since <= xs[i] <= now)
  }

  /** The newest state is buffered, or it is the last one received. */
  ghost predicate UpToDate(s: Sub, now: nat) {
    Line(s) != [] && Line(s)[|Line(s)| - 1] == now
  }

  /** How far the running publish has got with subscriber `id`. */
  ghost predicate Served(h: Hub, id: nat)
    requires id < |h.subs|
  {
    var s := h.subs[id];
    if h.lock == Unlocked then UpToDate(s, h.now)
    else if id in h.lock.todo then Increasing(Line(s), s.since, h.now - 1)
    else if h.lock.current.Some? && h.lock.current.value.0 == id then
      Increasing(Line(s), s.since, h.now - 1) && (h.lock.current.value.1 == TryAgain ==> s.buffer == None)
    else UpToDate(s, h.now)
  }

  ghost predicate Fine(h: Hub, id: nat)
    requires id < |h.subs|
  {
    var s := h.subs[id];
    && Increasing(Line(s), s.since, h.now)
    && s.since <= h.now
    && (s.registered ==> Served(h, id)) && (s.registered <==> !s.closed)
    && (h.lock.Publishing? && id in h.lock.todo ==> s.registered)
    && (h.lock.Publishing? && h.lock.current.Some? && h.lock.current.value.0 == id ==> s.registered)
  }

  ghost predicate Sound(h: Hub) {
    && (forall id :: 0 <= id < |h.subs| ==> Fine(h, id))
    && !h.sentClosed && !h.refused
    && (h.lock.Publishing? ==> h.now > 0)
    && (h.lock.Publishing? ==> forall id :: id in h.lock.todo ==> id < |h.subs|)
    && (h.lock.Publishing? && h.lock.current.Some? ==>
          h.lock.current.value.0 < |h.subs| && h.lock.current.value.0 !in h.lock.todo)
  }

  /** Two moments of one publish that differ at most in how far it has got with subscriber `id`. */
  ghost predicate OnlyAbout(a: Lock, b: Lock, id: nat) {
    && a.Publishing? && b.Publishing?
    && (forall k :: k != id ==> (k in a.todo <==> k in b.todo))
    && (a.current.Some? ==> a.current.value.0 == id) && (b.current.Some? ==> b.current.value.0 == id)
  }

  /** Only subscriber `id` changes. */
  lemma OthersFine(h: Hub, t: Hub, id: nat)
    requires Sound(h) && |t.subs| == |h.subs| && id < |h.subs| && t.now == h.now
    requires forall k :: 0 <= k < |h.subs| && k != id ==> t.subs[k] == h.subs[k]
    requires h.lock == t.lock || OnlyAbout(h.lock, t.lock, id)
    ensures forall k :: 0 <= k < |t.subs| && k != id ==> Fine(t, k)
  {
    forall k | 0 <= k < |t.subs| && k != id ensures Fine(t, k) {
      assert Fine(h, k);
    }
  }

  /** Dropping what is buffered and delivering the newest state keep a line in order. */
  lemma LineChanges(s: Sub, now: nat)
    requires Increasing(Line(s), s.since, now - 1) && s.since <= now
    ensures Increasing(Line(s.(buffer := None)), s.since, now - 1) && Increasing(Line(s.(buffer := None)), s.since, now)
    ensures s.buffer == None ==> Increasing(Line(s.(buffer := Some(now))), s.since, now)
    ensures UpToDate(s.(buffer := Some(now)), now)
  {
    assert forall i :: 0 <= i < |s.received| ==> s.received[i] == Line(s)[i];
  }

  lemma ProceedSound(h: Hub)
    requires Sound(h) && Step(h, Proceed).Some?
    ensures Sound(Step(h, Proceed).value)
  {
    hide Increasing;
    hide UpToDate;
    hide Line;
    var t := Step(h, Proceed).value;
    var id := h.lock.current.value.0;
    assert Fine(h, id);
    LineChanges(h.subs[id], h.now);
    OthersFine(h, t, id);
    assert Fine(t, id);
  }

  lemma ReceiveSound(h: Hub, id: nat)
    requires Sound(h) && Step(h, Receive(id)).Some?
    ensures Sound(Step(h, Receive(id)).value)
  {
    var t := Step(h, Receive(id)).value;
    assert Fine(h, id);
    assert Line(t.subs[id]) == Line(h.subs[id]);
    OthersFine(h, t, id);
    assert Fine(t, id);
  }

  lemma UnsubscribeSound(h: Hub, id: nat)
    requires Sound(h) && Step(h, Unsubscribe(id)).Some?
    ensures Sound(Step(h, Unsubscribe(id)).value)
  {
    var t := Step(h, Unsubscribe(id)).value;
    assert Fine(h, id);
    OthersFine(h, t, id);
    assert Fine(t, id);
  }

  lemma ServeSound(h: Hub, id: nat)
    requires Sound(h) && Step(h, Serve(id)).Some?
    ensures Sound(Step(h, Serve(id)).value)
  {
    var t := Step(h, Serve(id)).value;
    assert Fine(h, id);
    OthersFine(h, t, id);
    assert Fine(t, id);
  }

  lemma PublishSound(h: Hub)
    requires Sound(h) && Step(h, Publish).Some?
    ensures Sound(Step(h, Publish).value)
  {
    var t := Step(h, Publish).value;
    forall k | 0 <= k < |t.subs| ensures Fine(t, k) {
      assert Fine(h, k);
    }
  }

  lemma OtherSound(h: Hub, a: Action)
    requires Sound(h) && Step(h, a).Some? && (a.Done? || a.Subscribe?)
    ensures Sound(Step(h, a).value)
  {
    var t := Step(h, a).value;
    forall k | 0 <= k < |t.subs| ensures Fine(t, k) {
      if k < |h.subs| {
        assert Fine(h, k);
      }
    }
  }

  lemma {:induction false} RunSound(actions: seq<Action>)
    requires Run(actions).Some?
    ensures Sound(Run(actions).value)
  {
    hide Sound;
    hide Step;
    if actions == [] {
      StartSound();
    } else {
      RunSound(actions[..|actions| - 1]);
      var h, a := Run(actions[..|actions| - 1]).value, actions[|actions| - 1];
      match a
      case Publish => PublishSound(h);
      case Serve(id) => ServeSound(h, id);
      case Proceed => ProceedSound(h);
      case Unsubscribe(id) => UnsubscribeSound(h, id);
      case Receive(id) => ReceiveSound(h, id);
      case _ => OtherSound(h, a);
    }
  }

  lemma StartSound()
    ensures Sound(START)
  {
  }

  /** Over every interleaving each subscriber gets states in publication order, none twice, none from before its
      subscription. */
  lemma ReceivedInOrder(actions: seq<Action>, id: nat)
    requires Run(actions).Some? && id < |Run(actions).value.subs|
    ensures var s := Run(actions).value.subs[id]; Increasing(s.received, s.since, Run(actions).value.now)
  {
    hide Run;
    RunSound(actions);
    var s := Run(actions).value.subs[id];
    assert Fine(Run(actions).value, id);
    assert forall i :: 0 <= i < |s.received| ==> s.received[i] == Line(s)[i];
  }

  /** Whenever no publish is under way, the newest state is buffered for every subscriber or was its last one. */
  lemma NewestDelivered(actions: seq<Action>, id: nat)
    requires Run(actions).Some? && Run(actions).value.lock == Unlocked
    requires id < |Run(actions).value.subs| && Run(actions).value.subs[id].registered
    ensures var h := Run(actions).value; var s := h.subs[id];
      s.buffer == Some(h.now) || (s.buffer == None && s.received != [] && s.received[|s.received| - 1] == h.now)
  {
    hide Run;
    RunSound(actions);
    assert Fine(Run(actions).value, id);
  }

  /** Nothing is ever sent on a closed channel, and the last send of PublishLatest always finds room. */
  lemma NoBadSend(actions: seq<Action>)
    requires Run(actions).Some?
    ensures !Run(actions).value.sentClosed && !Run(actions).value.refused
  {
    RunSound(actions);
  }

  // ----- Cancellation, and publishes that come to an end -----

  /** A cancelled subscriber's channel is closed at once and stays closed; it gets nothing more. */
  lemma CancelledIsClosed(actions: seq<Action>, id: nat)
    requires Run(actions).Some? && Run(actions).value.lock == Unlocked
    requires id < |Run(actions).value.subs| && Run(actions).value.subs[id].registered
    ensures var h := Run(actions).value; var r := Run(actions + [Unsubscribe(id)]);
      r.Some? && |r.value.subs| == |h.subs| && r.value.subs[id].closed && !r.value.subs[id].registered
      && Line(r.value.subs[id]) == Line(h.subs[id])
  {
    hide Run;
    RunMore(actions, Unsubscribe(id));
  }

  lemma RunMore(actions: seq<Action>, a: Action)
    ensures Run(actions + [a]) == match Run(actions) case None => None case Some(h) => Step(h, a)
  {
    assert (actions + [a])[..|actions|] == actions;
  }

  lemma StaysClosed(h: Hub, a: Action, id: nat)
    requires Sound(h) && Step(h, a).Some? && id < |h.subs| && h.subs[id].closed
    ensures var t := Step(h, a).value; id < |t.subs| && t.subs[id].closed && Line(t.subs[id]) == Line(h.subs[id])
  {
    assert Fine(h, id);
  }

  /** A channel is open exactly as long as its subscriber is registered; what a closed one holds or has delivered never
      changes again. */
  lemma {:induction false} ClosedForGood(actions: seq<Action>, n: nat, id: nat)
    requires n <= |actions| && Run(actions).Some? && Run(actions[..n]).Some?
    requires id < |Run(actions[..n]).value.subs| && Run(actions[..n]).value.subs[id].closed
    ensures var h, t := Run(actions[..n]).value, Run(actions).value;
      id < |t.subs| && t.subs[id].closed && !t.subs[id].registered && Line(t.subs[id]) == Line(h.subs[id])
    decreases |actions|
  {
    hide Step;
    hide Sound;
    hide Line;
    if n == |actions| {
      assert actions[..n] == actions;
      RunSound(actions);
      OpenMeansRegistered(Run(actions).value, id);
    } else {
      var m := |actions| - 1;
      assert actions[..m][..n] == actions[..n];
      ClosedForGood(actions[..m], n, id);
      RunSound(actions[..m]);
      StaysClosed(Run(actions[..m]).value, actions[m], id);
      RunSound(actions);
      OpenMeansRegistered(Run(actions).value, id);
    }
  }

  lemma OpenMeansRegistered(h: Hub, id: nat)
    requires Sound(h) && id < |h.subs|
    ensures h.subs[id].registered <==> !h.subs[id].closed
  {
    assert Fine(h, id);
  }

  /** How many steps a publish still has to take at most. */
  function StepsLeft(l: Lock): nat {
    match l
    case Unlocked => 0
    case Publishing(todo, current) =>
      4 * |todo| + 1
      + match current
        case None => 0
        case Some((_, TrySend)) => 3
        case Some((_, MakeRoom)) => 2
        case Some((_, TryAgain)) => 1
  }

  /** A publish under way can always take its next step, and each step brings its end nearer. */
  lemma PublishGoesOn(h: Hub) returns (a: Action)
    requires Sound(h) && h.lock.Publishing?
    ensures Step(h, a).Some?
    ensures var t := Step(h, a).value; StepsLeft(t.lock) < StepsLeft(h.lock) && t.now == h.now && |t.subs| == |h.subs|
  {
    if h.lock.current.Some? {
      a := Proceed;
    } else if h.lock.todo == {} {
      a := Done;
    } else {
      var id :| id in h.lock.todo;
      a := Serve(id);
      assert |h.lock.todo - {id}| < |h.lock.todo|;
    }
  }

  /** Nothing the subscribers do or fail to do can keep a publish from ending. */
  lemma {:induction false} PublishEnds(actions: seq<Action>) returns (more: seq<Action>)
    requires Run(actions).Some?
    ensures var r := Run(actions + more);
      r.Some? && r.value.lock == Unlocked && r.value.now == Run(actions).value.now
    decreases StepsLeft(Run(actions).value.lock)
  {
    hide Step;
    hide Sound;
    var h := Run(actions).value;
    RunSound(actions);
    if h.lock == Unlocked {
      more := [];
      assert actions + more == actions;
    } else {
      var a := PublishGoesOn(h);
      RunMore(actions, a);
      var rest := PublishEnds(actions + [a]);
      more := [a] + rest;
      assert actions + more == actions + [a] + rest;
    }
  }

  /** With no publish under way a publish or a subscription can begin at once, and a buffered state can always be
      received. A new subscriber finds the newest state. */
  lemma AlwaysOpen(actions: seq<Action>, id: nat)
    requires Run(actions).Some?
    ensures var h := Run(actions).value;
      && (h.lock == Unlocked ==> Run(actions + [Publish]).Some? && Run(actions + [Publish]).value.now == h.now + 1)
      && (h.lock == Unlocked ==> var r := Run(actions + [Subscribe]);
            r.Some? && |r.value.subs| == |h.subs| + 1 && r.value.subs[|h.subs|].buffer == Some(h.now)
            && r.value.subs[|h.subs|].registered)
      && (id < |h.subs| && h.subs[id].buffer.Some? ==> var r := Run(actions + [Receive(id)]);
            r.Some? && id < |r.value.subs|
            && r.value.subs[id].received == h.subs[id].received + [h.subs[id].buffer.value])
  {
    hide Run;
    RunMore(actions, Publish);
    RunMore(actions, Subscribe);
    RunMore(actions, Receive(id));
  }
}
