/** The one-slot control queue of cmd/sigsentinel/session.go: callers that supersede, callers that wait, and the
    control loop, as steps that may interleave in any order. */
module ControlQueue {
  import opened Wrappers

  /** Where a request is. `Waiting` is before its send, `Abandoned` a send given up because the session ended. */
  datatype Place = Waiting | Queued | Running | Executed | Superseded | Abandoned

  /** `wantsReply` is ExecuteControl, otherwise EnqueueControl; the reply channel holds one answer, `answers` are all
      that were ever sent on it, and `got` are those received. */
  datatype Request = Request(wantsReply: bool, place: Place, reply: Option<Answer>, answers: seq<Answer>,
                             got: seq<Answer>)

  datatype Answer = Result | SupersededError

  /** The EnqueueControl call that holds controlMu, before or after its first select. */
  datatype Holder = Free | Draining(id: nat) | Sending(id: nat)

  datatype Exit = Exit(id: nat, executed: bool)

  datatype Session = Session(
    requests: seq<Request>, slot: Option<nat>, holder: Holder, running: Option<nat>, cancelled: bool,
    arrived: seq<nat>,    // requests in the order they entered the queue
    left: seq<Exit>,      // requests in the order they left it, and how
    finished: seq<nat>)   // requests in the order the loop finished them

  const START := Session([], None, Free, None, false, [], [], [])

  datatype Action =
    | Call(wantsReply: bool)   // a caller arrives
    | Lock(id: nat)            // EnqueueControl takes controlMu
    | Drain                    // ... takes a stale request out, if there is one, and answers it
    | Put                      // ... sends its own request and unlocks
    | PutGivesUp               // ... or finds the session ended
    | Send(id: nat)            // ExecuteControl sends
    | SendGivesUp(id: nat)
    | Take                     // the control loop receives
    | Finish                   // ... has executed the intent and answers
    | Read(id: nat)            // an ExecuteControl caller receives its answer
    | Cancel                   // the session's context ends

  function Move(s: Session, id: nat, p: Place): Session
    requires id < |s.requests|
  {
    s.(requests := s.requests[id := s.requests[id].(place := p)])
  }

  /** Sends an answer on the request's channel. The channel has room only when it is empty. */
  function Reply(s: Session, id: nat, a: Answer): Session
    requires id < |s.requests|
  {
    if !s.requests[id].wantsReply then s
    else s.(requests := s.requests[id := s.requests[id].(reply := Some(a), answers := s.requests[id].answers + [a])])
  }

  /** A send on the reply channel would not block. */
  predicate HasRoom(s: Session, id: nat) {
    id < |s.requests| && (s.requests[id].wantsReply ==> s.requests[id].reply == None)
  }

  function Entered(s: Session, id: nat): Session
    requires id < |s.requests|
  {
    Move(s, id, Queued).(slot := Some(id), arrived := s.arrived + [id])
  }

  /** The step, if it can be taken now. */
  function Step(s: Session, a: Action): Option<Session> {
    match a
    case Call(w) => Some(s.(requests := s.requests + [Request(w, Waiting, None, [], [])]))
    case Lock(id) =>
      if s.holder == Free && id < |s.requests| && !s.requests[id].wantsReply && s.requests[id].place == Waiting
      then Some(s.(holder := Draining(id))) else None
    case Drain =>
      if !s.holder.Draining? then None
      else
        var t := s.(holder := Sending(s.holder.id));
        if s.slot == None then Some(t)
        else
          var stale := s.slot.value;
          if !HasRoom(s, stale) then None
          else Some(Reply(Move(t, stale, Superseded), stale, SupersededError)
                    .(slot := None, left := s.left + [Exit(stale, false)]))
    case Put =>
      if s.holder.Sending? && s.slot == None && s.holder.id < |s.requests|
      then Some(Entered(s, s.holder.id).(holder := Free)) else None
    case PutGivesUp =>
      if s.holder.Sending? && s.cancelled && s.holder.id < |s.requests|
      then Some(Move(s, s.holder.id, Abandoned).(holder := Free)) else None
    case Send(id) =>
      if id < |s.requests| && s.requests[id].wantsReply && s.requests[id].place == Waiting && s.slot == None
      then Some(Entered(s, id)) else None
    case SendGivesUp(id) =>
      if id < |s.requests| && s.requests[id].wantsReply && s.requests[id].place == Waiting && s.cancelled
      then Some(Move(s, id, Abandoned)) else None
    case Take =>
      if s.running == None && s.slot.Some? && s.slot.value < |s.requests|
      then Some(Move(s, s.slot.value, Running)
                .(slot := None, running := s.slot, left := s.left + [Exit(s.slot.value, true)]))
      else None
    case Finish =>
      if s.running.Some? && HasRoom(s, s.running.value)
      then Some(Reply(Move(s, s.running.value, Executed), s.running.value, Result)
                .(running := None, finished := s.finished + [s.running.value]))
      else None
    case Read(id) =>
      if id < |s.requests| && s.requests[id].reply.Some?
      then
        var r := s.requests[id];
        Some(s.(requests := s.requests[id := r.(reply := None, got := r.got + [r.reply.value])]))
      else None
    case Cancel => Some(s.(cancelled := true))
  }

  function Run(actions: seq<Action>): Option<Session> {
    if actions == [] then Some(START)
    else
      match Run(actions[..|actions| - 1])
      case None => None
      case Some(s) => Step(s, actions[|actions| - 1])
  }

  // ----- What every reachable state satisfies -----

  function Ids(left: seq<Exit>): (r: seq<nat>)
    ensures |r| == |left|
  {
    seq(|left|, i requires 0 <= i < |left| => left[i].id)
  }

  function ExecutedIds(left: seq<Exit>): seq<nat> {
    if left == [] then []
    else ExecutedIds(left[..|left| - 1]) + if left[|left| - 1].executed then [left[|left| - 1].id] else []
  }

  function Listed(o: Option<nat>): seq<nat> { if o == None then [] else [o.value] }

  ghost predicate Distinct(xs: seq<nat>) { forall i, j :: 0 <= i < j < |xs| ==> xs[i] != xs[j] }

  /** A request that wants an answer gets one: its result once it was executed, an error once it was superseded. */
  function AnswersDue(r: Request): seq<Answer> {
    if !r.wantsReply then []
    else if r.place == Executed then [Result]
    else if r.place == Superseded then [SupersededError]
    else []
  }

  function Pending(o: Option<Answer>): seq<Answer> { if o == None then [] else [o.value] }

  /** The place of a request says what happened to it: where it is, and what it was answered. */
  predicate Agrees(r: Request, queued: bool, running: bool, arrived: bool, superseded: bool, taken: bool) {
    && (r.place == Queued <==> queued)
    && (r.place == Running <==> running)
    && (r.place in {Waiting, Abandoned} <==> !arrived)
    && (r.place == Superseded <==> superseded)
    && (r.place in {Running, Executed} <==> taken)
    && r.answers == AnswersDue(r)
    && r.got + Pending(r.reply) == r.answers
  }

  ghost predicate Consistent(s: Session, id: nat)
    requires id < |s.requests|
  {
    Agrees(s.requests[id], s.slot == Some(id), s.running == Some(id), id in s.arrived, Exit(id, false) in s.left,
           Exit(id, true) in s.left)
  }

  /** An answer sent to a request that has none yet. */
  lemma AnswerAgrees(r: Request, p: Place, a: Answer)
    requires p == (if a == Result then Executed else Superseded)
    requires r.answers == AnswersDue(r) && r.got + Pending(r.reply) == r.answers
    requires r.place != Executed && r.place != Superseded
    ensures r.wantsReply ==> r.reply == None && r.got == []
    ensures var t := if r.wantsReply then r.(place := p, reply := Some(a), answers := r.answers + [a])
                     else r.(place := p);
      t.answers == AnswersDue(t) && t.got + Pending(t.reply) == t.answers
  {
    assert |r.got| + |Pending(r.reply)| == |r.answers|;
  }

  ghost predicate Sound(s: Session) {
    && (forall id :: 0 <= id < |s.requests| ==> Consistent(s, id))
    && (forall i :: 0 <= i < |s.arrived| ==> s.arrived[i] < |s.requests|)
    && Distinct(s.arrived)
    && s.arrived == Ids(s.left) + Listed(s.slot)
    && ExecutedIds(s.left) == s.finished + Listed(s.running)
    && (!s.holder.Free? ==> s.holder.id < |s.requests|)
    && (!s.holder.Free? ==> !s.requests[s.holder.id].wantsReply && s.requests[s.holder.id].place == Waiting)
    && (s.slot.Some? ==> s.slot.value < |s.requests|) && (s.running.Some? ==> s.running.value < |s.requests|)
  }

  lemma ExecutedMore(left: seq<Exit>, e: Exit)
    ensures ExecutedIds(left + [e]) == ExecutedIds(left) + if e.executed then [e.id] else []
    ensures Ids(left + [e]) == Ids(left) + [e.id]
  {
    assert (left + [e])[..|left|] == left;
  }

  lemma EnterSound(s: Session, id: nat)
    requires Sound(s) && s.slot == None && id < |s.requests| && s.requests[id].place == Waiting
    requires !s.holder.Free? ==> s.holder.id != id
    ensures Sound(Entered(s, id))
  {
    var t := Entered(s, id);
    assert forall i :: 0 <= i < |s.arrived| ==> s.arrived[i] in s.arrived;
    assert Consistent(s, id);
    assert t.arrived == Ids(s.left) + [id];
    forall k | 0 <= k < |t.requests| ensures Consistent(t, k) {
      assert Consistent(s, k);
    }
  }

  lemma DrainSound(s: Session)
    requires Sound(s) && s.holder.Draining? && s.slot.Some?
    ensures HasRoom(s, s.slot.value) && Step(s, Drain).Some? && Sound(Step(s, Drain).value)
  {
    hide Distinct;
    hide ExecutedIds;
    hide Ids;
    hide AnswersDue;
    hide Pending;
    var id := s.slot.value;
    assert Consistent(s, id);
    AnswerAgrees(s.requests[id], Superseded, SupersededError);
    var t := Step(s, Drain).value;
    ExecutedMore(s.left, Exit(id, false));
    forall k | 0 <= k < |t.requests| ensures Consistent(t, k) {
      assert Consistent(s, k);
    }
  }

  lemma TakeSound(s: Session)
    requires Sound(s) && s.running == None && s.slot.Some?
    ensures Step(s, Take).Some? && Sound(Step(s, Take).value)
  {
    hide Distinct;
    hide ExecutedIds;
    hide Ids;
    hide Pending;
    var id := s.slot.value;
    var t := Step(s, Take).value;
    assert Consistent(s, id);
    ExecutedMore(s.left, Exit(id, true));
    forall k | 0 <= k < |t.requests| ensures Consistent(t, k) {
      assert Consistent(s, k);
    }
  }

  lemma FinishSound(s: Session)
    requires Sound(s) && s.running.Some?
    ensures HasRoom(s, s.running.value) && Step(s, Finish).Some? && Sound(Step(s, Finish).value)
  {
    hide Distinct;
    hide ExecutedIds;
    hide Ids;
    hide AnswersDue;
    hide Pending;
    var id := s.running.value;
    assert Consistent(s, id);
    AnswerAgrees(s.requests[id], Executed, Result);
    var t := Step(s, Finish).value;
    forall k | 0 <= k < |t.requests| ensures Consistent(t, k) {
      assert Consistent(s, k);
    }
  }

  lemma CallSound(s: Session, wantsReply: bool)
    requires Sound(s)
    ensures Sound(Step(s, Call(wantsReply)).value)
  {
    var t := Step(s, Call(wantsReply)).value;
    forall k | 0 <= k < |t.requests| ensures Consistent(t, k) {
      if k < |s.requests| {
        assert Consistent(s, k);
      } else {
        assert forall i :: 0 <= i < |s.arrived| ==> s.arrived[i] != k;
        forall e | e in s.left ensures e.id != k {
          var i :| 0 <= i < |s.left| && s.left[i] == e;
          assert s.arrived[i] == e.id;
        }
      }
    }
  }

  /** Steps that change only who holds controlMu, or end the session. */
  lemma HolderSound(s: Session, a: Action)
    requires Sound(s) && Step(s, a).Some? && (a.Lock? || a.Cancel? || (a.Drain? && s.slot == None))
    ensures Sound(Step(s, a).value)
  {
    var t := Step(s, a).value;
    forall k | 0 <= k < |t.requests| ensures Consistent(t, k) {
      assert Consistent(s, k);
    }
  }

  lemma AbandonSound(s: Session, id: nat)
    requires Sound(s) && id < |s.requests| && s.requests[id].place == Waiting
    requires !s.holder.Free? ==> s.holder.id != id
    ensures Sound(Move(s, id, Abandoned))
  {
    hide Distinct;
    var t := Move(s, id, Abandoned);
    forall k | 0 <= k < |t.requests| ensures Consistent(t, k) {
      assert Consistent(s, k);
    }
  }

  lemma ReadSound(s: Session, id: nat)
    requires Sound(s) && Step(s, Read(id)).Some?
    ensures Sound(Step(s, Read(id)).value)
  {
    hide Distinct;
    var t := Step(s, Read(id)).value;
    forall k | 0 <= k < |t.requests| ensures Consistent(t, k) {
      assert Consistent(s, k);
    }
  }

  lemma UnlockSound(s: Session)
    requires Sound(s)
    ensures Sound(s.(holder := Free))
  {
    hide Distinct;
    forall k | 0 <= k < |s.requests| ensures Consistent(s.(holder := Free), k) {
      assert Consistent(s, k);
    }
  }

  lemma SendSound(s: Session, id: nat)
    requires Sound(s) && Step(s, Send(id)).Some?
    ensures Sound(Step(s, Send(id)).value)
  {
    EnterSound(s, id);
  }

  lemma SendGivesUpSound(s: Session, id: nat)
    requires Sound(s) && Step(s, SendGivesUp(id)).Some?
    ensures Sound(Step(s, SendGivesUp(id)).value)
  {
    AbandonSound(s, id);
  }

  lemma PutSound(s: Session, a: Action)
    requires Sound(s) && (a.Put? || a.PutGivesUp?) && Step(s, a).Some?
    ensures Sound(Step(s, a).value)
  {
    var free := s.(holder := Free);
    UnlockSound(s);
    if a.Put? {
      EnterSound(free, s.holder.id);
    } else {
      AbandonSound(free, s.holder.id);
    }
  }

  lemma StepSound(s: Session, a: Action)
    requires Sound(s) && Step(s, a).Some?
    ensures Sound(Step(s, a).value)
  {
    hide Sound;
    match a
    case Call(w) => CallSound(s, w);
    case Put => PutSound(s, a);
    case PutGivesUp => PutSound(s, a);
    case Send(id) => SendSound(s, id);
    case SendGivesUp(id) => SendGivesUpSound(s, id);
    case Take => TakeSound(s);
    case Finish => FinishSound(s);
    case Read(id) => ReadSound(s, id);
    case Drain =>
      if s.slot.Some? {
        DrainSound(s);
      } else {
        HolderSound(s, a);
      }
    case _ => HolderSound(s, a);
  }

  /** Over every interleaving the state stays sound. */
  lemma {:induction false} RunSound(actions: seq<Action>)
    requires Run(actions).Some?
    ensures Sound(Run(actions).value)
  {
    hide Step;
    if actions == [] {
      StartSound();
    } else {
      RunSound(actions[..|actions| - 1]);
      StepSound(Run(actions[..|actions| - 1]).value, actions[|actions| - 1]);
    }
  }

  lemma StartSound()
    ensures Sound(START)
  {
  }

  /** Each request leaves the queue at most once, executed or superseded but never both. */
  lemma LeavesOnce(actions: seq<Action>, i: nat, j: nat)
    requires Run(actions).Some? && i < j < |Run(actions).value.left|
    ensures Run(actions).value.left[i].id != Run(actions).value.left[j].id
  {
    hide Run;
    RunSound(actions);
    var s := Run(actions).value;
    assert s.arrived[i] == s.left[i].id && s.arrived[j] == s.left[j].id;
  }

  /** Requests leave in the order they came, and the loop finishes those it takes one at a time in that order. */
  lemma QueueOrder(actions: seq<Action>)
    requires Run(actions).Some?
    ensures var s := Run(actions).value;
      && Ids(s.left) <= s.arrived
      && s.finished <= ExecutedIds(s.left)
      && |ExecutedIds(s.left)| <= |s.finished| + 1
  {
    RunSound(actions);
  }

  /** A request is answered at most once, only if it asked for it: an executed one with its result, a superseded one
      with that error, any other not at all. What its caller has received or will receive is that answer. */
  lemma AnsweredOnce(actions: seq<Action>, id: nat)
    requires Run(actions).Some? && id < |Run(actions).value.requests|
    ensures var r := Run(actions).value.requests[id];
      && r.answers == (if r.wantsReply && r.place == Executed then [Result]
                       else if r.wantsReply && r.place == Superseded then [SupersededError] else [])
      && r.got + (if r.reply.Some? then [r.reply.value] else []) == r.answers
  {
    hide Run;
    RunSound(actions);
    assert Consistent(Run(actions).value, id);
  }

  /** Whoever answers never blocks: the stale request's and the running request's channels have room. */
  lemma AnsweringNeverBlocks(actions: seq<Action>)
    requires Run(actions).Some?
    ensures var s := Run(actions).value;
      && (s.slot.Some? ==> HasRoom(s, s.slot.value))
      && (s.running.Some? ==> HasRoom(s, s.running.value) && Step(s, Finish).Some?)
      && (s.holder.Draining? ==> Step(s, Drain).Some?)
  {
    hide Run;
    hide Sound;
    RunSound(actions);
    var s := Run(actions).value;
    if s.slot.Some? {
      SlotHasRoom(s);
    }
    if s.running.Some? {
      FinishSound(s);
    }
  }

  lemma SlotHasRoom(s: Session)
    requires Sound(s) && s.slot.Some?
    ensures HasRoom(s, s.slot.value)
  {
    hide Distinct;
    hide Ids;
    hide ExecutedIds;
    var id := s.slot.value;
    assert Consistent(s, id);
    assert |s.requests[id].got| + |Pending(s.requests[id].reply)| == |s.requests[id].answers|;
  }

  // ----- What a caller can count on -----

  /** An EnqueueControl call that gets the lock gets its request into the queue without waiting for the loop. Whatever
      was there is superseded, and told so if it asked. */
  lemma EnqueueGetsIn(actions: seq<Action>, id: nat)
    requires Run(actions).Some?
    requires var s := Run(actions).value;
      s.holder == Free && id < |s.requests| && !s.requests[id].wantsReply && s.requests[id].place == Waiting
    ensures var s := Run(actions).value; var r := Run(actions + [Lock(id)] + [Drain] + [Put]);
      && r.Some? && r.value.slot == Some(id) && r.value.holder == Free && |r.value.requests| == |s.requests|
      && r.value.requests[id].place == Queued
      && (s.slot.Some? ==> s.slot.value < |s.requests| && r.value.requests[s.slot.value].place == Superseded)
      && (s.slot.Some? && s.requests[s.slot.value].wantsReply ==>
            r.value.requests[s.slot.value].answers == [SupersededError])
  {
    hide Run;
    RunSound(actions);
    var s := Run(actions).value;
    assert Consistent(s, id);
    if s.slot.Some? {
      assert Consistent(s, s.slot.value);
    }
    RunMore(actions, Lock(id));
    RunMore(actions + [Lock(id)], Drain);
    RunMore(actions + [Lock(id)] + [Drain], Put);
  }

  lemma RunMore(actions: seq<Action>, a: Action)
    ensures Run(actions + [a]) == match Run(actions) case None => None case Some(s) => Step(s, a)
  {
    assert (actions + [a])[..|actions|] == actions;
  }

  /** A request that finds the queue empty enters it at once. */
  lemma SendGetsIn(actions: seq<Action>, id: nat)
    requires Run(actions).Some?
    requires var s := Run(actions).value;
      s.slot == None && id < |s.requests| && s.requests[id].wantsReply && s.requests[id].place == Waiting
    ensures var r := Run(actions + [Send(id)]);
      r.Some? && r.value.slot == Some(id) && |r.value.requests| > id && r.value.requests[id].place == Queued
  {
    hide Run;
    RunMore(actions, Send(id));
  }

  /** An idle loop takes the queued request, executes it and answers with its result. */
  lemma QueuedIsExecuted(actions: seq<Action>)
    requires Run(actions).Some?
    requires Run(actions).value.slot.Some? && Run(actions).value.running == None
    ensures var s := Run(actions).value; var id := s.slot.value;
      var r := Run(actions + [Take] + [Finish]);
      && id < |s.requests| && r.Some? && r.value.slot == None && r.value.running == None
      && |r.value.requests| == |s.requests| && r.value.requests[id].place == Executed
      && r.value.finished == s.finished + [id]
      && r.value.requests[id].answers == if s.requests[id].wantsReply then [Result] else []
  {
    hide Run;
    RunSound(actions);
    var s := Run(actions).value;
    assert Consistent(s, s.slot.value);
    RunMore(actions, Take);
    RunMore(actions + [Take], Finish);
  }

  /** A caller whose answer is there receives it. */
  lemma AnswerIsRead(actions: seq<Action>, id: nat)
    requires Run(actions).Some? && id < |Run(actions).value.requests| && Run(actions).value.requests[id].reply.Some?
    ensures var s := Run(actions).value; var r := Run(actions + [Read(id)]);
      r.Some? && |r.value.requests| > id && r.value.requests[id].reply == None
      && r.value.requests[id].got == s.requests[id].got + [s.requests[id].reply.value]
  {
    hide Run;
    RunMore(actions, Read(id));
  }

  /** A request is abandoned only because the session has ended. */
  lemma {:induction false} AbandonedAtEnd(actions: seq<Action>)
    requires Run(actions).Some?
    ensures var s := Run(actions).value;
      s.cancelled || forall id :: 0 <= id < |s.requests| ==> s.requests[id].place != Abandoned
  {
    hide Step;
    if actions != [] {
      AbandonedAtEnd(actions[..|actions| - 1]);
      AbandonedStep(Run(actions[..|actions| - 1]).value, actions[|actions| - 1]);
    }
  }

  lemma AbandonedStep(s: Session, a: Action)
    requires Step(s, a).Some?
    requires s.cancelled || forall id :: 0 <= id < |s.requests| ==> s.requests[id].place != Abandoned
    ensures var t := Step(s, a).value;
      t.cancelled || forall id :: 0 <= id < |t.requests| ==> t.requests[id].place != Abandoned
  {
  }

  /** Once the session has ended, whoever is still waiting to send can give up. */
  lemma WaitingCanGiveUp(actions: seq<Action>, id: nat)
    requires Run(actions).Some? && Run(actions).value.cancelled && id < |Run(actions).value.requests|
    requires var s := Run(actions).value;
      s.requests[id].place == Waiting && (s.requests[id].wantsReply || s.holder == Sending(id))
    ensures var a := if Run(actions).value.requests[id].wantsReply then SendGivesUp(id) else PutGivesUp;
      var r := Run(actions + [a]);
      r.Some? && id < |r.value.requests| && r.value.requests[id].place == Abandoned
  {
    hide Run;
    RunMore(actions, if Run(actions).value.requests[id].wantsReply then SendGivesUp(id) else PutGivesUp);
  }
}
