/** The client's receive loop, its retries, and pushed answers, on top of the reassembler. */
module XmlClient {
  import opened Wrappers
  import opened XmlReassembly

  /** What `Receive` and the parser make of the next datagram; when the inbox is exhausted the wait times out. */
  datatype Message =
    | Part(fragment: Fragment)  // answers the command and parses
    | Garbled                   // answers the command but does not parse
    | Unrelated                 // blank or about another command

  datatype Outcome = Answer(doc: string) | Lost(missing: seq<int>) | Malformed | TimedOut {
    predicate Failed() { !Answer? }
  }

  /** One attempt in XML mode, from an assembly on. */
  ghost function Receive(a: Assembly, inbox: seq<Message>): Outcome
    decreases |inbox|
  {
    if inbox == [] then TimedOut
    else
      match inbox[0]
      case Unrelated => Receive(a, inbox[1..])
      case Garbled => Malformed
      case Part(f) =>
        var b := Added(a, f);
        if IsComplete(b) then Answer(Document(b))
        else if f.eot && Missing(b) != [] then Lost(Missing(b))
        else Receive(b, inbox[1..])
  }

  method RunOnce(inbox: seq<Message>) returns (r: Outcome)
    ensures r == Receive(EMPTY, inbox)
  {
    var assembler := new Reassembler();
    var i := 0;
    while i < |inbox|
      invariant 0 <= i <= |inbox| && fresh(assembler)
      invariant Receive(EMPTY, inbox) == Receive(assembler.State(), inbox[i..])
    {
      assert inbox[i..][1..] == inbox[i + 1..];
      match inbox[i] {
        case Unrelated =>
        case Garbled => return Malformed;
        case Part(fragment) =>
          assembler.Add(fragment);
          var done := assembler.Complete();
          if done {
            var doc := assembler.Bytes();
            return Answer(doc.value);
          }
          if fragment.eot {
            var missing := assembler.MissingSequences();
            if |missing| > 0 {
              return Lost(missing);
            }
          }
      }
      i := i + 1;
    }
    r := TimedOut;
  }

  function Parts(inbox: seq<Message>): seq<Fragment> {
    if inbox == [] then []
    else Parts(inbox[..|inbox| - 1]) + if inbox[|inbox| - 1].Part? then [inbox[|inbox| - 1].fragment] else []
  }

  lemma PartsNext(inbox: seq<Message>, n: nat)
    requires n < |inbox|
    ensures Parts(inbox[..n + 1]) == Parts(inbox[..n]) + if inbox[n].Part? then [inbox[n].fragment] else []
    ensures Feed(Parts(inbox[..n + 1])) ==
      if inbox[n].Part? then Added(Feed(Parts(inbox[..n])), inbox[n].fragment) else Feed(Parts(inbox[..n]))
  {
    assert inbox[..n + 1][..n] == inbox[..n];
    var p := Parts(inbox[..n]);
    if inbox[n].Part? {
      assert (p + [inbox[n].fragment])[..|p|] == p;
    } else {
      assert p + [] == p;
    }
  }

  /** An answer is the document of a complete assembly of fragments received in this attempt: never one with a gap. */
  lemma {:induction false} AnswersHaveNoGap(inbox: seq<Message>, n: nat)
    requires n <= |inbox| && Receive(Feed(Parts(inbox[..n])), inbox[n..]).Answer?
    ensures exists m :: (n < m <= |inbox| && IsComplete(Feed(Parts(inbox[..m])))
      && Receive(Feed(Parts(inbox[..n])), inbox[n..]).doc == Document(Feed(Parts(inbox[..m]))))
    decreases |inbox| - n
  {
    if n < |inbox| {
      PartsNext(inbox, n);
      assert inbox[n..][1..] == inbox[n + 1..];
      var b := Feed(Parts(inbox[..n + 1]));
      if inbox[n].Part? && IsComplete(b) {
        assert IsComplete(Feed(Parts(inbox[..n + 1])));
      } else {
        AnswersHaveNoGap(inbox, n + 1);
      }
    }
  }

  /** While no end has come and nothing is garbled, the loop only collects. */
  lemma {:induction false} KeepsCollecting(inbox: seq<Message>, n: nat)
    requires n <= |inbox|
    requires forall i :: 0 <= i < n ==> !inbox[i].Garbled? && (inbox[i].Part? ==> !inbox[i].fragment.eot)
    ensures Receive(EMPTY, inbox) == Receive(Feed(Parts(inbox[..n])), inbox[n..]) && !Feed(Parts(inbox[..n])).hasEOT
  {
    if n == 0 {
      assert inbox[..0] == [] && inbox[0..] == inbox;
    } else {
      KeepsCollecting(inbox, n - 1);
      PartsNext(inbox, n - 1);
      assert inbox[n - 1..][1..] == inbox[n..];
    }
  }

  /** The first fragment marked as the end decides the attempt: if everything has come by then the answer is the
      document as sent, otherwise the attempt fails naming exactly the gaps. */
  lemma EndDecides(d: Sent, inbox: seq<Message>, n: nat)
    requires d.rootOpen != "" && |d.bodies| > 0 && n < |inbox|
    requires inbox[n].Part? && inbox[n].fragment.eot
    requires forall i :: 0 <= i < n ==> !inbox[i].Garbled? && (inbox[i].Part? ==> !inbox[i].fragment.eot)
    requires forall i :: 0 <= i <= n && inbox[i].Part? ==> Genuine(d, inbox[i].fragment)
    ensures var got := Parts(inbox[..n + 1]);
      if forall k :: 1 <= k <= |d.bodies| ==> Arrived(got, k)
      then Receive(EMPTY, inbox) == Answer(PROLOG + d.rootOpen + Whole(d, |d.bodies|) + "</" + d.rootName + ">")
      else Receive(EMPTY, inbox).Lost?
           && forall k :: k in Receive(EMPTY, inbox).missing <==> 1 <= k <= |d.bodies| && !Arrived(got, k)
  {
    hide Document;
    KeepsCollecting(inbox, n);
    PartsNext(inbox, n);
    GenuineParts(d, inbox, n + 1);
    var got := Parts(inbox[..n + 1]);
    AnyOrder(d, got);
    FeedHolds(d, got);
    var b := Feed(got);
    assert b.hasEOT && b.lastSeq == |d.bodies|;
    MissingAreGaps(b, b.lastSeq);
    CompleteMeansNoGap(b);
  }

  /** A datagram that answers the command and does not parse fails the attempt at once, whatever came before it short of
      an end. */
  lemma GarbledFails(inbox: seq<Message>, n: nat)
    requires n < |inbox| && inbox[n].Garbled?
    requires forall i :: 0 <= i < n ==> !inbox[i].Garbled? && (inbox[i].Part? ==> !inbox[i].fragment.eot)
    ensures Receive(EMPTY, inbox) == Malformed
  {
    KeepsCollecting(inbox, n);
  }

  /** Without an end and with nothing garbled the attempt waits until it times out. */
  lemma NoEndTimesOut(inbox: seq<Message>)
    requires forall i :: 0 <= i < |inbox| ==> !inbox[i].Garbled? && (inbox[i].Part? ==> !inbox[i].fragment.eot)
    ensures Receive(EMPTY, inbox) == TimedOut
  {
    KeepsCollecting(inbox, |inbox|);
    assert inbox[|inbox|..] == [];
  }

  function Related(inbox: seq<Message>): seq<Message> {
    if inbox == [] then []
    else if inbox[0].Unrelated? then Related(inbox[1..]) else [inbox[0]] + Related(inbox[1..])
  }

  /** Datagrams about other commands change nothing. */
  lemma {:induction false} UnrelatedIgnored(a: Assembly, inbox: seq<Message>)
    ensures Receive(a, inbox) == Receive(a, Related(inbox))
    decreases |inbox|
  {
    hide Document;
    hide IsComplete;
    hide Missing;
    hide Added;
    if inbox != [] {
      if inbox[0].Unrelated? {
        UnrelatedIgnored(a, inbox[1..]);
      } else {
        var r := Related(inbox[1..]);
        assert ([inbox[0]] + r)[1..] == r;
        if inbox[0].Part? {
          UnrelatedIgnored(Added(a, inbox[0].fragment), inbox[1..]);
        }
      }
    }
  }

  lemma {:induction false} GenuineParts(d: Sent, inbox: seq<Message>, n: nat)
    requires n <= |inbox| && forall i :: 0 <= i < n && inbox[i].Part? ==> Genuine(d, inbox[i].fragment)
    ensures forall i :: 0 <= i < |Parts(inbox[..n])| ==> Genuine(d, Parts(inbox[..n])[i])
  {
    if n > 0 {
      GenuineParts(d, inbox, n - 1);
      PartsNext(inbox, n - 1);
    } else {
      assert inbox[..0] == [];
    }
  }

  // ----- Retries -----

  /** Attempts one after the other, each with its own inbox and a new assembler; the first answer wins. */
  ghost function Retry(inboxes: seq<seq<Message>>): Outcome
    requires inboxes != []
  {
    var r := Receive(EMPTY, inboxes[0]);
    if !r.Failed() || |inboxes| == 1 then r else Retry(inboxes[1..])
  }

  method RunWithRetry(inboxes: seq<seq<Message>>) returns (r: Outcome)
    requires inboxes != []
    ensures r == Retry(inboxes)
  {
    var attempt := 0;
    r := TimedOut;
    while attempt < |inboxes|
      invariant 0 <= attempt <= |inboxes|
      invariant attempt < |inboxes| ==> Retry(inboxes) == Retry(inboxes[attempt..])
      invariant attempt == |inboxes| ==> r == Retry(inboxes)
    {
      r := RunOnce(inboxes[attempt]);
      if !r.Failed() {
        return;
      }
      assert inboxes[attempt..][1..] == inboxes[attempt + 1..];
      attempt := attempt + 1;
    }
  }

  /** An answer comes from the first attempt that succeeds, alone; a failure is the last attempt's, and then
      every attempt failed. */
  lemma {:induction false} RetryMeans(inboxes: seq<seq<Message>>)
    requires inboxes != []
    ensures !Retry(inboxes).Failed() ==> exists i ::
      (0 <= i < |inboxes| && Retry(inboxes) == Receive(EMPTY, inboxes[i]) && AllFail(inboxes[..i]))
    ensures Retry(inboxes).Failed() ==> (Retry(inboxes) == Receive(EMPTY, inboxes[|inboxes| - 1]) && AllFail(inboxes))
  {
    var r := Receive(EMPTY, inboxes[0]);
    if !r.Failed() {
      assert AllFail(inboxes[..0]);
    } else if |inboxes| > 1 {
      RetryMeans(inboxes[1..]);
      assert inboxes == [inboxes[0]] + inboxes[1..];
      if !Retry(inboxes).Failed() {
        var i :| 0 <= i < |inboxes| - 1
          && Retry(inboxes[1..]) == Receive(EMPTY, inboxes[1..][i]) && AllFail(inboxes[1..][..i]);
        FailToo(inboxes[0], inboxes[1..][..i]);
        assert [inboxes[0]] + inboxes[1..][..i] == inboxes[..i + 1];
        assert Retry(inboxes) == Receive(EMPTY, inboxes[i + 1]);
      } else {
        FailToo(inboxes[0], inboxes[1..]);
      }
    }
  }

  ghost predicate AllFail(inboxes: seq<seq<Message>>) {
    forall j :: 0 <= j < |inboxes| ==> Receive(EMPTY, inboxes[j]).Failed()
  }

  lemma FailToo(first: seq<Message>, rest: seq<seq<Message>>)
    requires Receive(EMPTY, first).Failed() && AllFail(rest)
    ensures AllFail([first] + rest)
  {
  }

  // ----- Pushed answers -----

  /** A fragment of a pushed answer to a command. */
  datatype Arrival = Arrival(cmd: string, fragment: Fragment)

  ghost function StoredFor(store: map<string, Assembly>, cmd: string): Assembly {
    if cmd in store then store[cmd] else EMPTY
  }

  /** A document is dispatched only from a complete assembly; an end never leaves an assembler behind; other commands
      are not touched. */
  ghost function Pushed(store: map<string, Assembly>, p: Arrival): (map<string, Assembly>, Option<string>) {
    var a := Added(StoredFor(store, p.cmd), p.fragment);
    (if IsComplete(a) || p.fragment.eot then store - {p.cmd} else store[p.cmd := a],
     if IsComplete(a) then Some(Document(a)) else None)
  }

  /** The assemblies of pushed answers, one per command, as `handleUnsolicited` keeps them. */
  class PushStore {
    var pushXML: map<string, Assembly>

    constructor ()
      ensures pushXML == map[]
    {
      pushXML := map[];
    }

    method Handle(cmd: string, fragment: Fragment) returns (doc: Option<string>)
      modifies this
      ensures (pushXML, doc) == Pushed(old(pushXML), Arrival(cmd, fragment))
    {
      hide IsComplete;
      hide Document;
      hide Added;
      var asm := new Reassembler.From(if cmd in pushXML then pushXML[cmd] else EMPTY);
      asm.Add(fragment);
      pushXML := pushXML[cmd := Assembly(asm.rootOpen, asm.rootName, asm.parts, asm.lastSeq, asm.hasEOT)];
      doc := None;
      var done := asm.Complete();
      assert old(pushXML)[cmd := asm.State()] - {cmd} == old(pushXML) - {cmd};
      if done {
        doc := asm.Bytes();
        pushXML := pushXML - {cmd};
      } else if fragment.eot {
        pushXML := pushXML - {cmd};
      }
    }
  }

  ghost function StoreAfter(ps: seq<Arrival>): map<string, Assembly> {
    if ps == [] then map[] else Pushed(StoreAfter(ps[..|ps| - 1]), ps[|ps| - 1]).0
  }

  /** The fragments of a command since its last end. */
  function Cycle(ps: seq<Arrival>, cmd: string): seq<Fragment> {
    if ps == [] then []
    else
      var p, before := ps[|ps| - 1], Cycle(ps[..|ps| - 1], cmd);
      if p.cmd != cmd then before else if p.fragment.eot then [] else before + [p.fragment]
  }

  lemma FeedNext(fs: seq<Fragment>, f: Fragment)
    ensures Feed(fs + [f]) == Added(Feed(fs), f)
  {
    assert (fs + [f])[..|fs|] == fs;
  }

  /** After any arrivals the store holds, for each command, exactly the fragments since its last end. */
  lemma {:induction false} StoreHoldsCycle(ps: seq<Arrival>, cmd: string)
    ensures StoredFor(StoreAfter(ps), cmd) == Feed(Cycle(ps, cmd)) && !Feed(Cycle(ps, cmd)).hasEOT
    ensures cmd in StoreAfter(ps) <==> Cycle(ps, cmd) != []
  {
    hide Document;
    hide Feed;
    if ps == [] {
      NothingFed();
    } else {
      var n := |ps| - 1;
      StoreHoldsCycle(ps[..n], cmd);
      NothingFed();
      FeedNext(Cycle(ps[..n], cmd), ps[n].fragment);
    }
  }

  lemma NothingFed()
    ensures Feed([]) == EMPTY
  {
  }

  /** However the fragments of several commands interleave: a pushed document is dispatched, as sent, exactly at the
      arrival that completes it within one cycle of its command. */
  lemma PushedDocument(d: Sent, ps: seq<Arrival>, p: Arrival)
    requires d.rootOpen != "" && |d.bodies| > 0
    requires forall i :: 0 <= i < |Cycle(ps, p.cmd)| ==> Genuine(d, Cycle(ps, p.cmd)[i])
    requires Genuine(d, p.fragment)
    ensures var got := Cycle(ps, p.cmd) + [p.fragment];
      Pushed(StoreAfter(ps), p).1 ==
        if forall k :: 1 <= k <= |d.bodies| ==> Arrived(got, k)
        then Some(PROLOG + d.rootOpen + Whole(d, |d.bodies|) + "</" + d.rootName + ">") else None
  {
    hide Document;
    hide Feed;
    hide Cycle;
    hide Genuine;
    hide Whole;
    hide StoreAfter;
    hide IsComplete;
    var got := Cycle(ps, p.cmd) + [p.fragment];
    StoreHoldsCycle(ps, p.cmd);
    FeedNext(Cycle(ps, p.cmd), p.fragment);
    AnyOrder(d, got);
  }
}
