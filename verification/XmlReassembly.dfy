/** Reassembly of XML answers from UDP fragments (internal/sds200/protocol.go, client.go), from parsed fragments on. */
module XmlReassembly {
  import opened Wrappers
  import opened IndexList
  import Least

  datatype Fragment = Fragment(rootOpen: string, rootName: string, body: string, number: int, eot: bool)

  datatype Assembly = Assembly(rootOpen: string, rootName: string, parts: map<int, string>, lastSeq: int, hasEOT: bool)

  const EMPTY := Assembly("", "", map[], 0, false)
  const PROLOG := "<?xml version=\"1.0\" encoding=\"utf-8\"?>"

  // ----- What the assembler does -----

  function Added(a: Assembly, f: Fragment): Assembly {
    Assembly(if a.rootOpen == "" then f.rootOpen else a.rootOpen, if a.rootOpen == "" then f.rootName else a.rootName,
             a.parts[f.number := f.body], if f.eot then f.number else a.lastSeq, a.hasEOT || f.eot)
  }

  predicate IsComplete(a: Assembly) {
    a.hasEOT && a.lastSeq > 0 && forall i :: 1 <= i <= a.lastSeq ==> i in a.parts
  }

  /** The missing numbers among 1..n in order. */
  function MissingUpTo(a: Assembly, n: nat): seq<int> {
    if n == 0 then [] else MissingUpTo(a, n - 1) + if n in a.parts then [] else [n]
  }

  function Missing(a: Assembly): seq<int> {
    if !a.hasEOT || a.lastSeq <= 0 then [] else MissingUpTo(a, a.lastSeq)
  }

  function Bodies(parts: map<int, string>, keys: seq<int>): string
    requires forall i :: 0 <= i < |keys| ==> keys[i] in parts
  {
    if keys == [] then "" else Bodies(parts, keys[..|keys| - 1]) + parts[keys[|keys| - 1]]
  }

  function Framed(a: Assembly, content: string): string {
    PROLOG + (if a.rootOpen == "" then "<root>" else a.rootOpen) + content
    + "</" + (if a.rootOpen == "" then "root" else a.rootName) + ">"
  }

  /** Every stored body in order of its number, between the root tags. */
  ghost function Document(a: Assembly): string {
    SortedKeys(a.parts.Keys);
    Framed(a, Bodies(a.parts, Sorted(a.parts.Keys)))
  }

  lemma SortedKeys(s: set<int>)
    ensures forall i :: 0 <= i < |Sorted(s)| ==> Sorted(s)[i] in s
  {
    forall i | 0 <= i < |Sorted(s)| ensures Sorted(s)[i] in s {
      assert Sorted(s)[i] in Elements(Sorted(s));
    }
  }

  class Reassembler {
    var rootOpen: string
    var rootName: string
    var parts: map<int, string>
    var lastSeq: int
    var hasEOT: bool

    ghost function State(): Assembly
      reads this
    {
      Assembly(rootOpen, rootName, parts, lastSeq, hasEOT)
    }

    constructor ()
      ensures State() == EMPTY
    {
      rootOpen, rootName, parts, lastSeq, hasEOT := "", "", map[], 0, false;
    }

    /** The assembler with this content. */
    constructor From(a: Assembly)
      ensures State() == a
    {
      rootOpen, rootName, parts, lastSeq, hasEOT := a.rootOpen, a.rootName, a.parts, a.lastSeq, a.hasEOT;
    }

    method Add(f: Fragment)
      modifies this
      ensures State() == Added(old(State()), f)
    {
      if rootOpen == "" {
        rootOpen := f.rootOpen;
        rootName := f.rootName;
      }
      parts := parts[f.number := f.body];
      if f.eot {
        hasEOT := true;
        lastSeq := f.number;
      }
    }

    method Complete() returns (done: bool)
      ensures done == IsComplete(State())
    {
      if !hasEOT || lastSeq <= 0 {
        return false;
      }
      var i := 1;
      while i <= lastSeq
        invariant 1 <= i <= lastSeq + 1 && forall j :: 1 <= j < i ==> j in parts
      {
        if i !in parts {
          return false;
        }
        i := i + 1;
      }
      done := true;
    }

    method MissingSequences() returns (missing: seq<int>)
      ensures missing == Missing(State())
    {
      missing := [];
      if !hasEOT || lastSeq <= 0 {
        return;
      }
      var i := 1;
      while i <= lastSeq
        invariant 1 <= i <= lastSeq + 1 && missing == MissingUpTo(State(), i - 1)
      {
        if i !in parts {
          missing := missing + [i];
        }
        i := i + 1;
      }
    }

    method Bytes() returns (doc: Option<string>)
      modifies this`rootOpen, this`rootName
      ensures doc == if IsComplete(old(State())) then Some(Document(old(State()))) else None
      ensures (rootOpen, rootName) ==
        if IsComplete(old(State())) && old(rootOpen) == "" then ("<root>", "root") else old((rootOpen, rootName))
    {
      hide Sorted;
      var done := Complete();
      if !done {
        return None;
      }
      var keys := SortedNumbers(parts.Keys);
      SortedKeys(parts.Keys);
      if rootOpen == "" {
        rootOpen := "<root>";
        rootName := "root";
      }
      var b := "";
      var n := 0;
      while n < |keys|
        invariant 0 <= n <= |keys| && b == Bodies(parts, keys[..n])
      {
        assert keys[..n + 1][..n] == keys[..n];
        b := b + parts[keys[n]];
        n := n + 1;
      }
      assert keys[..n] == keys;
      doc := Some(PROLOG + rootOpen + b + "</" + rootName + ">");
    }
  }

  /** The keys of the map, in whatever order, sorted. */
  method SortedNumbers(s: set<int>) returns (keys: seq<int>)
    ensures keys == Sorted(s)
  {
    hide Elements;
    hide Distinct;
    hide Sorted;
    hide SortInts;
    keys := [];
    NoElements();
    var left := s;
    while left != {}
      invariant left <= s && Elements(keys) == s - left && Distinct(keys)
      decreases left
    {
      Least.EmptyOrInhabited(left);
      var k :| k in left;
      OneMoreElement(keys, k);
      keys := keys + [k];
      left := left - {k};
    }
    assert s - {} == s;
    SortedDistinct(keys);
    keys := SortInts(keys);
  }

  lemma OneMoreElement(xs: seq<int>, x: int)
    ensures Elements(xs + [x]) == Elements(xs) + {x}
    ensures Distinct(xs) && x !in Elements(xs) ==> Distinct(xs + [x])
  {
    ElementsConcat(xs, [x]);
    assert forall i :: 0 <= i < |xs| ==> xs[i] in Elements(xs);
  }

  // ----- Any arrival order, any repeats -----

  /** A document as it was sent: bodies 1..n under one root, the last one marked as the end. */
  datatype Sent = Sent(rootOpen: string, rootName: string, bodies: seq<string>)

  ghost predicate Genuine(d: Sent, f: Fragment) {
    && f.rootOpen == d.rootOpen && f.rootName == d.rootName
    && 1 <= f.number <= |d.bodies| && f.body == d.bodies[f.number - 1] && (f.eot <==> f.number == |d.bodies|)
  }

  function Feed(fs: seq<Fragment>): Assembly {
    if fs == [] then EMPTY else Added(Feed(fs[..|fs| - 1]), fs[|fs| - 1])
  }

  ghost predicate Arrived(fs: seq<Fragment>, number: int) { exists i :: 0 <= i < |fs| && fs[i].number == number }

  function Whole(d: Sent, n: nat): string
    requires n <= |d.bodies|
  {
    if n == 0 then "" else Whole(d, n - 1) + d.bodies[n - 1]
  }

  lemma {:induction false} FeedHolds(d: Sent, fs: seq<Fragment>)
    requires d.rootOpen != "" && |d.bodies| > 0 && forall i :: 0 <= i < |fs| ==> Genuine(d, fs[i])
    ensures var a := Feed(fs);
      && (forall k :: k in a.parts <==> Arrived(fs, k))
      && (forall k :: k in a.parts ==> 1 <= k <= |d.bodies| && a.parts[k] == d.bodies[k - 1])
      && (a.hasEOT <==> Arrived(fs, |d.bodies|)) && (a.hasEOT ==> a.lastSeq == |d.bodies|)
      && (fs != [] ==> a.rootOpen == d.rootOpen && a.rootName == d.rootName)
  {
    if fs != [] {
      var n := |fs| - 1;
      FeedHolds(d, fs[..n]);
      forall k ensures Arrived(fs, k) <==> Arrived(fs[..n], k) || fs[n].number == k {
        if Arrived(fs[..n], k) {
          var i :| 0 <= i < n && fs[..n][i].number == k;
          assert fs[i].number == k;
        }
        if Arrived(fs, k) {
          var i :| 0 <= i < |fs| && fs[i].number == k;
          assert i < n ==> fs[..n][i].number == k;
        }
      }
    }
  }

  /** The numbers 1..n. */
  function UpTo(n: nat): seq<int> { seq(n, i => i + 1) }

  lemma SortedIsUpTo(s: set<int>, n: nat)
    requires forall k :: k in s <==> 1 <= k <= n
    ensures Sorted(s) == UpTo(n)
  {
    forall k | 1 <= k <= n ensures k in UpTo(n) {
      assert UpTo(n)[k - 1] == k;
    }
    AscendingUnique(Sorted(s), UpTo(n));
  }

  lemma {:induction false} BodiesUpTo(d: Sent, parts: map<int, string>, n: nat)
    requires n <= |d.bodies| && forall k :: 1 <= k <= n ==> k in parts && parts[k] == d.bodies[k - 1]
    ensures Bodies(parts, UpTo(n)) == Whole(d, n)
  {
    if n > 0 {
      BodiesUpTo(d, parts, n - 1);
      assert UpTo(n)[..n - 1] == UpTo(n - 1);
    }
  }

  /** Whatever the order and however often fragments repeat, the assembly is complete exactly when all of them
      have come. */
  lemma CompleteWhenAllArrived(d: Sent, fs: seq<Fragment>)
    requires d.rootOpen != "" && |d.bodies| > 0 && forall i :: 0 <= i < |fs| ==> Genuine(d, fs[i])
    ensures IsComplete(Feed(fs)) <==> forall k :: 1 <= k <= |d.bodies| ==> Arrived(fs, k)
  {
    hide Arrived;
    hide Genuine;
    FeedHolds(d, fs);
    if forall k :: 1 <= k <= |d.bodies| ==> Arrived(fs, k) {
      assert Arrived(fs, |d.bodies|);
    }
  }

  /** A complete assembly has the bodies in order, whatever the order in which they came. */
  lemma InOrderWhenComplete(d: Sent, fs: seq<Fragment>)
    requires d.rootOpen != "" && |d.bodies| > 0 && forall i :: 0 <= i < |fs| ==> Genuine(d, fs[i])
    ensures IsComplete(Feed(fs)) ==> Document(Feed(fs)) == Framed(Feed(fs), Whole(d, |d.bodies|))
  {
    hide Framed;
    hide Arrived;
    hide Genuine;
    hide Sorted;
    hide Bodies;
    hide Whole;
    hide UpTo;
    FeedHolds(d, fs);
    if IsComplete(Feed(fs)) {
      SortedIsUpTo(Feed(fs).parts.Keys, |d.bodies|);
      BodiesUpTo(d, Feed(fs).parts, |d.bodies|);
    }
  }

  /** Any order and any repeats give the document as sent, and nothing is given before all of it has come. */
  lemma AnyOrder(d: Sent, fs: seq<Fragment>)
    requires d.rootOpen != "" && |d.bodies| > 0 && forall i :: 0 <= i < |fs| ==> Genuine(d, fs[i])
    ensures var a := Feed(fs);
      && (IsComplete(a) <==> forall k :: 1 <= k <= |d.bodies| ==> Arrived(fs, k))
      && (IsComplete(a) ==>
            Document(a) == "<?xml version=\"1.0\" encoding=\"utf-8\"?>" + d.rootOpen + Whole(d, |d.bodies|)
                           + "</" + d.rootName + ">")
  {
    hide Arrived;
    hide Genuine;
    hide Document;
    hide Whole;
    CompleteWhenAllArrived(d, fs);
    InOrderWhenComplete(d, fs);
    FeedHolds(d, fs);
  }

  /** The missing numbers are exactly the gaps, in order, and there are none exactly when all have come. */
  lemma {:induction false} MissingAreGaps(a: Assembly, n: nat)
    ensures Ascending(MissingUpTo(a, n)) && forall k :: k in MissingUpTo(a, n) <==> 1 <= k <= n && k !in a.parts
  {
    if n > 0 {
      MissingAreGaps(a, n - 1);
      var r := MissingUpTo(a, n - 1);
      forall i | 0 <= i < |r| ensures r[i] < n {
        assert r[i] in r;
      }
    }
  }

  /** Before an end is seen nothing counts as missing; after it, what lies below it and has not come. */
  lemma MissingMeans(a: Assembly, k: int)
    ensures k in Missing(a) <==> a.hasEOT && 1 <= k <= a.lastSeq && k !in a.parts
  {
    if a.lastSeq > 0 {
      MissingAreGaps(a, a.lastSeq);
    }
  }

  lemma CompleteMeansNoGap(a: Assembly)
    requires a.hasEOT && a.lastSeq > 0
    ensures IsComplete(a) <==> Missing(a) == []
  {
    MissingAreGaps(a, a.lastSeq);
    if Missing(a) != [] {
      assert Missing(a)[0] in Missing(a);
    }
    if !IsComplete(a) {
      var i :| 1 <= i <= a.lastSeq && i !in a.parts;
      assert i in Missing(a);
    }
  }

  /** A complete assembly that also holds numbers outside 1..lastSeq prints those bodies too: its document is the
      one in order exactly when all such bodies are empty. */
  lemma StrayBodies(a: Assembly)
    requires IsComplete(a)
    ensures Document(a) == Framed(a, Bodies(a.parts, UpTo(a.lastSeq)))
      <==> forall k :: k in a.parts && !(1 <= k <= a.lastSeq) ==> a.parts[k] == ""
  {
    hide Sorted;
    hide Framed;
    hide Bodies;
    hide UpTo;
    var keys, n := a.parts.Keys, a.lastSeq;
    var low, high := Below(keys), Above(keys, n);
    var l, m, h := Sorted(low), UpTo(n), Sorted(high);
    SortedKeys(keys);
    SortedKeys(low);
    SortedKeys(high);
    ThreeParts(keys, n);
    BodiesConcat(a.parts, l + m, h);
    BodiesConcat(a.parts, l, m);
    var x, y, z := Bodies(a.parts, l), Bodies(a.parts, m), Bodies(a.parts, h);
    NothingAround(x, y, z);
    FramedSame(a, x + y + z, y);
    StrayEmpty(a.parts, low);
    StrayEmpty(a.parts, high);
    assert forall k :: k in low || k in high <==> k in a.parts && !(1 <= k <= n);
  }

  lemma NothingAround(x: string, y: string, z: string)
    ensures x + y + z == y <==> x == "" && z == ""
  {
    if x + y + z == y {
      assert |x| + |z| == 0;
    }
  }

  lemma StrayEmpty(parts: map<int, string>, s: set<int>)
    requires s <= parts.Keys
    ensures forall i :: 0 <= i < |Sorted(s)| ==> Sorted(s)[i] in parts
    ensures Bodies(parts, Sorted(s)) == "" <==> forall k :: k in s ==> parts[k] == ""
  {
    SortedKeys(s);
    EmptyBodies(parts, Sorted(s));
    forall k | k in s ensures k in Sorted(s) {
      assert k in Elements(Sorted(s));
    }
  }

  ghost function Below(keys: set<int>): set<int> { set k | k in keys && k < 1 }
  ghost function Above(keys: set<int>, n: nat): set<int> { set k | k in keys && k > n }

  lemma FramedSame(a: Assembly, c: string, d: string)
    ensures Framed(a, c) == Framed(a, d) <==> c == d
  {
    var p := PROLOG + if a.rootOpen == "" then "<root>" else a.rootOpen;
    var q := "</" + (if a.rootOpen == "" then "root" else a.rootName) + ">";
    assert Framed(a, c) == p + c + q && Framed(a, d) == p + d + q;
    if Framed(a, c) == Framed(a, d) {
      assert |c| == |d|;
      assert (p + c + q)[|p|..|p| + |c|] == c && (p + d + q)[|p|..|p| + |d|] == d;
    }
  }

  lemma ThreeParts(keys: set<int>, n: nat)
    requires forall k :: 1 <= k <= n ==> k in keys
    ensures Sorted(keys) == Sorted(Below(keys)) + UpTo(n) + Sorted(Above(keys, n))
  {
    hide Sorted;
    var l, h := Sorted(Below(keys)), Sorted(Above(keys, n));
    SortedKeys(Below(keys));
    SortedKeys(Above(keys, n));
    ElementsConcat(l, UpTo(n));
    ElementsConcat(l + UpTo(n), h);
    ElementsUpTo(n);
    assert Elements(l + UpTo(n) + h) == keys;
    AscendingUnique(Sorted(keys), l + UpTo(n) + h);
  }

  lemma ElementsUpTo(n: nat)
    ensures forall k :: k in Elements(UpTo(n)) <==> 1 <= k <= n
  {
    forall k | 1 <= k <= n ensures k in UpTo(n) {
      assert UpTo(n)[k - 1] == k;
    }
  }

  lemma ElementsConcat(a: seq<int>, b: seq<int>)
    ensures Elements(a + b) == Elements(a) + Elements(b)
  {
    assert forall k :: k in a + b <==> k in a || k in b;
  }

  lemma {:induction false} BodiesConcat(parts: map<int, string>, a: seq<int>, b: seq<int>)
    requires forall i :: 0 <= i < |a| ==> a[i] in parts
    requires forall i :: 0 <= i < |b| ==> b[i] in parts
    ensures (forall i :: 0 <= i < |a + b| ==> (a + b)[i] in parts)
    ensures Bodies(parts, a + b) == Bodies(parts, a) + Bodies(parts, b)
  {
    if b == [] {
      assert a + b == a;
    } else {
      var n := |b| - 1;
      BodiesConcat(parts, a, b[..n]);
      assert (a + b)[..|a| + n] == a + b[..n];
    }
  }

  lemma {:induction false} EmptyBodies(parts: map<int, string>, keys: seq<int>)
    requires forall i :: 0 <= i < |keys| ==> keys[i] in parts
    ensures Bodies(parts, keys) == "" <==> forall i :: 0 <= i < |keys| ==> parts[keys[i]] == ""
  {
    if keys != [] {
      EmptyBodies(parts, keys[..|keys| - 1]);
    }
  }

  // ----- What an assembly holds after any fragments -----

  /** The first root that is not blank stays. */
  lemma {:induction false} FirstRootStays(fs: seq<Fragment>, i: nat)
    requires i < |fs| && fs[i].rootOpen != "" && forall j :: 0 <= j < i ==> fs[j].rootOpen == ""
    ensures Feed(fs).rootOpen == fs[i].rootOpen && Feed(fs).rootName == fs[i].rootName
    decreases |fs|
  {
    var n := |fs| - 1;
    if i < n {
      FirstRootStays(fs[..n], i);
    } else {
      NoRoot(fs[..n]);
    }
  }

  lemma {:induction false} NoRoot(fs: seq<Fragment>)
    requires forall j :: 0 <= j < |fs| ==> fs[j].rootOpen == ""
    ensures Feed(fs).rootOpen == ""
  {
    if fs != [] {
      NoRoot(fs[..|fs| - 1]);
    }
  }

  /** Of the fragments with one number the last one counts. */
  lemma {:induction false} LastBodyCounts(fs: seq<Fragment>, i: nat)
    requires i < |fs| && forall j :: i < j < |fs| ==> fs[j].number != fs[i].number
    ensures fs[i].number in Feed(fs).parts && Feed(fs).parts[fs[i].number] == fs[i].body
    decreases |fs|
  {
    var n := |fs| - 1;
    if i < n {
      LastBodyCounts(fs[..n], i);
    }
  }

  lemma {:induction false} OnlyArrived(fs: seq<Fragment>, k: int)
    requires k in Feed(fs).parts
    ensures Arrived(fs, k)
  {
    if fs != [] {
      var n := |fs| - 1;
      if k in Feed(fs[..n]).parts {
        OnlyArrived(fs[..n], k);
        var i :| 0 <= i < n && fs[..n][i].number == k;
        assert fs[i].number == k;
      } else {
        assert fs[n].number == k;
      }
    }
  }

  /** The last end seen says how many fragments there are. */
  lemma {:induction false} LastEndCounts(fs: seq<Fragment>, i: nat)
    requires i < |fs| && fs[i].eot && forall j :: i < j < |fs| ==> !fs[j].eot
    ensures Feed(fs).hasEOT && Feed(fs).lastSeq == fs[i].number
    decreases |fs|
  {
    var n := |fs| - 1;
    if i < n {
      LastEndCounts(fs[..n], i);
    }
  }

  lemma {:induction false} NoEndSeen(fs: seq<Fragment>)
    requires forall j :: 0 <= j < |fs| ==> !fs[j].eot
    ensures !Feed(fs).hasEOT
  {
    if fs != [] {
      NoEndSeen(fs[..|fs| - 1]);
    }
  }

  /** Without a root the document gets one of its own. */
  lemma DefaultRoot(a: Assembly)
    requires a.rootOpen == "" && forall k :: k in a.parts <==> 1 <= k <= a.lastSeq
    ensures a.lastSeq >= 0 ==>
      Document(a) == PROLOG + "<root>" + Bodies(a.parts, UpTo(a.lastSeq)) + "</" + "root" + ">"
  {
    hide Sorted;
    hide Bodies;
    if a.lastSeq >= 0 {
      SortedIsUpTo(a.parts.Keys, a.lastSeq);
    }
  }
}
