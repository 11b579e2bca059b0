/** Printing index lists, reading back what was printed, and the conversions to scanner state arrays. */
module IndexPrinter {
  import opened Wrappers
  import opened Numerals
  import Text
  import opened IndexList

  /** The last position of the run of consecutive numbers that starts at i. */
  function RunEnd(xs: seq<int>, i: nat): (j: nat)
    requires i < |xs|
    ensures i <= j < |xs| && xs[j] == xs[i] + (j - i)
    ensures forall k :: i <= k <= j ==> xs[k] == xs[i] + (k - i)
    ensures j + 1 < |xs| ==> xs[j + 1] != xs[j] + 1
    decreases |xs| - i
  {
    if i + 1 < |xs| && xs[i + 1] == xs[i] + 1 then RunEnd(xs, i + 1) else i
  }

  /** Three or more consecutive numbers become a range, two are listed, one stands alone. */
  function RunParts(first: int, last: int): seq<string> {
    if last - first >= 2 then [Itoa(first) + "-" + Itoa(last)]
    else if last > first then [Itoa(first), Itoa(last)]
    else [Itoa(first)]
  }

  function Parts(xs: seq<int>, i: nat): seq<string>
    requires i <= |xs|
    decreases |xs| - i
  {
    if i == |xs| then [] else RunParts(xs[i], xs[RunEnd(xs, i)]) + Parts(xs, RunEnd(xs, i) + 1)
  }

  /** What `encodeIndexList` must print. */
  function Print(xs: seq<int>): string { Join(Parts(xs, 0)) }

  method EncodeIndexList(indexes: seq<int>) returns (text: string)
    ensures text == Print(indexes)
  {
    hide Parts;
    hide Itoa;
    NoParts(indexes);
    if |indexes| == 0 {
      return "";
    }
    var parts: seq<string> := [];
    var i := 0;
    while i < |indexes|
      invariant 0 <= i <= |indexes|
      invariant parts + Parts(indexes, i) == Parts(indexes, 0)
    {
      var start := indexes[i];
      var end := start;
      ghost var first := i;
      while i + 1 < |indexes| && indexes[i + 1] == end + 1
        invariant first <= i < |indexes| && end == indexes[i]
        invariant RunEnd(indexes, i) == RunEnd(indexes, first)
      {
        i := i + 1;
        end := indexes[i];
      }
      NextPart(indexes, first, parts);
      if end - start >= 2 {
        parts := parts + [Itoa(start) + "-" + Itoa(end)];
      } else if end > start {
        parts := parts + [Itoa(start), Itoa(end)];
      } else {
        parts := parts + [Itoa(start)];
      }
      i := i + 1;
    }
    assert parts + [] == parts;
    text := Join(parts);
  }

  lemma NoParts(xs: seq<int>)
    ensures Parts(xs, |xs|) == []
  {
  }

  lemma PartsUnfold(xs: seq<int>, i: nat)
    requires i <= |xs|
    ensures Parts(xs, i) ==
      if i == |xs| then [] else RunParts(xs[i], xs[RunEnd(xs, i)]) + Parts(xs, RunEnd(xs, i) + 1)
  {
  }

  lemma NextPart(xs: seq<int>, i: nat, parts: seq<string>)
    requires i < |xs|
    ensures parts + Parts(xs, i) == (parts + RunParts(xs[i], xs[RunEnd(xs, i)])) + Parts(xs, RunEnd(xs, i) + 1)
  {
    hide Parts;
    hide RunParts;
    PartsUnfold(xs, i);
  }

  // ----- What is printed -----

  /** The numbers from first to last. */
  datatype Run = Run(first: int, last: int)

  function Count(r: Run): seq<int> {
    if r.last < r.first then [] else seq(r.last - r.first + 1, i => r.first + i)
  }

  function Flat(runs: seq<Run>): seq<int> { if runs == [] then [] else Count(runs[0]) + Flat(runs[1..]) }

  /** No run is empty, and none goes on where the one before it stops. */
  predicate Separate(runs: seq<Run>) {
    && (forall i :: 0 <= i < |runs| ==> runs[i].first <= runs[i].last)
    && (forall i :: 0 <= i < |runs| - 1 ==> runs[i + 1].first != runs[i].last + 1)
  }

  /** One number stands alone, two are listed, three or more become a range. */
  function PrintedRun(r: Run): string {
    if r.last == r.first then Itoa(r.first)
    else if r.last == r.first + 1 then Itoa(r.first) + "," + Itoa(r.last)
    else Itoa(r.first) + "-" + Itoa(r.last)
  }

  function PrintedRuns(runs: seq<Run>): string {
    if runs == [] then ""
    else if |runs| == 1 then PrintedRun(runs[0])
    else PrintedRun(runs[0]) + "," + PrintedRuns(runs[1..])
  }

  lemma RunEndsThere(xs: seq<int>, i: nat, runs: seq<Run>)
    requires runs != [] && Separate(runs) && i <= |xs| && xs[i..] == Flat(runs)
    ensures var n := runs[0].last - runs[0].first;
      && i + n < |xs| && xs[i] == runs[0].first && RunEnd(xs, i) == i + n && xs[i + n] == runs[0].last
      && xs[i + n + 1..] == Flat(runs[1..])
  {
    hide RunEnd;
    FlatShape(xs, i, runs);
    hide Flat;
    var j := RunEnd(xs, i);
    assert j + 1 < |xs| ==> xs[j + 1] != xs[i] + (j + 1 - i);
  }

  /** A list that goes on with these runs. */
  lemma FlatShape(xs: seq<int>, i: nat, runs: seq<Run>)
    requires runs != [] && Separate(runs) && i <= |xs| && xs[i..] == Flat(runs)
    ensures var e := i + runs[0].last - runs[0].first;
      && e < |xs| && xs[e + 1..] == Flat(runs[1..])
      && (forall k :: i <= k <= e ==> xs[k] == runs[0].first + (k - i))
      && (e + 1 < |xs| ==> xs[e + 1] != runs[0].last + 1)
  {
    var c, rest := Count(runs[0]), Flat(runs[1..]);
    var e := i + runs[0].last - runs[0].first;
    assert xs[i..] == c + rest;
    assert |xs| == i + |c| + |rest|;
    forall k | i <= k <= e ensures xs[k] == runs[0].first + (k - i) {
      assert xs[k] == xs[i..][k - i] == c[k - i];
    }
    assert xs[e + 1..] == xs[i..][|c|..] == rest;
    if rest != [] {
      FirstOfFlat(runs[1..]);
      assert xs[e + 1] == rest[0];
    }
  }

  lemma FirstOfFlat(runs: seq<Run>)
    requires runs != [] && runs[0].first <= runs[0].last
    ensures Flat(runs) != [] && Flat(runs)[0] == runs[0].first
  {
  }

  lemma RunPartsPrinted(r: Run)
    requires r.first <= r.last
    ensures var ps := RunParts(r.first, r.last); 1 <= |ps| <= 2 && Join(ps) == PrintedRun(r)
  {
    hide Itoa;
    if r.last == r.first + 1 {
      JoinRun(RunParts(r.first, r.last), []);
    }
  }

  lemma {:induction false} RunsPrinted(xs: seq<int>, i: nat, runs: seq<Run>)
    requires Separate(runs) && i <= |xs| && xs[i..] == Flat(runs)
    ensures Join(Parts(xs, i)) == PrintedRuns(runs) && (Parts(xs, i) == [] <==> runs == [])
    decreases |runs|
  {
    hide Parts;
    hide RunEnd;
    hide RunParts;
    hide PrintedRun;
    hide Join;
    hide Flat;
    hide Separate;
    hide PrintedRuns;
    PartsUnfold(xs, i);
    PrintedRunsUnfold(runs);
    if runs == [] {
      NoRuns(xs, i);
      JoinNothing();
    } else {
      RunsTail(runs);
      RunEndsThere(xs, i, runs);
      RunPartsPrinted(runs[0]);
      RunsPrinted(xs, RunEnd(xs, i) + 1, runs[1..]);
      JoinRun(RunParts(xs[i], xs[RunEnd(xs, i)]), Parts(xs, RunEnd(xs, i) + 1));
    }
  }

  lemma PrintedRunsUnfold(runs: seq<Run>)
    ensures PrintedRuns(runs) ==
      if runs == [] then ""
      else if runs[1..] == [] then PrintedRun(runs[0]) else PrintedRun(runs[0]) + "," + PrintedRuns(runs[1..])
  {
  }

  lemma NoRuns(xs: seq<int>, i: nat)
    requires i <= |xs| && xs[i..] == Flat([])
    ensures i == |xs|
  {
  }

  lemma RunsTail(runs: seq<Run>)
    requires runs != [] && Separate(runs)
    ensures Separate(runs[1..]) && runs[0].first <= runs[0].last
  {
  }

  lemma JoinNothing()
    ensures Join([]) == ""
  {
  }

  lemma JoinRun(a: seq<string>, b: seq<string>)
    requires 1 <= |a| <= 2
    ensures Join(a + b) == if b == [] then Join(a) else Join(a) + "," + Join(b)
    ensures Join(a) == if |a| == 1 then a[0] else a[0] + "," + a[1]
  {
    assert a[1..] + b == (a + b)[1..];
    if |a| == 2 {
      assert (a + b)[1..][1..] == b;
    } else {
      assert (a + b)[1..] == b;
    }
    assert b == [] ==> a + b == a;
  }

  /** A list is printed run by run, where a run goes on for as long as the numbers are consecutive. */
  lemma PrintsRuns(runs: seq<Run>)
    requires Separate(runs)
    ensures Print(Flat(runs)) == PrintedRuns(runs)
  {
    assert Flat(runs)[0..] == Flat(runs);
    RunsPrinted(Flat(runs), 0, runs);
  }

  // ----- Reading back -----

  /** A printed part: digits, with at most dashes between them. */
  ghost predicate Plain(s: string) {
    s != "" && IsDigit(s[0]) && IsDigit(s[|s| - 1]) && forall i :: 0 <= i < |s| ==> IsDigit(s[i]) || s[i] == '-'
  }

  ghost predicate AllPlain(parts: seq<string>) { forall i :: 0 <= i < |parts| ==> Plain(parts[i]) }

  lemma {:induction false} SplitPart(p: string, rest: string)
    requires forall i :: 0 <= i < |p| ==> p[i] != ','
    ensures Split(p + "," + rest) == [p] + Split(rest)
    ensures Split(p) == [p]
  {
    if p == "" {
      assert p + "," + rest == "," + rest;
      assert ("," + rest)[1..] == rest;
    } else {
      SplitPart(p[1..], rest);
      assert (p + "," + rest)[1..] == p[1..] + "," + rest;
      assert p == [p[0]] + p[1..];
    }
  }

  lemma PlainNoComma(p: string)
    requires Plain(p)
    ensures forall i :: 0 <= i < |p| ==> p[i] != ','
  {
  }

  lemma {:induction false} SplitJoin(parts: seq<string>)
    requires parts != [] && AllPlain(parts)
    ensures Split(Join(parts)) == parts
  {
    hide Plain;
    hide Split;
    PlainNoComma(parts[0]);
    if |parts| == 1 {
      SplitPart(parts[0], "");
    } else {
      SplitJoin(parts[1..]);
      SplitPart(parts[0], Join(parts[1..]));
    }
  }

  /** A joined text starts and ends with a digit and holds only digits, dashes and commas. */
  lemma {:induction false} JoinShape(parts: seq<string>)
    requires parts != [] && AllPlain(parts)
    ensures var s := Join(parts);
      && s != "" && IsDigit(s[0]) && IsDigit(s[|s| - 1])
      && forall i :: 0 <= i < |s| ==> IsDigit(s[i]) || s[i] == '-' || s[i] == ','
  {
    if |parts| > 1 {
      JoinShape(parts[1..]);
      var r := Join(parts[1..]);
      assert Join(parts)[|Join(parts)| - 1] == r[|r| - 1];
    }
  }

  lemma TrimNothing(s: string)
    requires s != "" && IsDigit(s[0]) && IsDigit(s[|s| - 1])
    ensures Text.TrimSpace(s) == s
  {
  }

  lemma CommasNothing(s: string)
    requires forall i :: 0 <= i < |s| ==> IsDigit(s[i]) || s[i] == '-' || s[i] == ','
    ensures Commas(s) == s
  {
  }

  lemma NumberItem(n: nat)
    requires n <= MAX_INT
    ensures Plain(Itoa(n)) && ItemOf(Itoa(n)) == Single(n)
  {
    TrimNothing(Itoa(n));
    AtoiItoa(n);
    assert '-' !in Itoa(n);
  }

  lemma {:induction false} CutAt(a: string, b: string)
    requires '-' !in a
    ensures '-' in a + "-" + b && CutDash(a + "-" + b) == (a, b)
  {
    var s := a + "-" + b;
    assert s[|a|] == '-';
    if a != "" {
      CutAt(a[1..], b);
      assert s[1..] == a[1..] + "-" + b;
      assert a == [a[0]] + a[1..];
    } else {
      assert s[1..] == b;
    }
  }

  lemma ItoaShape(n: nat)
    ensures var s := Itoa(n); s != "" && forall i :: 0 <= i < |s| ==> IsDigit(s[i])
  {
  }

  lemma PlainRange(a: string, b: string)
    requires a != "" && b != "" && forall i :: 0 <= i < |a| ==> IsDigit(a[i])
    requires forall i :: 0 <= i < |b| ==> IsDigit(b[i])
    ensures Plain(a + "-" + b) && '-' !in a
  {
    var p := a + "-" + b;
    assert p[|p| - 1] == b[|b| - 1];
  }

  lemma RangeItem(lo: nat, hi: nat)
    requires lo <= hi <= MAX_INT
    ensures var p := Itoa(lo) + "-" + Itoa(hi); Plain(p) && ItemOf(p) == Span(lo, hi)
  {
    hide Itoa;
    hide Atoi;
    hide Text.TrimSpace;
    hide CutDash;
    ItoaShape(lo);
    ItoaShape(hi);
    PlainRange(Itoa(lo), Itoa(hi));
    TrimNothing(Itoa(lo) + "-" + Itoa(hi));
    TrimNothing(Itoa(lo));
    TrimNothing(Itoa(hi));
    AtoiItoa(lo);
    AtoiItoa(hi);
    CutAt(Itoa(lo), Itoa(hi));
  }

  ghost function ItemsOf(parts: seq<string>): (r: seq<Item>)
    ensures |r| == |parts|
  {
    seq(|parts|, i requires 0 <= i < |parts| => ItemOf(parts[i]))
  }

  lemma ItemsOfPrinted(parts: seq<string>)
    requires AllPlain(parts)
    ensures Items(Join(parts)) == ItemsOf(parts)
  {
    if parts != [] {
      JoinShape(parts);
      TrimNothing(Join(parts));
      CommasNothing(Join(parts));
      SplitJoin(parts);
    }
  }

  ghost predicate InRange(xs: seq<int>, max: int) { forall i :: 0 <= i < |xs| ==> 0 <= xs[i] <= max }

  /** What two lists of items give together. */
  function Both(a: Result<set<int>>, b: Result<set<int>>): Result<set<int>> {
    if a.Err? then a else if b.Err? then b else Ok(a.value + b.value)
  }

  lemma {:induction false} CollectConcat(a: seq<Item>, b: seq<Item>, max: int)
    ensures Collect(a + b, max) == Both(Collect(a, max), Collect(b, max))
  {
    hide Meaning;
    hide Complaint;
    if b == [] {
      assert a + b == a;
      if Collect(a, max).Ok? {
        assert Collect(a, max).value + {} == Collect(a, max).value;
      }
    } else {
      var k := |b| - 1;
      CollectConcat(a, b[..k], max);
      assert (a + b)[..|a| + k] == a + b[..k];
      if Collect(a, max).Ok? && Collect(b[..k], max).Ok? {
        var s, t, m := Collect(a, max).value, Collect(b[..k], max).value, Meaning(b[k]);
        assert (s + t) + m == s + (t + m);
      }
    }
  }

  lemma CollectOne(item: Item, max: int)
    ensures Collect([item], max) ==
      if Complaint(item, max).Some? then Err(Complaint(item, max).value) else Ok(Meaning(item))
  {
    assert [item][..0] == [];
    assert {} + Meaning(item) == Meaning(item);
  }

  /** The three largest 64-bit integers stand next to each other at i. */
  predicate OverrunsAt(xs: seq<int>, i: nat) {
    i + 2 < |xs| && xs[i] == MAX_INT - 2 && xs[i + 1] == MAX_INT - 1 && xs[i + 2] == MAX_INT
  }

  /** What reading back a list gives: a range printed up to the largest integer cannot be read. */
  function ReadBack(overruns: bool, s: set<int>): Result<set<int>> {
    if overruns then Err(OutOfRange(MIN_INT)) else Ok(s)
  }

  lemma RunCollects(lo: int, hi: int, max: int)
    requires 0 <= lo <= hi <= max <= MAX_INT
    ensures AllPlain(RunParts(lo, hi))
    ensures Collect(ItemsOf(RunParts(lo, hi)), max) == ReadBack(hi - lo >= 2 && hi == MAX_INT, Numbers(lo, hi))
  {
    hide Collect;
    hide ItemOf;
    if hi - lo >= 2 {
      RangeItem(lo, hi);
      assert ItemsOf(RunParts(lo, hi)) == [Span(lo, hi)];
      CollectOne(Span(lo, hi), max);
    } else {
      NumberItem(lo);
      NumberItem(hi);
      CollectOne(Single(lo), max);
      if hi > lo {
        CollectOne(Single(hi), max);
        assert ItemsOf(RunParts(lo, hi)) == [Single(lo)] + [Single(hi)];
        CollectConcat([Single(lo)], [Single(hi)], max);
        assert {lo} + {hi} == Numbers(lo, hi);
      } else {
        assert ItemsOf(RunParts(lo, hi)) == [Single(lo)];
        assert {lo} == Numbers(lo, hi);
      }
    }
  }

  /** The first run overruns when it has three numbers or more and ends at the largest integer. */
  lemma FirstRunOverruns(xs: seq<int>, i: nat)
    requires i < |xs| && InRange(xs, MAX_INT)
    ensures var j := RunEnd(xs, i);
      (exists k :: k >= i && OverrunsAt(xs, k))
      <==> ((xs[j] - xs[i] >= 2 && xs[j] == MAX_INT) || exists k :: k >= j + 1 && OverrunsAt(xs, k))
  {
    var j := RunEnd(xs, i);
    if xs[j] - xs[i] >= 2 && xs[j] == MAX_INT {
      assert OverrunsAt(xs, j - 2);
    }
    if k :| k >= i && OverrunsAt(xs, k) {
      if k <= j {
        assert xs[k] == xs[i] + (k - i);
        assert k + 1 <= j;
        assert k + 2 <= j;
        assert xs[j] <= MAX_INT;
      }
    }
  }

  lemma {:induction false} PartsCollect(xs: seq<int>, i: nat, max: int)
    requires i <= |xs| && InRange(xs, max) && max <= MAX_INT
    ensures AllPlain(Parts(xs, i))
    ensures Collect(ItemsOf(Parts(xs, i)), max) == ReadBack(exists k :: k >= i && OverrunsAt(xs, k), Elements(xs[i..]))
    decreases |xs| - i
  {
    hide RunEnd;
    hide RunParts;
    hide Numbers;
    hide Elements;
    hide Collect;
    hide AllPlain;
    hide OverrunsAt;
    hide ItemOf;
    hide ItemsOf;
    hide Parts;
    hide InRange;
    PartsUnfold(xs, i);
    if i < |xs| {
      var j := RunEnd(xs, i);
      RunRange(xs, i, max);
      RunCollects(xs[i], xs[j], max);
      PartsCollect(xs, j + 1, max);
      JoinTwo(RunParts(xs[i], xs[j]), Parts(xs, j + 1), max);
      RunElements(xs, i, j);
      FirstRunOverruns(xs, i);
    } else {
      assert xs[i..] == [];
      NothingCollects(max);
      NoOverrun(xs);
    }
  }

  lemma RunRange(xs: seq<int>, i: nat, max: int)
    requires i < |xs| && InRange(xs, max) && max <= MAX_INT
    ensures 0 <= xs[i] <= xs[RunEnd(xs, i)] <= max && InRange(xs, MAX_INT)
  {
  }

  lemma NoOverrun(xs: seq<int>)
    ensures !exists k :: k >= |xs| && OverrunsAt(xs, k)
  {
  }

  lemma JoinTwo(a: seq<string>, b: seq<string>, max: int)
    requires AllPlain(a) && AllPlain(b)
    ensures AllPlain(a + b)
    ensures Collect(ItemsOf(a + b), max) == Both(Collect(ItemsOf(a), max), Collect(ItemsOf(b), max))
  {
    hide Collect;
    hide Plain;
    hide ItemOf;
    assert ItemsOf(a + b) == ItemsOf(a) + ItemsOf(b);
    CollectConcat(ItemsOf(a), ItemsOf(b), max);
  }

  lemma NothingCollects(max: int)
    ensures Elements([]) == {} && AllPlain([]) && Collect(ItemsOf([]), max) == Ok({})
  {
  }

  lemma RunElements(xs: seq<int>, i: nat, j: nat)
    requires i <= j < |xs| && forall k :: i <= k <= j ==> xs[k] == xs[i] + (k - i)
    ensures Elements(xs[i..]) == Numbers(xs[i], xs[j]) + Elements(xs[j + 1..])
  {
    forall v | v in Numbers(xs[i], xs[j]) ensures v in xs[i..] {
      assert xs[i..][v - xs[i]] == v;
    }
    forall v | v in xs[j + 1..] ensures v in xs[i..] {
      var k :| 0 <= k < |xs[j + 1..]| && xs[j + 1..][k] == v;
      assert xs[i..][j + 1 - i + k] == v;
    }
    forall v | v in xs[i..] ensures v in Numbers(xs[i], xs[j]) + Elements(xs[j + 1..]) {
      var k :| 0 <= k < |xs[i..]| && xs[i..][k] == v;
      if k > j - i {
        assert xs[j + 1..][k - (j - i) - 1] == v;
      }
    }
  }

  /** Printing any list over 0..max, in any order and with repeats, and reading it back gives the list sorted
      and without duplicates, unless the three largest 64-bit integers stand next to each other in it. */
  lemma ParsePrinted(xs: seq<int>, max: int)
    requires InRange(xs, max) && max <= MAX_INT
    ensures Parse(Print(xs), max) ==
      if exists k: nat :: OverrunsAt(xs, k) then Err(OutOfRange(MIN_INT)) else Ok(Sorted(Elements(xs)))
  {
    hide OverrunsAt;
    hide Collect;
    hide Items;
    PartsCollect(xs, 0, max);
    ItemsOfPrinted(Parts(xs, 0));
    assert xs[0..] == xs;
  }

  /** Re-printing what was read and reading it again changes nothing, if and only if not all three largest 64-bit
      integers were read. */
  lemma ReprintStable(text: string, max: int)
    requires Parse(text, max).Ok? && max <= MAX_INT
    ensures var r := Parse(text, max).value;
      Parse(Print(r), max) == Parse(text, max)
      <==> !(MAX_INT - 2 in r && MAX_INT - 1 in r && MAX_INT in r)
  {
    hide Parse;
    hide Print;
    hide Collect;
    hide Items;
    var r := Parse(text, max).value;
    ReadInRange(text, max);
    ParsePrinted(r, max);
    AscendingUnique(r, Sorted(Elements(r)));
    AscendingOverruns(r);
  }

  lemma ReadInRange(text: string, max: int)
    requires Parse(text, max).Ok?
    ensures Ascending(Parse(text, max).value) && InRange(Parse(text, max).value, max)
  {
    hide Parse;
    hide Items;
    var r := Parse(text, max).value;
    ParseMeans(text, max);
    forall i | 0 <= i < |r| ensures 0 <= r[i] <= max {
      assert r[i] in r;
    }
  }

  lemma {:induction false} AscendingGap(r: seq<int>, i: nat, j: nat)
    requires Ascending(r) && i <= j < |r|
    ensures r[j] - r[i] >= j - i
    decreases j
  {
    if i < j {
      AscendingGap(r, i, j - 1);
    }
  }

  lemma AscendingOverruns(r: seq<int>)
    requires Ascending(r)
    ensures (exists k: nat :: OverrunsAt(r, k)) <==> MAX_INT - 2 in r && MAX_INT - 1 in r && MAX_INT in r
  {
    if MAX_INT - 2 in r && MAX_INT - 1 in r && MAX_INT in r {
      var a :| 0 <= a < |r| && r[a] == MAX_INT - 2;
      var b :| 0 <= b < |r| && r[b] == MAX_INT - 1;
      var c :| 0 <= c < |r| && r[c] == MAX_INT;
      assert a < b < c;
      AscendingGap(r, a, b);
      AscendingGap(r, b, c);
      assert OverrunsAt(r, a);
    }
  }

  // ----- State arrays -----

  /** `mark` at the listed positions, 0 elsewhere; 1 marks a service type, 2 an enabled quick key. */
  function StateOf(indexes: seq<int>, length: nat, mark: int): (s: seq<int>)
    ensures |s| == length
  {
    seq(length, i requires 0 <= i < length => if i in indexes then mark else 0)
  }

  function IndexesOf(values: seq<int>, mark: int): seq<int> {
    if values == [] then []
    else
      var k := |values| - 1;
      IndexesOf(values[..k], mark) + if values[k] == mark then [k] else []
  }

  /** indexesToBinaryState (mark 1) and indexesToQKState (mark 2). */
  method IndexesToState(indexes: seq<int>, length: nat, mark: int) returns (out: array<int>)
    ensures fresh(out) && out[..] == StateOf(indexes, length, mark)
  {
    out := new int[length](_ => 0);
    var n := 0;
    while n < |indexes|
      invariant 0 <= n <= |indexes|
      invariant out[..] == StateOf(indexes[..n], length, mark)
    {
      var idx := indexes[n];
      assert indexes[..n + 1] == indexes[..n] + [idx];
      if 0 <= idx < length {
        out[idx] := mark;
      }
      n := n + 1;
    }
    assert indexes[..n] == indexes;
  }

  /** binaryStateToIndexes (mark 1) and qkStateToEnabledIndexes (mark 2). */
  method StateToIndexes(values: seq<int>, mark: int) returns (out: seq<int>)
    ensures out == IndexesOf(values, mark)
  {
    out := [];
    var i := 0;
    while i < |values|
      invariant 0 <= i <= |values|
      invariant out == IndexesOf(values[..i], mark)
    {
      assert values[..i + 1][..i] == values[..i];
      if values[i] == mark {
        out := out + [i];
      }
      i := i + 1;
    }
    assert values[..i] == values;
  }

  lemma {:induction false} IndexesMarked(values: seq<int>, mark: int)
    ensures Ascending(IndexesOf(values, mark))
    ensures forall i :: i in IndexesOf(values, mark) <==> 0 <= i < |values| && values[i] == mark
  {
    if values != [] {
      var k := |values| - 1;
      IndexesMarked(values[..k], mark);
      var r := IndexesOf(values[..k], mark);
      forall j | 0 <= j < |r| ensures r[j] < k {
        assert r[j] in r;
      }
    }
  }

  /** List to state and back: the valid indexes, sorted and without duplicates. */
  lemma IndexesOfState(indexes: seq<int>, length: nat, mark: int)
    requires mark != 0
    ensures var valid := set i | i in indexes && 0 <= i < length;
      IndexesOf(StateOf(indexes, length, mark), mark) == Sorted(valid)
  {
    var s := StateOf(indexes, length, mark);
    var valid := set i | i in indexes && 0 <= i < length;
    IndexesMarked(s, mark);
    forall i ensures i in IndexesOf(s, mark) <==> i in valid {
      if 0 <= i < length {
        assert s[i] == mark <==> i in indexes;
      }
    }
    assert Elements(IndexesOf(s, mark)) == valid;
    AscendingUnique(IndexesOf(s, mark), Sorted(valid));
  }

  /** State to list and back: the same state, if and only if it holds nothing but marks and zeros. */
  lemma StateOfIndexes(values: seq<int>, mark: int)
    ensures StateOf(IndexesOf(values, mark), |values|, mark) == values
      <==> forall i :: 0 <= i < |values| ==> values[i] == mark || values[i] == 0
  {
    IndexesMarked(values, mark);
    var s := StateOf(IndexesOf(values, mark), |values|, mark);
    forall i | 0 <= i < |values| ensures s[i] == if values[i] == mark then mark else 0 {
    }
  }
}
