/** The scope editor's index lists (internal/gui/scope_helpers.go): text such as 0-4,7,9 and its meaning. */
module IndexList {
  import opened Wrappers
  import Least
  import opened Numerals
  import Text

  datatype Error = OutOfRange(value: int) | Invalid(part: string)
  datatype Result<T> = Ok(value: T) | Err(error: Error)

  // ----- Text pieces -----

  /** strings.Split by commas. */
  function Split(s: string): (r: seq<string>)
    ensures |r| > 0
  {
    if s == "" then [""]
    else
      var r := Split(s[1..]);
      if s[0] == ',' then [""] + r else [[s[0]] + r[0]] + r[1..]
  }

  /** strings.Join with commas. */
  function Join(parts: seq<string>): string {
    if parts == [] then "" else if |parts| == 1 then parts[0] else parts[0] + "," + Join(parts[1..])
  }

  /** Both ReplaceAll calls. */
  function Commas(s: string): (r: string)
    ensures |r| == |s|
  {
    seq(|s|, i requires 0 <= i < |s| => if s[i] == '\n' || s[i] == '\t' then ',' else s[i])
  }

  /** strings.SplitN(part, "-", 2) where there is a dash. */
  function CutDash(s: string): (r: (string, string))
    requires '-' in s
    ensures s == r.0 + "-" + r.1 && '-' !in r.0
  {
    if s[0] == '-' then ("", s[1..])
    else
      var (a, b) := CutDash(s[1..]);
      assert s == [s[0]] + s[1..];
      ([s[0]] + a, b)
  }

  // ----- What a text means -----

  /** A piece between commas: nothing, one number, the numbers lo..hi, or nonsense. */
  datatype Item = Blank | Single(value: int) | Span(lo: int, hi: int) | Nonsense(part: string)

  function ItemOf(raw: string): Item {
    var part := Text.TrimSpace(raw);
    if part == "" then Blank
    else
      match DashedRange(part)
      case Some(r) => Span(r.0, r.1)
      case None =>
        match Atoi(part)
        case Some(v) => Single(v)
        case None => Nonsense(part)
  }

  /** lo-hi with two numbers in order; otherwise the part is tried as one number. */
  function DashedRange(part: string): (r: Option<(int, int)>)
    ensures r.Some? ==> MIN_INT <= r.value.0 <= r.value.1 <= MAX_INT
  {
    if '-' !in part then None
    else
      var (a, b) := CutDash(part);
      var lo, hi := Atoi(Text.TrimSpace(a)), Atoi(Text.TrimSpace(b));
      if lo.Some? && hi.Some? && lo.value <= hi.value then Some((lo.value, hi.value)) else None
  }

  function Items(text: string): seq<Item> {
    var clean := Text.TrimSpace(text);
    if clean == "" then []
    else
      var parts := Split(Commas(clean));
      seq(|parts|, i requires 0 <= i < |parts| => ItemOf(parts[i]))
  }

  /** The first complaint an item gives rise to, if any. A range up to the largest integer never ends: the 64-bit
      counter wraps around to the smallest one, which is out of range. */
  function Complaint(item: Item, max: int): Option<Error> {
    match item
    case Blank => None
    case Nonsense(part) => Some(Invalid(part))
    case Single(v) => if v < 0 || v > max then Some(OutOfRange(v)) else None
    case Span(lo, hi) =>
      if lo < 0 || lo > max then Some(OutOfRange(lo))
      else if hi > max then Some(OutOfRange(max + 1))
      else if hi == MAX_INT then Some(OutOfRange(MIN_INT))
      else None
  }

  function Numbers(lo: int, hi: int): (r: set<int>)
    ensures forall v :: v in r <==> lo <= v <= hi
    decreases hi - lo
  {
    if lo > hi then {} else Numbers(lo, hi - 1) + {hi}
  }

  function Meaning(item: Item): set<int> {
    if item.Span? then Numbers(item.lo, item.hi) else if item.Single? then {item.value} else {}
  }

  /** All numbers the items name, or the first complaint. */
  function Collect(items: seq<Item>, max: int): Result<set<int>> {
    if items == [] then Ok({})
    else
      var k := |items| - 1;
      match Collect(items[..k], max)
      case Err(e) => Err(e)
      case Ok(s) =>
        match Complaint(items[k], max)
        case Some(e) => Err(e)
        case None => Ok(s + Meaning(items[k]))
  }

  ghost predicate Ascending(xs: seq<int>) { forall i, j :: 0 <= i < j < |xs| ==> xs[i] < xs[j] }

  ghost function Elements(xs: seq<int>): set<int> { set x | x in xs }

  /** The elements of a set in order. */
  ghost function Sorted(s: set<int>): (xs: seq<int>)
    ensures Elements(xs) == s && Ascending(xs)
    decreases |s|
  {
    if s == {} then []
    else
      var m := Least.Earliest(s);
      var rest := Sorted(s - {m});
      PrependLeast(s, m, rest);
      [m] + rest
  }

  lemma PrependLeast(s: set<int>, m: int, rest: seq<int>)
    requires m in s && (forall k :: k in s ==> m <= k) && Elements(rest) == s - {m} && Ascending(rest)
    ensures Elements([m] + rest) == s && Ascending([m] + rest)
  {
    ConsElements(m, rest);
  }

  /** What `parseIndexList` must return. */
  ghost function Parse(text: string, max: int): Result<seq<int>> {
    match Collect(Items(text), max)
    case Err(e) => Err(e)
    case Ok(s) => Ok(Sorted(s))
  }

  lemma ConsElements(m: int, xs: seq<int>)
    ensures Elements([m] + xs) == {m} + Elements(xs)
    ensures forall i :: 0 <= i < |xs| ==> xs[i] in Elements(xs)
  {
    forall x | x in Elements(xs) ensures x in [m] + xs {
      var i :| 0 <= i < |xs| && xs[i] == x;
      assert ([m] + xs)[i + 1] == x;
    }
    assert ([m] + xs)[0] == m;
  }

  lemma HeadIsElement(xs: seq<int>)
    ensures xs != [] ==> xs[0] in Elements(xs)
  {
  }

  lemma {:induction false} AscendingUnique(a: seq<int>, b: seq<int>)
    requires Ascending(a) && Ascending(b) && Elements(a) == Elements(b)
    ensures a == b
  {
    HeadIsElement(a);
    HeadIsElement(b);
    if a != [] {
      assert a[0] in Elements(b) && b != [];
      var i :| 0 <= i < |b| && b[i] == a[0];
      assert b[0] in Elements(a);
      var j :| 0 <= j < |a| && a[j] == b[0];
      assert a[0] == b[0];
      TailElements(a);
      TailElements(b);
      AscendingUnique(a[1..], b[1..]);
    }
  }

  lemma TailElements(a: seq<int>)
    requires a != [] && Ascending(a)
    ensures Elements(a[1..]) == Elements(a) - {a[0]} && Ascending(a[1..])
  {
    forall x | x in Elements(a) && x != a[0] ensures x in a[1..] {
      var i :| 0 <= i < |a| && a[i] == x;
      assert a[1..][i - 1] == x;
    }
  }

  /** Exactly the texts all of whose items are blank or lie within 0..max are accepted, and the result is the
      sorted union of the items. */
  lemma {:induction false} CollectMeans(items: seq<Item>, max: int)
    ensures Collect(items, max).Ok? <==> forall i :: 0 <= i < |items| ==> Complaint(items[i], max) == None
    ensures Collect(items, max).Ok? ==> forall v ::
      v in Collect(items, max).value <==> exists i :: 0 <= i < |items| && v in Meaning(items[i])
  {
    if items != [] {
      var k := |items| - 1;
      CollectMeans(items[..k], max);
      assert items == items[..k] + [items[k]];
    }
  }

  predicate Names(item: Item, v: int) {
    (item.Single? && v == item.value) || (item.Span? && item.lo <= v <= item.hi)
  }

  /** The item holds nothing but numbers in 0..max. */
  predicate Within(item: Item, max: int) {
    match item
    case Blank => true
    case Nonsense(_) => false
    case Single(v) => 0 <= v <= max
    case Span(lo, hi) => 0 <= lo && hi <= max
  }

  /** A range that ends at the largest 64-bit integer. */
  predicate Endless(item: Item) { item.Span? && item.hi == MAX_INT }

  lemma ParseAccepts(text: string, max: int)
    ensures Parse(text, max).Ok? <==>
      forall i :: 0 <= i < |Items(text)| ==> Within(Items(text)[i], max) && !Endless(Items(text)[i])
  {
    hide Items;
    hide Sorted;
    CollectMeans(Items(text), max);
    ItemsOrdered(text);
  }

  lemma MeaningIsNames(items: seq<Item>, v: int)
    ensures (exists i :: 0 <= i < |items| && v in Meaning(items[i])) <==>
      exists i :: 0 <= i < |items| && Names(items[i], v)
  {
    if i :| 0 <= i < |items| && v in Meaning(items[i]) {
      assert Names(items[i], v);
    }
    if i :| 0 <= i < |items| && Names(items[i], v) {
      assert v in Meaning(items[i]);
    }
  }

  /** A text is accepted exactly when all its items lie within 0..max and none is a range up to the largest integer.
      The result is then the strictly ascending list of the numbers its items name. */
  lemma ParseMeans(text: string, max: int)
    ensures var items := Items(text);
      && (Parse(text, max).Ok? <==> forall i :: 0 <= i < |items| ==> Within(items[i], max) && !Endless(items[i]))
      && (Parse(text, max).Ok? ==> Ascending(Parse(text, max).value))
      && (Parse(text, max).Ok? ==> forall v ::
            v in Parse(text, max).value <==> exists i :: 0 <= i < |items| && Names(items[i], v))
  {
    hide Items;
    hide Meaning;
    hide Names;
    hide Within;
    hide Collect;
    var items := Items(text);
    ParseAccepts(text, max);
    CollectMeans(items, max);
    if Parse(text, max).Ok? {
      var s := Collect(items, max).value;
      forall v ensures v in Sorted(s) <==> exists i :: 0 <= i < |items| && Names(items[i], v) {
        assert v in Sorted(s) <==> v in Elements(Sorted(s));
        MeaningIsNames(items, v);
      }
    }
  }

  /** A text that names only numbers in 0..max is refused exactly when it has a range up to the largest integer. */
  lemma RefusedOnlyEndless(text: string, max: int)
    requires forall i :: 0 <= i < |Items(text)| ==> Within(Items(text)[i], max)
    ensures Parse(text, max).Err? <==> exists i :: 0 <= i < |Items(text)| && Endless(Items(text)[i])
    ensures Parse(text, max).Err? ==> Parse(text, max).error == OutOfRange(MIN_INT)
  {
    hide Items;
    hide Sorted;
    ParseAccepts(text, max);
    ItemsOrdered(text);
    OneComplaint(Items(text), max, OutOfRange(MIN_INT));
  }

  lemma {:induction false} OneComplaint(items: seq<Item>, max: int, e: Error)
    requires forall i :: 0 <= i < |items| ==> Complaint(items[i], max) in {None, Some(e)}
    ensures Collect(items, max).Err? ==> Collect(items, max).error == e
  {
    if items != [] {
      OneComplaint(items[..|items| - 1], max, e);
    }
  }

  lemma ItemsOrdered(text: string)
    ensures forall i :: 0 <= i < |Items(text)| && Items(text)[i].Span? ==> Items(text)[i].lo <= Items(text)[i].hi
  {
  }

  // ----- The parser -----

  ghost predicate NonDescending(xs: seq<int>) { forall i, j :: 0 <= i < j < |xs| ==> xs[i] <= xs[j] }

  ghost predicate AtMost(xs: seq<int>, hi: int) { forall i :: 0 <= i < |xs| ==> xs[i] <= hi }

  function Insert(xs: seq<int>, x: int): (r: seq<int>)
    ensures multiset(r) == multiset(xs) + multiset{x}
  {
    if xs == [] || xs[|xs| - 1] <= x then xs + [x]
    else
      assert xs == xs[..|xs| - 1] + [xs[|xs| - 1]];
      Insert(xs[..|xs| - 1], x) + [xs[|xs| - 1]]
  }

  lemma {:induction false} InsertOrdered(xs: seq<int>, x: int, hi: int)
    requires NonDescending(xs) && AtMost(xs, hi) && x <= hi
    ensures NonDescending(Insert(xs, x)) && AtMost(Insert(xs, x), hi)
  {
    if xs != [] && x < xs[|xs| - 1] {
      InsertOrdered(xs[..|xs| - 1], x, xs[|xs| - 1]);
    }
  }

  /** sort.Ints. */
  function SortInts(xs: seq<int>): (r: seq<int>)
    ensures multiset(r) == multiset(xs)
  {
    if xs == [] then []
    else
      assert xs == xs[..|xs| - 1] + [xs[|xs| - 1]];
      Insert(SortInts(xs[..|xs| - 1]), xs[|xs| - 1])
  }

  lemma {:induction false} SortOrders(xs: seq<int>)
    ensures NonDescending(SortInts(xs))
  {
    if xs != [] {
      var k := |xs| - 1;
      SortOrders(xs[..k]);
      var r := SortInts(xs[..k]);
      InsertOrdered(r, xs[k], if r == [] || r[|r| - 1] < xs[k] then xs[k] else r[|r| - 1]);
    }
  }

  ghost predicate Distinct(xs: seq<int>) { forall i, j :: 0 <= i < j < |xs| ==> xs[i] != xs[j] }

  lemma NoElements()
    ensures Elements([]) == {} && Distinct([])
  {
  }

  lemma SortedDistinct(xs: seq<int>)
    requires Distinct(xs)
    ensures SortInts(xs) == Sorted(Elements(xs))
  {
    var r := SortInts(xs);
    SortOrders(xs);
    forall x ensures x in r <==> x in xs {
      assert x in multiset(r) <==> x in multiset(xs);
    }
    forall i, j | 0 <= i < j < |r| ensures r[i] != r[j] {
      if r[i] == r[j] {
        CountTwice(r, i, j);
        DistinctOnce(xs, r[i]);
        assert false;
      }
    }
    AscendingUnique(r, Sorted(Elements(xs)));
  }

  lemma CountTwice(r: seq<int>, i: nat, j: nat)
    requires i < j < |r| && r[i] == r[j]
    ensures multiset(r)[r[i]] >= 2
  {
    assert r == r[..i] + [r[i]] + r[i + 1..j] + [r[j]] + r[j + 1..];
  }

  lemma {:induction false} DistinctOnce(xs: seq<int>, x: int)
    requires Distinct(xs)
    ensures multiset(xs)[x] <= 1
  {
    if xs != [] {
      var k := |xs| - 1;
      assert xs == xs[..k] + [xs[k]];
      DistinctOnce(xs[..k], x);
    }
  }

  method ParseIndexList(text: string, maxInclusive: int) returns (r: Result<seq<int>>)
    ensures r == Parse(text, maxInclusive)
  {
    hide Elements;
    hide Numbers;
    hide SortInts;
    hide Distinct;
    hide Text.TrimSpace;
    hide DashedRange;
    hide Atoi;
    NoElements();
    var clean := Text.TrimSpace(text);
    if clean == "" {
      assert Collect([], maxInclusive) == Ok({});
      return Ok([]);
    }
    clean := Commas(clean);
    var parts := Split(clean);
    var out: seq<int> := [];
    ghost var items := Items(text);
    assert items[..0] == [];
    var n := 0;
    while n < |parts|
      invariant 0 <= n <= |parts| == |items|
      invariant Distinct(out) && Collect(items[..n], maxInclusive) == Ok(Elements(out))
    {
      assert items[..n + 1][..n] == items[..n] && items[n] == ItemOf(parts[n]);
      var part := Text.TrimSpace(parts[n]);
      if part == "" {
        assert Elements(out) + {} == Elements(out);
        n := n + 1;
        continue;
      }
      var bad: Option<int>;
      var range := DashedRange(part);
      if range.Some? {
        out, bad := AddRange(out, range.value.0, range.value.1, maxInclusive);
      } else {
        var value := Atoi(part);
        if value.None? {
          Refused(items, n, maxInclusive);
          return Err(Invalid(part));
        }
        out, bad := AddIndex(out, value.value, maxInclusive);
      }
      if bad.Some? {
        Refused(items, n, maxInclusive);
        return Err(OutOfRange(bad.value));
      }
      n := n + 1;
    }
    assert items[..n] == items;
    SortedDistinct(out);
    r := Ok(SortInts(out));
  }

  /** Adds a number that is in range, once. */
  method AddIndex(before: seq<int>, value: int, max: int) returns (out: seq<int>, bad: Option<int>)
    requires Distinct(before)
    ensures bad == if value < 0 || value > max then Some(value) else None
    ensures bad.None? ==> Distinct(out) && Elements(out) == Elements(before) + {value}
  {
    out, bad := before, None;
    if value < 0 || value > max {
      return out, Some(value);
    }
    if value !in out {
      assert Elements(out + [value]) == Elements(out) + {value};
      out := out + [value];
    } else {
      assert value in Elements(out);
    }
  }

  /** The successor of a 64-bit integer. */
  function Successor(i: int): int { if i == MAX_INT then MIN_INT else i + 1 }

  /** The loop that adds lo..hi one by one and stops at the first number out of range. With hi the largest integer
      its counter wraps around, so that there always is one. */
  method AddRange(before: seq<int>, lo: int, hi: int, max: int) returns (out: seq<int>, bad: Option<int>)
    requires Distinct(before) && MIN_INT <= lo <= hi <= MAX_INT
    ensures bad.None? <==> 0 <= lo && hi <= max && hi < MAX_INT
    ensures bad.Some? ==> Complaint(Span(lo, hi), max) == Some(OutOfRange(bad.value))
    ensures bad.None? ==> Distinct(out) && Elements(out) == Elements(before) + Numbers(lo, hi)
  {
    hide Elements;
    hide Distinct;
    out, bad := before, None;
    var i := lo;
    while i <= hi
      invariant Distinct(out) && bad.None?
      invariant (lo <= i <= hi + 1 && (i > lo ==> 0 <= lo && i - 1 <= max) && (i > hi ==> hi < MAX_INT)
                 && Elements(out) == Elements(before) + Numbers(lo, i - 1))
        || (i == MIN_INT < lo && 0 <= lo && hi == MAX_INT <= max)
      decreases if i == MIN_INT < lo then 0 else hi + 2 - i
    {
      out, bad := AddIndex(out, i, max);
      if bad.Some? {
        return;
      }
      i := Successor(i);
    }
  }

  /** One bad item after good ones decides the whole text. */
  lemma {:induction false} Refused(items: seq<Item>, n: nat, max: int)
    requires n < |items| && Collect(items[..n], max).Ok? && Complaint(items[n], max).Some?
    ensures Collect(items, max) == Err(Complaint(items[n], max).value)
    decreases |items|
  {
    var k := |items| - 1;
    if n < k {
      assert items[..k][..n] == items[..n];
      Refused(items[..k], n, max);
    } else {
      assert items[..k] == items[..n];
    }
  }
}
