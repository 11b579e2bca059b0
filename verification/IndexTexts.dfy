/** What texts the scope editor's parser reads, said without the parser's own pieces: numbers and ranges with spaces
    anywhere around them, separated by commas, newlines or tabs. */
module IndexTexts {
  import opened IndexList
  import opened Numerals
  import opened Wrappers
  import IndexPrinter
  import Text

  /** Spaces other than newlines and tabs, which separate. */
  predicate Pad(s: string) { forall i :: 0 <= i < |s| ==> Text.IsSpace(s[i]) && s[i] != '\n' && s[i] != '\t' }

  predicate Separator(c: char) { c == ',' || c == '\n' || c == '\t' }

  datatype Core =
    | Empty
    | Number(v: int)
    | Range(lo: nat, hi: nat, gap: string, gap': string)  // with spaces on both sides of the dash
    | Junk(text: string)

  /** A part of a text with the spaces around it. */
  datatype Piece = Piece(before: string, core: Core, after: string)

  function CoreText(c: Core): string {
    match c
    case Empty => ""
    case Number(v) => Itoa(v)
    case Range(lo, hi, gap, gap') => Itoa(lo) + gap + "-" + gap' + Itoa(hi)
    case Junk(text) => text
  }

  function PieceText(p: Piece): string { p.before + CoreText(p.core) + p.after }

  /** Two numbers in order around the first dash. */
  ghost predicate OrderedRange(text: string) {
    exists a, b :: '-' !in a && text == a + "-" + b && Bounds(a, b)
  }

  predicate Bounds(a: string, b: string) {
    var lo, hi := Atoi(Text.TrimSpace(a)), Atoi(Text.TrimSpace(b));
    lo.Some? && hi.Some? && lo.value <= hi.value
  }

  /** Text without separators that neither begins nor ends with a space, and is neither a number nor a range. */
  ghost predicate IsJunk(text: string) {
    && text != "" && !Text.IsSpace(text[0]) && !Text.IsSpace(text[|text| - 1])
    && (forall i :: 0 <= i < |text| ==> !Separator(text[i]))
    && Atoi(text) == None && !OrderedRange(text)
  }

  ghost predicate Writable(p: Piece) {
    && Pad(p.before) && Pad(p.after)
    && match p.core
       case Empty => true
       case Number(v) => MIN_INT <= v <= MAX_INT
       case Range(lo, hi, gap, gap') => lo <= hi <= MAX_INT && Pad(gap) && Pad(gap')
       case Junk(text) => IsJunk(text)
  }

  /** The pieces with separators between them. */
  function Written(pieces: seq<Piece>, seps: seq<char>): string
    requires |pieces| == |seps| + 1
  {
    if seps == [] then PieceText(pieces[0]) else PieceText(pieces[0]) + [seps[0]] + Written(pieces[1..], seps[1..])
  }

  // ----- What each piece is read as -----

  function ItemFor(c: Core): Item {
    match c
    case Empty => Item.Blank
    case Number(v) => Single(v)
    case Range(lo, hi, _, _) => Span(lo, hi)
    case Junk(text) => Nonsense(text)
  }

  lemma CoreIsTrim(p: Piece)
    requires Writable(p)
    ensures Text.TrimSpace(PieceText(p)) == CoreText(p.core)
    ensures p.core.Empty? || (var s := CoreText(p.core);
      s != "" && !Text.IsSpace(s[0]) && !Text.IsSpace(s[|s| - 1]))
  {
    hide Text.TrimSpace;
    var s := CoreText(p.core);
    match p.core {
      case Empty =>
      case Number(v) => NumberEnds(v);
      case Range(lo, hi, gap, gap') =>
        NumberEnds(lo);
        NumberEnds(hi);
        assert s[0] == Itoa(lo)[0] && s[|s| - 1] == Itoa(hi)[|Itoa(hi)| - 1];
      case Junk(_) =>
    }
    Text.TrimPadded(p.before, s, p.after);
  }

  lemma NumberEnds(v: int)
    ensures var s := Itoa(v); s != "" && !Text.IsSpace(s[0]) && !Text.IsSpace(s[|s| - 1])
    ensures v >= 0 ==> forall i :: 0 <= i < |Itoa(v)| ==> IsDigit(Itoa(v)[i])
    ensures v < 0 ==> Itoa(v) == "-" + Natural(-v)
    ensures forall i :: 0 <= i < |Itoa(v)| ==> IsDigit(Itoa(v)[i]) || Itoa(v)[i] == '-'
  {
  }

  lemma NumberRead(v: int)
    requires MIN_INT <= v <= MAX_INT
    ensures DashedRange(Itoa(v)) == None && Atoi(Itoa(v)) == Some(v)
  {
    hide Atoi;
    hide Text.TrimSpace;
    NumberEnds(v);
    AtoiItoa(v);
    if v < 0 {
      IndexPrinter.CutAt("", Natural(-v));
      assert "" + "-" + Natural(-v) == Itoa(v);
      Text.TrimPadded("", "", "");
      assert "" + "" + "" == "";
      NoNumber();
    } else {
      assert '-' !in Itoa(v);
    }
  }

  lemma NoNumber()
    ensures Atoi("") == None
  {
  }

  lemma RangeRead(lo: nat, hi: nat, gap: string, gap': string)
    requires lo <= hi <= MAX_INT && Pad(gap) && Pad(gap')
    ensures DashedRange(Itoa(lo) + gap + "-" + gap' + Itoa(hi)) == Some((lo, hi))
  {
    hide Atoi;
    hide Itoa;
    hide Text.TrimSpace;
    NumberEnds(lo);
    NumberEnds(hi);
    AtoiItoa(lo);
    AtoiItoa(hi);
    var a, b := Itoa(lo) + gap, gap' + Itoa(hi);
    assert '-' !in a;
    assert Itoa(lo) + gap + "-" + gap' + Itoa(hi) == a + "-" + b;
    IndexPrinter.CutAt(a, b);
    Text.TrimPadded("", Itoa(lo), gap);
    assert "" + Itoa(lo) + gap == a;
    Text.TrimPadded(gap', Itoa(hi), "");
    assert gap' + Itoa(hi) + "" == b;
  }

  lemma JunkRead(text: string)
    requires IsJunk(text)
    ensures DashedRange(text) == None
  {
    if DashedRange(text).Some? {
      var (a, b) := CutDash(text);
      assert Bounds(a, b);
    }
  }

  lemma PieceRead(p: Piece)
    requires Writable(p)
    ensures ItemOf(PieceText(p)) == ItemFor(p.core)
  {
    hide Text.TrimSpace;
    hide DashedRange;
    hide Atoi;
    hide PieceText;
    CoreIsTrim(p);
    match p.core
    case Empty =>
    case Number(v) => NumberRead(v);
    case Range(lo, hi, gap, gap') => RangeRead(lo, hi, gap, gap');
    case Junk(text) => JunkRead(text);
  }

  // ----- The parts of a text -----

  ghost function RawItems(text: string): seq<Item> { IndexPrinter.ItemsOf(Split(Commas(text))) }

  lemma {:induction false} SplitMore(s: string, c: char)
    ensures Split(s + [c]) == More(Split(s), c)
  {
    hide Glued;
    hide More;
    if s == "" {
      assert s + [c] == [c];
      assert [c][1..] == "";
      FirstPart(c);
    } else {
      SplitMore(s[1..], c);
      assert (s + [c])[1..] == s[1..] + [c];
      SplitFirst(s);
      SplitFirst(s + [c]);
      GluedMore(s[0], Split(s[1..]), c);
    }
  }

  /** A character in front of the parts that follow it. */
  function Glued(first: char, parts: seq<string>): (r: seq<string>)
    requires parts != []
    ensures r != []
  {
    if first == ',' then [""] + parts else [[first] + parts[0]] + parts[1..]
  }

  lemma FirstPart(c: char)
    ensures Split([c]) == More(Split(""), c)
  {
    assert [c][1..] == "" && Split("") == [""] && [c] + "" == "" + [c];
  }

  lemma SplitFirst(s: string)
    requires s != ""
    ensures Split(s) == Glued(s[0], Split(s[1..]))
  {
  }

  /** A character behind the parts before it. */
  function More(parts: seq<string>, c: char): (r: seq<string>)
    requires parts != []
    ensures r != []
  {
    if c == ',' then parts + [""] else parts[..|parts| - 1] + [parts[|parts| - 1] + [c]]
  }

  lemma GluedMore(first: char, parts: seq<string>, c: char)
    requires parts != []
    ensures Glued(first, More(parts, c)) == More(Glued(first, parts), c)
  {
    if first != ',' && c != ',' && |parts| == 1 {
      assert [first] + (parts[0] + [c]) == [first] + parts[0] + [c];
    }
  }

  lemma BlankItem()
    ensures ItemOf("") == Item.Blank
  {
  }

  lemma SpaceChangesNothing(c: char, part: string)
    requires Text.IsSpace(c)
    ensures ItemOf([c] + part) == ItemOf(part) == ItemOf(part + [c])
  {
    Text.TrimLeftBlank([c], part);
    SpaceAfter(part, c);
  }

  lemma {:induction false} SpaceAfter(s: string, c: char)
    requires Text.IsSpace(c)
    ensures Text.TrimSpace(s + [c]) == Text.TrimSpace(s)
  {
    if s != "" && Text.IsSpace(s[0]) {
      SpaceAfter(s[1..], c);
      assert (s + [c])[1..] == s[1..] + [c];
    } else if s == "" {
      assert s + [c] == [c] && [c][1..] == "";
    } else {
      Text.TrimRightBlank(s, [c]);
    }
  }

  lemma BlankBefore(items: seq<Item>, max: int)
    ensures Collect([Item.Blank] + items, max) == Collect(items, max) == Collect(items + [Item.Blank], max)
  {
    IndexPrinter.CollectOne(Item.Blank, max);
    IndexPrinter.CollectConcat([Item.Blank], items, max);
    IndexPrinter.CollectConcat(items, [Item.Blank], max);
    if Collect(items, max).Ok? {
      var s := Collect(items, max).value;
      assert {} + s == s && s + {} == s;
    }
  }

  /** A space in front of a text or behind it does not change what is collected. */
  lemma SpaceBeforeText(c: char, text: string, max: int)
    requires Text.IsSpace(c)
    ensures Collect(RawItems([c] + text), max) == Collect(RawItems(text), max)
  {
    hide ItemOf;
    hide Collect;
    var r := Split(Commas(text));
    assert Commas([c] + text)[1..] == Commas(text);
    if c == '\n' || c == '\t' {
      BlankItem();
      assert RawItems([c] + text) == [Item.Blank] + RawItems(text);
      BlankBefore(RawItems(text), max);
    } else {
      SpaceChangesNothing(c, r[0]);
      assert RawItems([c] + text) == RawItems(text);
    }
  }

  lemma SpaceAfterText(text: string, c: char, max: int)
    requires Text.IsSpace(c)
    ensures Collect(RawItems(text + [c]), max) == Collect(RawItems(text), max)
  {
    hide ItemOf;
    hide Collect;
    hide Split;
    var r := Split(Commas(text));
    if c == '\n' || c == '\t' {
      assert Commas(text + [c]) == Commas(text) + [','];
      SplitMore(Commas(text), ',');
      BlankItem();
      assert RawItems(text + [c]) == RawItems(text) + [Item.Blank];
      BlankBefore(RawItems(text), max);
    } else {
      assert Commas(text + [c]) == Commas(text) + [c];
      SplitMore(Commas(text), c);
      SpaceChangesNothing(c, r[|r| - 1]);
      assert RawItems(text + [c]) == RawItems(text);
    }
  }

  lemma {:induction false} TrimLeftCollects(text: string, max: int)
    ensures Collect(RawItems(Text.TrimLeft(text)), max) == Collect(RawItems(text), max)
  {
    hide RawItems;
    hide Collect;
    if text != "" && Text.IsSpace(text[0]) {
      TrimLeftCollects(text[1..], max);
      SpaceBeforeText(text[0], text[1..], max);
      assert [text[0]] + text[1..] == text;
    }
  }

  lemma {:induction false} TrimRightCollects(text: string, max: int)
    ensures Collect(RawItems(Text.TrimRight(text)), max) == Collect(RawItems(text), max)
  {
    hide RawItems;
    hide Collect;
    if text != "" && Text.IsSpace(text[|text| - 1]) {
      var n := |text| - 1;
      TrimRightCollects(text[..n], max);
      SpaceAfterText(text[..n], text[n], max);
      assert text[..n] + [text[n]] == text;
    }
  }

  lemma TrimCollects(text: string, max: int)
    ensures Collect(Items(text), max) == Collect(RawItems(text), max)
  {
    hide ItemOf;
    hide Collect;
    TrimLeftCollects(text, max);
    TrimRightCollects(Text.TrimLeft(text), max);
    var clean := Text.TrimSpace(text);
    if clean == "" {
      BlankItem();
      assert RawItems("") == [Item.Blank] == [Item.Blank] + [];
      BlankBefore([], max);
    } else {
      assert Items(text) == RawItems(clean);
    }
  }

  // ----- Whole texts -----

  function ItemsFor(pieces: seq<Piece>): (r: seq<Item>)
    ensures |r| == |pieces|
  {
    seq(|pieces|, i requires 0 <= i < |pieces| => ItemFor(pieces[i].core))
  }

  lemma NoSeparator(p: Piece)
    requires Writable(p)
    ensures forall i :: 0 <= i < |PieceText(p)| ==> !Separator(PieceText(p)[i])
  {
    hide Itoa;
    match p.core
    case Number(v) => NumberEnds(v);
    case Range(lo, hi, _, _) =>
      NumberEnds(lo);
      NumberEnds(hi);
    case _ =>
  }

  lemma CommasKeep(s: string, c: char, rest: string)
    requires Separator(c) && forall i :: 0 <= i < |s| ==> !Separator(s[i])
    ensures Commas(s) == s && Commas(s + [c] + rest) == s + "," + Commas(rest)
  {
  }

  lemma {:induction false} WrittenParts(pieces: seq<Piece>, seps: seq<char>)
    requires |pieces| == |seps| + 1 && forall i :: 0 <= i < |pieces| ==> Writable(pieces[i])
    requires forall i :: 0 <= i < |seps| ==> Separator(seps[i])
    ensures RawItems(Written(pieces, seps)) == ItemsFor(pieces)
    decreases |seps|
  {
    hide ItemOf;
    hide Split;
    hide Commas;
    hide PieceText;
    hide ItemFor;
    hide Writable;
    var s := PieceText(pieces[0]);
    NoSeparator(pieces[0]);
    PieceRead(pieces[0]);
    if seps == [] {
      CommasKeep(s, ',', "");
      IndexPrinter.SplitPart(s, "");
      assert RawItems(s) == [ItemFor(pieces[0].core)];
    } else {
      var rest := Written(pieces[1..], seps[1..]);
      CommasKeep(s, seps[0], rest);
      IndexPrinter.SplitPart(s, Commas(rest));
      WrittenParts(pieces[1..], seps[1..]);
      assert RawItems(Written(pieces, seps)) == [ItemFor(pieces[0].core)] + RawItems(rest);
    }
  }

  /** Whatever spaces, separators and empty parts: the parser collects what is written. */
  lemma WrittenCollects(pieces: seq<Piece>, seps: seq<char>, max: int)
    requires |pieces| == |seps| + 1 && forall i :: 0 <= i < |pieces| ==> Writable(pieces[i])
    requires forall i :: 0 <= i < |seps| ==> Separator(seps[i])
    ensures Collect(Items(Written(pieces, seps)), max) == Collect(ItemsFor(pieces), max)
  {
    TrimCollects(Written(pieces, seps), max);
    WrittenParts(pieces, seps);
  }

  predicate Holds(c: Core, v: int) {
    match c
    case Number(w) => v == w
    case Range(lo, hi, _, _) => lo <= v <= hi
    case _ => false
  }

  /** Nothing but numbers in 0..max, and no range up to the largest integer. */
  predicate Acceptable(c: Core, max: int) {
    match c
    case Empty => true
    case Number(v) => 0 <= v <= max
    case Range(_, hi, _, _) => hi <= max && hi < MAX_INT
    case Junk(_) => false
  }

  ghost predicate InSome(pieces: seq<Piece>, v: int) { exists i :: 0 <= i < |pieces| && Holds(pieces[i].core, v) }

  lemma MeaningsHold(pieces: seq<Piece>, v: int)
    ensures (exists i :: 0 <= i < |pieces| && v in Meaning(ItemsFor(pieces)[i])) <==> InSome(pieces, v)
  {
    var items := ItemsFor(pieces);
    if i :| 0 <= i < |pieces| && v in Meaning(items[i]) {
      assert Holds(pieces[i].core, v);
    }
    if i :| 0 <= i < |pieces| && Holds(pieces[i].core, v) {
      assert v in Meaning(items[i]);
    }
  }

  lemma AcceptableItems(pieces: seq<Piece>, max: int)
    requires forall i :: 0 <= i < |pieces| ==> Writable(pieces[i]) && Acceptable(pieces[i].core, max)
    ensures Collect(ItemsFor(pieces), max).Ok?
    ensures var s := Collect(ItemsFor(pieces), max).value; forall v :: v in s <==> InSome(pieces, v)
  {
    hide InSome;
    CollectMeans(ItemsFor(pieces), max);
    var s := Collect(ItemsFor(pieces), max).value;
    forall v ensures v in s <==> InSome(pieces, v) {
      MeaningsHold(pieces, v);
    }
  }

  /** A text of numbers and ranges in 0..max, with any spaces, separators and empty parts, is read as the ascending
      list of the numbers written. */
  lemma TextAccepted(pieces: seq<Piece>, seps: seq<char>, max: int)
    requires |pieces| == |seps| + 1 && forall i :: 0 <= i < |seps| ==> Separator(seps[i])
    requires forall i :: 0 <= i < |pieces| ==> Writable(pieces[i]) && Acceptable(pieces[i].core, max)
    ensures var r := Parse(Written(pieces, seps), max);
      && r.Ok? && Ascending(r.value)
      && forall v :: v in r.value <==> InSome(pieces, v)
  {
    hide Items;
    hide Collect;
    hide InSome;
    WrittenCollects(pieces, seps, max);
    AcceptableItems(pieces, max);
    var s := Collect(ItemsFor(pieces), max).value;
    assert forall v :: v in Sorted(s) <==> v in Elements(Sorted(s));
  }

  /** What is said of the first part that cannot be accepted. */
  function Refusal(c: Core, max: int): Error
    requires !Acceptable(c, max)
  {
    match c
    case Junk(text) => Invalid(text)
    case Number(v) => OutOfRange(v)
    case Range(lo, hi, _, _) => OutOfRange(if lo > max then lo else if hi > max then max + 1 else MIN_INT)
  }

  /** The first part that is no number or range in 0..max decides the text: it is refused with that part, or with the
      first number of it that is out of range. */
  lemma TextRefused(pieces: seq<Piece>, seps: seq<char>, max: int, n: nat)
    requires |pieces| == |seps| + 1 && forall i :: 0 <= i < |seps| ==> Separator(seps[i])
    requires forall i :: 0 <= i < |pieces| ==> Writable(pieces[i])
    requires n < |pieces| && !Acceptable(pieces[n].core, max)
    requires forall i :: 0 <= i < n ==> Acceptable(pieces[i].core, max)
    ensures Parse(Written(pieces, seps), max) == Err(Refusal(pieces[n].core, max))
  {
    hide Items;
    hide Collect;
    WrittenCollects(pieces, seps, max);
    var items := ItemsFor(pieces);
    AcceptableItems(pieces[..n], max);
    assert ItemsFor(pieces[..n]) == items[..n];
    assert Complaint(items[n], max) == Some(Refusal(pieces[n].core, max));
    Refused(items, n, max);
  }
}
