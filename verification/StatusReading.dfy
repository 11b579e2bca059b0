/** How the recorder reads a scanner status: what counts as activity, and when two frequencies differ. */
module StatusReading {
  import opened RecorderSpec
  import Text

  predicate Either(c: char, lower: char, upper: char) { c == lower || c == upper }

  /** The word data in any case with any spaces around it. */
  ghost predicate SaysData(p25: string) {
    exists a, w, b :: Text.Blank(a) && Text.Blank(b) && p25 == a + w + b && IsDataWord(w)
  }

  predicate IsDataWord(w: string) {
    |w| == 4 && Either(w[0], 'd', 'D') && Either(w[1], 'a', 'A') && Either(w[2], 't', 'T') && Either(w[3], 'a', 'A')
  }

  lemma LowerData(w: string)
    ensures Text.Lower(w) == "data" <==> IsDataWord(w)
  {
    var l := Text.Lower(w);
    if l == "data" {
      assert l[0] == 'd' && l[1] == 'a' && l[2] == 't' && l[3] == 'a';
    }
  }

  lemma {:induction false} TrimLeftCuts(s: string) returns (a: string)
    ensures Text.Blank(a) && s == a + Text.TrimLeft(s)
    ensures Text.TrimLeft(s) != "" ==> !Text.IsSpace(Text.TrimLeft(s)[0])
  {
    a := "";
    if s != "" && Text.IsSpace(s[0]) {
      var rest := TrimLeftCuts(s[1..]);
      a := [s[0]] + rest;
      assert s == [s[0]] + s[1..];
    }
  }

  lemma {:induction false} TrimRightCuts(s: string) returns (b: string)
    ensures Text.Blank(b) && s == Text.TrimRight(s) + b
  {
    b := "";
    if s != "" && Text.IsSpace(s[|s| - 1]) {
      var n := |s| - 1;
      var rest := TrimRightCuts(s[..n]);
      b := rest + [s[n]];
      assert s == s[..n] + [s[n]];
    }
  }

  lemma DataExactly(p25: string)
    ensures SaysData(p25) <==> Text.Lower(Text.TrimSpace(p25)) == "data"
  {
    hide Text.Lower;
    hide Text.TrimSpace;
    if SaysData(p25) {
      var a, w, b :| Text.Blank(a) && Text.Blank(b) && p25 == a + w + b && IsDataWord(w);
      Text.TrimPadded(a, w, b);
      LowerData(w);
    }
    if Text.Lower(Text.TrimSpace(p25)) == "data" {
      DataCut(p25);
    }
  }

  lemma DataCut(p25: string)
    requires Text.Lower(Text.TrimSpace(p25)) == "data"
    ensures SaysData(p25)
  {
    var a := TrimLeftCuts(p25);
    var b := TrimRightCuts(Text.TrimLeft(p25));
    var w := Text.TrimSpace(p25);
    LowerData(w);
    assert p25 == a + (w + b) == a + w + b;
  }

  /** A transmission is active exactly when the scanner is connected, its activity is not known to be older than three
      seconds, it does not say data and is not muted, and there is an open squelch or some signal. */
  lemma ActiveExactly(s: Status)
    ensures IsActive(s) <==>
      && s.connected && !s.mute && !SaysData(s.p25) && (s.squelchOpen || s.signal > 0)
      && (s.activityAt == 0 || s.updatedAt == 0 || s.updatedAt - s.activityAt <= 3_000_000_000)
  {
    hide SaysData;
    hide Text.Lower;
    hide Text.TrimSpace;
    DataExactly(s.p25);
  }

  // ----- Frequencies -----

  /** A number as scanners write it: digits and points. */
  predicate Figures(f: string) { f != "" && forall i :: 0 <= i < |f| ==> '0' <= f[i] <= '9' || f[i] == '.' }

  /** The letters mhz in any case. */
  predicate Unit(u: string) {
    |u| == 3 && Either(u[0], 'm', 'M') && Either(u[1], 'h', 'H') && Either(u[2], 'z', 'Z')
  }

  /** The figures with spaces anywhere around them, and a unit or none. */
  ghost predicate Shows(text: string, figures: string) {
    Figures(figures) && exists a, b, u, c :: ShowsWith(text, figures, a, b, u, c)
  }

  ghost predicate ShowsWith(text: string, figures: string, a: string, b: string, u: string, c: string) {
    && Text.Blank(a) && Text.Blank(b) && Text.Blank(c) && (u == "" || Unit(u))
    && text == a + (figures + b + u) + c
  }

  lemma LowerShown(figures: string, b: string, u: string)
    requires Figures(figures) && Text.Blank(b) && Unit(u)
    ensures Text.Lower(figures + b + u) == figures + b + "mhz"
  {
    forall i | 0 <= i < |b| ensures !('A' <= b[i] <= 'Z') {
      assert Text.IsSpace(b[i]);
    }
  }

  lemma LowerFigures(figures: string)
    requires Figures(figures)
    ensures Text.Lower(figures) == figures && Text.TrimSuffix(figures, "mhz") == figures
  {
    if |figures| >= 3 {
      assert figures[|figures| - 3..][0] == figures[|figures| - 3];
      assert "mhz"[0] == 'm';
    }
  }

  lemma SuffixCut(s: string)
    ensures Text.TrimSuffix(s + "mhz", "mhz") == s
  {
  }

  lemma FiguresEnds(figures: string)
    requires Figures(figures)
    ensures figures != "" && !Text.IsSpace(figures[0]) && !Text.IsSpace(figures[|figures| - 1])
  {
  }

  lemma UnitEnds(u: string)
    requires Unit(u)
    ensures |u| == 3 && !Text.IsSpace(u[2])
  {
  }

  lemma NormalizedShown(text: string, figures: string)
    requires Shows(text, figures)
    ensures NormalizeFrequency(text) == figures != ""
  {
    hide Text.TrimSpace;
    hide Text.Lower;
    hide Text.TrimSuffix;
    hide Figures;
    hide Unit;
    var a, b, u, c :| ShowsWith(text, figures, a, b, u, c);
    FiguresEnds(figures);
    if u == "" {
      assert text == a + figures + (b + c);
      Text.TrimPadded(a, figures, b + c);
      LowerFigures(figures);
      Text.TrimPadded("", figures, "");
      assert "" + figures + "" == figures;
    } else {
      UnitEnds(u);
      var s := figures + b + u;
      assert s[0] == figures[0] && s[|s| - 1] == u[2];
      Text.TrimPadded(a, s, c);
      LowerShown(figures, b, u);
      SuffixCut(figures + b);
      Text.TrimPadded("", figures, b);
      assert "" + figures + b == figures + b;
    }
  }

  lemma NormalizedBlank(text: string)
    requires Text.Blank(text)
    ensures NormalizeFrequency(text) == ""
  {
    Text.TrimPadded(text, "", "");
    assert text + "" + "" == text;
  }

  /** Two frequencies split a clip exactly when their figures differ, however they are written; a blank one never
      does. */
  lemma SplitsExactly(s: Status, t: Status, f: string, g: string)
    requires Shows(s.frequency, f)
    ensures Shows(t.frequency, g) ==> (EndsByFrequency(s, t) <==> f != g)
    ensures Text.Blank(t.frequency) ==> !EndsByFrequency(s, t) && !EndsByFrequency(t, s)
  {
    hide NormalizeFrequency;
    hide Shows;
    NormalizedShown(s.frequency, f);
    if Shows(t.frequency, g) {
      NormalizedShown(t.frequency, g);
    }
    if Text.Blank(t.frequency) {
      NormalizedBlank(t.frequency);
    }
  }
}
