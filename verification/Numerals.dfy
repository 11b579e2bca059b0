/** Decimal numerals: strconv.Itoa and strconv.Atoi on 64-bit integers. */
module Numerals {
  import opened Wrappers

  const MAX_INT: int := 0x7FFF_FFFF_FFFF_FFFF
  const MIN_INT: int := -0x8000_0000_0000_0000

  predicate IsDigit(c: char) { '0' <= c <= '9' }

  function Digit(d: nat): (c: char)
    requires d < 10
    ensures IsDigit(c) && c as int - 48 == d
  {
    (48 + d) as char
  }

  function Natural(n: nat): (s: string)
    ensures |s| > 0 && forall i :: 0 <= i < |s| ==> IsDigit(s[i])
  {
    if n < 10 then [Digit(n)] else Natural(n / 10) + [Digit(n % 10)]
  }

  function Itoa(n: int): (s: string)
    ensures |s| > 0
  {
    if n < 0 then "-" + Natural(-n) else Natural(n)
  }

  /** The value of a non-empty string of digits. */
  function DigitsValue(s: string): Option<nat> {
    if s == "" then None
    else
      var k := |s| - 1;
      if !IsDigit(s[k]) then None
      else if k == 0 then Some(s[k] as int - 48)
      else
        match DigitsValue(s[..k])
        case None => None
        case Some(v) => Some(v * 10 + (s[k] as int - 48))
  }

  /** An optional sign and digits, within 64 bits; anything else is refused. */
  function Atoi(s: string): (r: Option<int>)
    ensures r.Some? ==> MIN_INT <= r.value <= MAX_INT
  {
    var negative := s != "" && s[0] == '-';
    var digits := if s != "" && (s[0] == '-' || s[0] == '+') then s[1..] else s;
    match DigitsValue(digits)
    case None => None
    case Some(v) =>
      var n: int := if negative then 0 - v else v;
      if MIN_INT <= n <= MAX_INT then Some(n) else None
  }

  lemma {:induction false} NaturalValue(n: nat)
    ensures DigitsValue(Natural(n)) == Some(n)
  {
    if n >= 10 {
      NaturalValue(n / 10);
      assert Natural(n)[..|Natural(n)| - 1] == Natural(n / 10);
    }
  }

  lemma AtoiItoa(n: int)
    requires MIN_INT <= n <= MAX_INT
    ensures Atoi(Itoa(n)) == Some(n)
  {
    NaturalValue(if n < 0 then -n else n);
    if n < 0 {
      assert Itoa(n)[1..] == Natural(-n);
    } else {
      assert IsDigit(Itoa(n)[0]);
    }
  }

  // ----- Exactly which texts are numbers -----

  function Zeroes(k: nat): (z: string)
    ensures |z| == k && forall i :: 0 <= i < k ==> z[i] == '0'
  {
    seq(k, _ => '0')
  }

  datatype Sign = Unsigned | Plus | Minus

  /** A sign or none, leading zeros, and the number without its sign. */
  ghost predicate Spells(s: string, sign: Sign, k: nat, v: int) {
    var digits := Zeroes(k) + Natural(if v < 0 then -v else v);
    match sign
    case Unsigned => v >= 0 && s == digits
    case Plus => v >= 0 && s == ['+'] + digits
    case Minus => v <= 0 && s == ['-'] + digits
  }

  lemma {:induction false} PaddedValue(k: nat, n: nat)
    ensures DigitsValue(Zeroes(k) + Natural(n)) == Some(n)
    decreases n, k
  {
    var s := Zeroes(k) + Natural(n);
    if n >= 10 {
      PaddedValue(k, n / 10);
      assert s[..|s| - 1] == Zeroes(k) + Natural(n / 10);
    } else if k > 0 {
      ZeroesValue(k);
      assert s[..|s| - 1] == Zeroes(k);
    } else {
      assert s == Natural(n);
      NaturalValue(n);
    }
  }

  lemma {:induction false} ZeroesValue(k: nat)
    requires k > 0
    ensures DigitsValue(Zeroes(k)) == Some(0)
  {
    if k > 1 {
      ZeroesValue(k - 1);
      assert Zeroes(k)[..k - 1] == Zeroes(k - 1);
    }
  }

  /** Any digits are zeros before the number they stand for. */
  lemma {:induction false} DigitsArePadded(s: string) returns (k: nat)
    requires DigitsValue(s).Some?
    ensures s == Zeroes(k) + Natural(DigitsValue(s).value)
  {
    var n := |s| - 1;
    var d := s[n] as int - 48;
    assert s == s[..n] + [s[n]] && [s[n]] == Natural(d);
    k := 0;
    if n == 0 {
      assert s == Zeroes(0) + Natural(d);
    } else {
      k := DigitsArePadded(s[..n]);
      var v := DigitsValue(s[..n]).value;
      if v == 0 {
        assert s[..n] == Zeroes(k + 1);
        k := k + 1;
      } else {
        assert (v * 10 + d) / 10 == v && (v * 10 + d) % 10 == d;
        assert Natural(v * 10 + d) == Natural(v) + [s[n]];
        assert s == Zeroes(k) + (Natural(v) + [s[n]]);
      }
    }
  }

  lemma AtoiOfSigned(c: char, digits: string)
    requires c == '+' || c == '-'
    ensures Atoi([c] + digits) ==
      match DigitsValue(digits)
      case None => None
      case Some(n) => As64(if c == '-' then 0 - n else n)
  {
    assert ([c] + digits)[1..] == digits;
  }

  lemma AtoiOfUnsigned(digits: string)
    requires digits == "" || (digits[0] != '+' && digits[0] != '-')
    ensures Atoi(digits) == match DigitsValue(digits) case None => None case Some(n) => As64(n)
  {
  }

  function As64(n: int): Option<int> { if MIN_INT <= n <= MAX_INT then Some(n) else None }

  lemma ReadIsSpelt(s: string, v: int) returns (sign: Sign, k: nat)
    requires Atoi(s) == Some(v)
    ensures Spells(s, sign, k, v)
  {
    hide Atoi;
    hide DigitsValue;
    if s != "" && (s[0] == '-' || s[0] == '+') {
      sign := if s[0] == '-' then Minus else Plus;
      assert s == [s[0]] + s[1..];
      AtoiOfSigned(s[0], s[1..]);
      k := DigitsArePadded(s[1..]);
    } else {
      sign := Unsigned;
      AtoiOfUnsigned(s);
      k := DigitsArePadded(s);
    }
  }

  lemma SpeltIsRead(s: string, sign: Sign, k: nat, v: int)
    requires Spells(s, sign, k, v) && MIN_INT <= v <= MAX_INT
    ensures Atoi(s) == Some(v)
  {
    hide Atoi;
    hide DigitsValue;
    var n: nat := if v < 0 then -v else v;
    var digits := Zeroes(k) + Natural(n);
    PaddedValue(k, n);
    match sign
    case Unsigned =>
      assert IsDigit(digits[0]);
      AtoiOfUnsigned(digits);
    case Plus => AtoiOfSigned('+', digits);
    case Minus => AtoiOfSigned('-', digits);
  }

  /** A text is read as v exactly when v has 64 bits and the text spells it. */
  lemma AtoiExactly(s: string, v: int)
    ensures Atoi(s) == Some(v) <==> MIN_INT <= v <= MAX_INT && exists sign, k :: Spells(s, sign, k, v)
  {
    hide Spells;
    if Atoi(s) == Some(v) {
      var sign, k := ReadIsSpelt(s, v);
    }
    if MIN_INT <= v <= MAX_INT && exists sign, k :: Spells(s, sign, k, v) {
      var sign, k :| Spells(s, sign, k, v);
      SpeltIsRead(s, sign, k, v);
    }
  }
}
