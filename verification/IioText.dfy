/** Channel values as decimal text: how they are printed and how text is read back. */
module IioText {
  import opened Options

  // ---------- C integers ----------

  const INT_MIN := -0x8000_0000

  predicate IsInt(x: int) { INT_MIN <= x < 0x8000_0000 }

  /** Two's complement wrap-around to 32 bits. */
  function Wrap32(x: int): (r: int)
    ensures IsInt(r) && (IsInt(x) ==> r == x)
  {
    (x + 0x8000_0000) % 0x1_0000_0000 - 0x8000_0000
  }

  // ---------- decimal digits ----------

  predicate IsDigit(c: char) { '0' <= c <= '9' }

  predicate AllDigits(s: string) { forall k :: 0 <= k < |s| ==> IsDigit(s[k]) }

  function Digit(c: char): nat
    requires IsDigit(c)
  {
    (c as int) - ('0' as int)
  }

  function Pow10(k: nat): (r: nat)
    ensures r > 0
  {
    if k == 0 then 1 else 10 * Pow10(k - 1)
  }

  /** The number a string of digits stands for. */
  function Number(s: string): nat
    requires AllDigits(s)
  {
    if s == [] then 0 else 10 * Number(s[..|s| - 1]) + Digit(s[|s| - 1])
  }

  /** The first k digits as a number, with zeroes for the missing ones. */
  function Fraction(s: string, k: nat): (r: nat)
    requires AllDigits(s)
    ensures r < Pow10(k)
  {
    if k == 0 || s == [] then 0
    else
      DigitInFront(Digit(s[0]), Pow10(k - 1), Fraction(s[1..], k - 1));
      Digit(s[0]) * Pow10(k - 1) + Fraction(s[1..], k - 1)
  }

  lemma DigitInFront(d: nat, place: nat, rest: nat)
    requires d < 10 && rest < place
    ensures d * place + rest < 10 * place
  {
  }

  function DigitChar(d: nat): (c: char)
    requires d < 10
    ensures IsDigit(c) && Digit(c) == d
  {
    (d + ('0' as int)) as char
  }

  /** %u */
  function Decimal(n: nat): (s: string)
    ensures s != [] && AllDigits(s)
  {
    if n < 10 then [DigitChar(n)] else Decimal(n / 10) + [DigitChar(n % 10)]
  }

  function Zeros(n: nat): (s: string)
    ensures |s| == n && AllDigits(s)
  {
    seq(n, _ => '0')
  }

  /** %0ku */
  function Padded(n: nat, k: nat): (s: string)
    ensures AllDigits(s)
  {
    var d := Decimal(n);
    (if |d| < k then Zeros(k - |d|) else []) + d
  }

  /** %d and %ld */
  function Signed(x: int): string { if x < 0 then "-" + Decimal(-x) else Decimal(x) }

  // ---------- printing ----------

  datatype Format = Plain | Micro | MicroDb | Nano

  function Places(f: Format): nat { match f case Plain => 0 case Nano => 9 case _ => 6 }

  /** abs() of the kernel gives a long, but negates an int. */
  function Abs(x: int): int { if x < 0 then Wrap32(-x) else x }

  /** iio_format_value for these formats. */
  function Text(f: Format, val: int, val2: int): string {
    if f.Plain? then Signed(val) + "\n"
    else
      var end := if f.MicroDb? then " dB\n" else "\n";
      if val2 < 0 then "-" + Signed(Abs(val)) + "." + Padded(-val2, Places(f)) + end
      else Signed(val) + "." + Padded(val2, Places(f)) + end
  }

  // ---------- reading ----------

  /** The character loop of iio_str_to_fixpoint; mult is what the next decimal place counts. */
  function Scan(s: string, i: int, f: int, mult: nat, integer: bool): Option<(int, int)> {
    if s == [] then Some((i, f))
    else if IsDigit(s[0]) then
      if integer then Scan(s[1..], Wrap32(i * 10 + Digit(s[0])), f, mult, true)
      else Scan(s[1..], i, f + mult * Digit(s[0]), mult / 10, false)
    else if s[0] == '\n' then
      if |s| == 1 then Some((i, f)) else None
    else if s[0] == '.' && integer then Scan(s[1..], i, f, mult, false)
    else None
  }

  function Unsigned(s: string): string {
    if s != [] && (s[0] == '-' || s[0] == '+') then s[1..] else s
  }

  predicate Negative(s: string) { s != [] && s[0] == '-' }

  function Apply(negative: bool, v: (int, int)): (int, int) {
    if !negative then v else if v.0 != 0 then (Wrap32(-v.0), v.1) else (v.0, -v.1)
  }

  /** What iio_str_to_fixpoint makes of a string, if it accepts it. */
  function Parse(s: string, mult: nat): Option<(int, int)> {
    var r := Scan(Unsigned(s), 0, 0, mult, true);
    if r.None? then None else Some(Apply(Negative(s), r.value))
  }

  method StrToFixpoint(str: string, fractMult: nat) returns (r: Option<(int, int)>)
    ensures r == Parse(str, fractMult)
  {
    var s := str;
    var i, f := 0, 0;
    var mult: nat := fractMult;
    var integerPart, negative := true, false;
    if s != [] && s[0] == '-' {
      negative := true;
      s := s[1..];
    } else if s != [] && s[0] == '+' {
      s := s[1..];
    }
    while s != []
      invariant IsInt(i)
      invariant Scan(s, i, f, mult, integerPart) == Scan(Unsigned(str), 0, 0, fractMult, true)
      decreases |s|
    {
      if IsDigit(s[0]) {
        if integerPart {
          i := Wrap32(i * 10 + Digit(s[0]));
        } else {
          f := f + mult * Digit(s[0]);
          mult := mult / 10;
        }
      } else if s[0] == '\n' {
        if |s| == 1 { break; } else { return None; }
      } else if s[0] == '.' && integerPart {
        integerPart := false;
      } else {
        return None;
      }
      s := s[1..];
    }
    if negative {
      if i != 0 { i := Wrap32(-i); } else { f := -f; }
    }
    r := Some((i, f));
  }

  // ---------- exactly which strings are read, and as what ----------

  /** The multiplier of the first of k decimal places. */
  function FirstPlace(k: nat): nat { if k == 0 then 0 else Pow10(k - 1) }

  // sign is empty, "-" or "+"; a missing fraction has no point either.
  datatype Numeral = Numeral(sign: string, whole: string, fract: Option<string>, newline: bool)

  predicate IsNumeral(n: Numeral) {
    && (n.sign == "" || n.sign == "-" || n.sign == "+")
    && AllDigits(n.whole)
    && (n.fract.Some? ==> AllDigits(n.fract.value))
  }

  function Ending(fract: Option<string>, newline: bool): string {
    (if fract.Some? then "." + fract.value else "") + if newline then "\n" else ""
  }

  function Spell(n: Numeral): string { n.sign + (n.whole + Ending(n.fract, n.newline)) }

  /** The value of the text: the whole number wrapped to an int, and the digits after the point cut to k places. */
  function Meaning(n: Numeral, k: nat): (int, int)
    requires IsNumeral(n)
  {
    Apply(n.sign == "-", (Wrap32(Number(n.whole)), if n.fract.Some? then Fraction(n.fract.value, k) else 0))
  }

  lemma WrapStep(a: int, d: nat)
    ensures Wrap32(Wrap32(a) * 10 + d) == Wrap32(a * 10 + d)
  {
    var q := (a - Wrap32(a)) / 0x1_0000_0000;
    assert a == Wrap32(a) + q * 0x1_0000_0000;
    WrapShift(Wrap32(a) * 10 + d, q * 10);
  }

  lemma WrapShift(x: int, q: int)
    ensures Wrap32(x + q * 0x1_0000_0000) == Wrap32(x)
  {
  }

  lemma NumberSnoc(s: string, c: char)
    requires AllDigits(s) && IsDigit(c)
    ensures AllDigits(s + [c]) && Number(s + [c]) == 10 * Number(s) + Digit(c)
  {
    assert (s + [c])[..|s|] == s;
  }

  lemma {:induction false} ScanWhole(done: string, whole: string, rest: string, f: int, mult: nat)
    requires AllDigits(done) && AllDigits(whole)
    ensures AllDigits(done + whole)
    ensures Scan(whole + rest, Wrap32(Number(done)), f, mult, true) == Scan(rest, Wrap32(Number(done + whole)), f, mult, true)
    decreases |whole|
  {
    if whole == [] {
      assert whole + rest == rest && done + whole == done;
    } else {
      var c, tail := whole[0], whole[1..];
      NumberSnoc(done, c);
      WrapStep(Number(done), Digit(c));
      ScanWhole(done + [c], tail, rest, f, mult);
      assert (whole + rest)[1..] == tail + rest && done + [c] + tail == done + whole;
    }
  }

  lemma FirstPlaceDown(k: nat)
    ensures FirstPlace(k) / 10 == FirstPlace(if k == 0 then 0 else k - 1)
  {
  }

  lemma {:induction false} ScanFraction(fract: string, rest: string, i: int, f: int, k: nat) returns (m: nat)
    requires AllDigits(fract)
    ensures Scan(fract + rest, i, f, FirstPlace(k), false) == Scan(rest, i, f + Fraction(fract, k), m, false)
    decreases |fract|
  {
    if fract == [] {
      assert fract + rest == rest;
      m := FirstPlace(k);
    } else {
      var c, tail := fract[0], fract[1..];
      var k' := if k == 0 then 0 else k - 1;
      FirstPlaceDown(k);
      assert (fract + rest)[1..] == tail + rest;
      assert FirstPlace(k) * Digit(c) + Fraction(tail, k') == Fraction(fract, k) by { PlaceValue(k, Digit(c)); }
      m := ScanFraction(tail, rest, i, f + FirstPlace(k) * Digit(c), k');
    }
  }

  lemma PlaceValue(k: nat, d: nat)
    ensures FirstPlace(k) * d == if k == 0 then 0 else d * Pow10(k - 1)
  {
  }

  lemma ScanEnds(i: int, f: int, mult: nat, integer: bool, newline: bool)
    ensures Scan(if newline then "\n" else "", i, f, mult, integer) == Some((i, f))
  {
  }

  lemma ScanEnding(fract: Option<string>, newline: bool, i: int, k: nat)
    requires fract.Some? ==> AllDigits(fract.value)
    ensures Scan(Ending(fract, newline), i, 0, FirstPlace(k), true) ==
      Some((i, if fract.Some? then Fraction(fract.value, k) else 0))
  {
    var tail := if newline then "\n" else "";
    if fract.None? {
      ScanEnds(i, 0, FirstPlace(k), true, newline);
      assert Ending(fract, newline) == tail;
    } else {
      var s := Ending(fract, newline);
      assert s[0] == '.' && s[1..] == fract.value + tail;
      var m := ScanFraction(fract.value, tail, i, 0, k);
      ScanEnds(i, Fraction(fract.value, k), m, false, newline);
    }
  }

  /** Every numeral is accepted, and means what it says. */
  lemma NumeralsAreRead(n: Numeral, k: nat)
    requires IsNumeral(n)
    ensures Parse(Spell(n), FirstPlace(k)) == Some(Meaning(n, k))
  {
    var body := n.whole + Ending(n.fract, n.newline);
    UnsignedOf(n.sign, body, n);
    ScanWhole("", n.whole, Ending(n.fract, n.newline), 0, FirstPlace(k));
    assert "" + n.whole == n.whole;
    ScanEnding(n.fract, n.newline, Wrap32(Number(n.whole)), k);
  }

  lemma UnsignedOf(sign: string, body: string, n: Numeral)
    requires IsNumeral(n) && sign == n.sign && body == n.whole + Ending(n.fract, n.newline)
    ensures Unsigned(sign + body) == body && (Negative(sign + body) <==> sign == "-")
  {
    if sign == "" {
      assert sign + body == body;
      if body != [] { FirstOfBody(n, body); }
    } else {
      assert (sign + body)[1..] == body;
    }
  }

  /** What follows the sign starts with a digit, the point or the end of the line. */
  lemma FirstOfBody(n: Numeral, body: string)
    requires IsNumeral(n) && body == n.whole + Ending(n.fract, n.newline) && body != []
    ensures IsDigit(body[0]) || body[0] == '.' || body[0] == '\n'
  {
    if n.whole != [] {
      assert body[0] == n.whole[0];
    } else if n.fract.Some? {
      assert body[0] == ("." + n.fract.value)[0];
    } else {
      assert body == "\n";
    }
  }

  lemma {:induction false} ScanAccepts(s: string, i: int, f: int, mult: nat, integer: bool)
    returns (digits: string, fract: Option<string>, newline: bool)
    requires Scan(s, i, f, mult, integer).Some?
    ensures AllDigits(digits) && (fract.Some? ==> AllDigits(fract.value)) && (!integer ==> fract.None?)
    ensures s == digits + Ending(fract, newline)
    decreases |s|
  {
    if s == [] {
      return "", None, false;
    } else if IsDigit(s[0]) {
      if integer {
        digits, fract, newline := ScanAccepts(s[1..], Wrap32(i * 10 + Digit(s[0])), f, mult, true);
      } else {
        digits, fract, newline := ScanAccepts(s[1..], i, f + mult * Digit(s[0]), mult / 10, false);
      }
      digits := [s[0]] + digits;
      assert s == [s[0]] + s[1..];
    } else if s[0] == '\n' {
      assert s == "\n";
      return "", None, true;
    } else {
      var d, none, nl := ScanAccepts(s[1..], i, f, mult, false);
      assert s == "." + s[1..];
      assert s == "" + Ending(Some(d), nl);
      return "", Some(d), nl;
    }
  }

  lemma Spelled(s: string, mult: nat) returns (n: Numeral)
    requires Parse(s, mult).Some?
    ensures IsNumeral(n) && Spell(n) == s
  {
    var whole, fract, newline := ScanAccepts(Unsigned(s), 0, 0, mult, true);
    var sign := if s != [] && (s[0] == '-' || s[0] == '+') then [s[0]] else "";
    n := Numeral(sign, whole, fract, newline);
    assert s == sign + Unsigned(s);
  }

  /** The numerals are exactly what is accepted. */
  lemma NumeralsAreAccepted(s: string, k: nat)
    ensures Parse(s, FirstPlace(k)).Some? <==> exists n :: IsNumeral(n) && Spell(n) == s
  {
    if Parse(s, FirstPlace(k)).Some? {
      var n := Spelled(s, FirstPlace(k));
    } else if n :| IsNumeral(n) && Spell(n) == s {
      NumeralsAreRead(n, k);
    }
  }

  // ---------- printed values ----------

  lemma {:induction false} DecimalIsNumber(n: nat)
    ensures Number(Decimal(n)) == n
  {
    if n < 10 {
      assert [DigitChar(n)][..0] == [];
    } else {
      DecimalIsNumber(n / 10);
      NumberSnoc(Decimal(n / 10), DigitChar(n % 10));
    }
  }

  lemma {:induction false} DecimalIsShort(n: nat, k: nat)
    requires n < Pow10(k) && k > 0
    ensures |Decimal(n)| <= k
  {
    if n >= 10 {
      assert Pow10(1) == 10 * Pow10(0);
      DecimalIsShort(n / 10, k - 1);
    }
  }

  /** A string of exactly k digits is its own fraction to k places. */
  lemma {:induction false} FractionSnoc(s: string, c: char)
    requires AllDigits(s) && IsDigit(c)
    ensures AllDigits(s + [c]) && Fraction(s + [c], |s| + 1) == 10 * Fraction(s, |s|) + Digit(c)
    decreases |s|
  {
    if s == [] {
      assert (s + [c])[1..] == [];
    } else {
      FractionSnoc(s[1..], c);
      assert (s + [c])[1..] == s[1..] + [c];
      assert Fraction(s + [c], |s| + 1) == Digit(s[0]) * Pow10(|s|) + Fraction(s[1..] + [c], |s|);
      TenTimes(Digit(s[0]), |s|);
    }
  }

  lemma TenTimes(d: nat, k: nat)
    requires k > 0
    ensures d * Pow10(k) == 10 * (d * Pow10(k - 1))
  {
  }

  lemma {:induction false} FractionIsNumber(s: string)
    requires AllDigits(s)
    ensures Fraction(s, |s|) == Number(s)
    decreases |s|
  {
    if s != [] {
      var n := |s| - 1;
      FractionIsNumber(s[..n]);
      FractionSnoc(s[..n], s[n]);
      assert s == s[..n] + [s[n]];
    }
  }

  lemma {:induction false} LeadingZeros(m: nat, s: string)
    requires AllDigits(s)
    ensures AllDigits(Zeros(m) + s) && Number(Zeros(m) + s) == Number(s)
    decreases |s|
  {
    var z := Zeros(m) + s;
    if s == [] {
      assert z == Zeros(m);
      ZerosAreZero(m);
    } else {
      LeadingZeros(m, s[..|s| - 1]);
      assert z[..|z| - 1] == Zeros(m) + s[..|s| - 1];
    }
  }

  lemma {:induction false} ZerosAreZero(m: nat)
    ensures Number(Zeros(m)) == 0
  {
    if m > 0 {
      ZerosAreZero(m - 1);
      assert Zeros(m)[..m - 1] == Zeros(m - 1);
    }
  }

  lemma PaddedIsExact(n: nat, k: nat)
    requires k > 0 && n < Pow10(k)
    ensures |Padded(n, k)| == k && Number(Padded(n, k)) == n
  {
    DecimalIsShort(n, k);
    DecimalIsNumber(n);
    var m := k - |Decimal(n)|;
    LeadingZeros(m, Decimal(n));
    if m == 0 { assert [] + Decimal(n) == Decimal(n); }
  }

  /** A printed fraction reads back to itself exactly if it fits its places. */
  lemma PaddedReadsBack(n: nat, k: nat)
    requires k > 0
    ensures Fraction(Padded(n, k), k) == n <==> n < Pow10(k)
  {
    if n < Pow10(k) {
      PaddedIsExact(n, k);
      FractionIsNumber(Padded(n, k));
    }
  }

  // ---------- the round trip ----------

  /** The numeral for a sign, a whole number and a fraction already printed. */
  function Printed(negative: bool, whole: nat, fract: Option<string>): Numeral {
    Numeral(if negative then "-" else "", Decimal(whole), fract, true)
  }

  lemma ReadsAs(text: string, n: Numeral, k: nat)
    requires IsNumeral(n) && text == Spell(n)
    ensures Parse(text, FirstPlace(k)) == Some(Meaning(n, k))
  {
    NumeralsAreRead(n, k);
  }

  lemma PrintedMeans(negative: bool, whole: nat, fract: string, k: nat)
    requires AllDigits(fract)
    ensures var n := Printed(negative, whole, Some(fract));
      IsNumeral(n) && Meaning(n, k) == Apply(negative, (Wrap32(whole), Fraction(fract, k)))
  {
    DecimalIsNumber(whole);
  }

  lemma PrintedSpelled(negative: bool, whole: nat, fract: string)
    ensures Spell(Printed(negative, whole, Some(fract))) ==
      (if negative then "-" else "") + Decimal(whole) + "." + fract + "\n"
  {
    var e := Ending(Some(fract), true);
    assert e == "." + fract + "\n";
  }

  lemma ApplySign(val: int, f: int)
    requires IsInt(val)
    ensures Apply(val < 0, (Wrap32(if val < 0 then -val else val), f)) == (val, f)
  {
  }

  lemma PositiveReadsBack(val: int, val2: int, k: nat)
    requires IsInt(val) && val2 >= 0 && k > 0
    ensures Parse(Signed(val) + "." + Padded(val2, k) + "\n", FirstPlace(k)) == Some((val, Fraction(Padded(val2, k), k)))
  {
    var whole := if val < 0 then -val else val;
    var fract := Padded(val2, k);
    var n := Printed(val < 0, whole, Some(fract));
    PrintedSpelled(val < 0, whole, fract);
    PrintedMeans(val < 0, whole, fract, k);
    ApplySign(val, Fraction(fract, k));
    assert (if val < 0 then "-" else "") + Decimal(whole) == Signed(val);
    ReadsAs(Signed(val) + "." + fract + "\n", n, k);
  }

  /** A negative second part puts the sign in front of the first. */
  lemma NegativeReadsBack(whole: nat, fract: string, k: nat)
    requires AllDigits(fract) && IsInt(whole)
    ensures Parse("-" + Signed(whole) + "." + fract + "\n", FirstPlace(k)) ==
      Some(if whole != 0 then (0 - whole, Fraction(fract, k)) else (0, 0 - Fraction(fract, k)))
  {
    PrintedSpelled(true, whole, fract);
    PrintedMeans(true, whole, fract, k);
    ReadsAs("-" + Signed(whole) + "." + fract + "\n", Printed(true, whole, Some(fract)), k);
  }

  /** Two signs are not accepted. */
  lemma TwoSignsAreRefused(text: string, mult: nat)
    requires |text| > 1 && text[0] == '-' && text[1] == '-'
    ensures Parse(text, mult).None?
  {
    assert Unsigned(text)[0] == '-';
  }

  /** The values that survive being printed and read: a non-negative fraction that fits, or one below zero alone. */
  predicate Readable(val: int, val2: int, k: nat) {
    0 <= val2 < Pow10(k) || (val == 0 && val2 < 0 && -val2 < Pow10(k))
  }

  lemma PositiveRoundTrip(val: int, val2: int, k: nat)
    requires IsInt(val) && val2 >= 0 && k > 0
    ensures Parse(Signed(val) + "." + Padded(val2, k) + "\n", FirstPlace(k)) == Some((val, val2)) <==> Readable(val, val2, k)
  {
    PositiveReadsBack(val, val2, k);
    PaddedReadsBack(val2, k);
  }

  lemma NegativeRoundTrip(val: int, val2: int, k: nat)
    requires IsInt(val) && val != INT_MIN && val2 < 0 && k > 0
    ensures Parse("-" + Signed(Abs(val)) + "." + Padded(-val2, k) + "\n", FirstPlace(k)) == Some((val, val2))
      <==> Readable(val, val2, k)
  {
    var whole, fract := Abs(val), Padded(-val2, k);
    NegativeReadsBack(whole, fract, k);
    PaddedReadsBack(-val2, k);
  }

  /** The kernel's abs(INT_MIN) is still negative, so two signs are printed. */
  lemma LeastRoundTrip(fract: string, mult: nat)
    ensures Parse("-" + Signed(Abs(INT_MIN)) + "." + fract + "\n", mult).None?
  {
    var whole := Signed(Abs(INT_MIN));
    assert whole[0] == '-';
    TwoSignsAreRefused("-" + whole + "." + fract + "\n", mult);
  }

  /** Printing and reading back gives the same value exactly for the readable ones. */
  lemma RoundTripIff(f: Format, val: int, val2: int)
    requires (f == Micro || f == Nano) && IsInt(val) && IsInt(val2)
    ensures Parse(Text(f, val, val2), FirstPlace(Places(f))) == Some((val, val2)) <==> Readable(val, val2, Places(f))
  {
    if val2 >= 0 {
      PositiveRoundTrip(val, val2, Places(f));
    } else if val == INT_MIN {
      LeastRoundTrip(Padded(-val2, Places(f)), FirstPlace(Places(f)));
    } else {
      NegativeRoundTrip(val, val2, Places(f));
    }
  }

  /** Minus one and minus one millionth prints as -1.000001, which reads back with its parts' signs apart. */
  lemma SignsComeApart()
    ensures Parse(Text(Micro, -1, -1), FirstPlace(6)) == Some((-1, 1))
  {
    NegativeReadsBack(1, Padded(1, 6), 6);
    PaddedReadsBack(1, 6);
  }

  lemma PlainSpelled(val: int)
    requires IsInt(val)
    ensures Spell(Printed(val < 0, if val < 0 then -val else val, None)) == Signed(val) + "\n"
  {
    var whole := if val < 0 then -val else val;
    assert Signed(val) == (if val < 0 then "-" else "") + Decimal(whole);
    assert Ending(None, true) == "\n";
  }

  /** Whole numbers always read back, with fraction zero. */
  lemma PlainReadsBack(val: int, val2: int, k: nat)
    requires IsInt(val)
    ensures Parse(Text(Plain, val, val2), FirstPlace(k)) == Some((val, 0))
  {
    var whole := if val < 0 then -val else val;
    PlainSpelled(val);
    DecimalIsNumber(whole);
    ApplySign(val, 0);
    ReadsAs(Signed(val) + "\n", Printed(val < 0, whole, None), k);
  }

  /** The multipliers with which the attribute files are parsed. */
  lemma CallersPlaces()
    ensures FirstPlace(Places(Micro)) == 100000 && FirstPlace(Places(Nano)) == 100000000
  {
    assert Pow10(2) == 100 && Pow10(4) == 10000 && Pow10(6) == 1000000;
  }

  /** A value in decibels is never read back: its unit is not accepted. */
  lemma DecibelsAreRefused(val: int, val2: int, k: nat)
    ensures Parse(Text(MicroDb, val, val2), FirstPlace(k)).None?
  {
    var s := Text(MicroDb, val, val2);
    assert s[|s| - 4] == ' ';
    if Parse(s, FirstPlace(k)).Some? {
      var n := Spelled(s, FirstPlace(k));
      NoBlank(n);
    }
  }

  /** In decibels the text is that of micro units, with the unit before the end of the line. */
  lemma DecibelsAreMicro(val: int, val2: int)
    ensures var micro := Text(Micro, val, val2);
      micro != [] && micro[|micro| - 1] == '\n' && Text(MicroDb, val, val2) == micro[..|micro| - 1] + " dB\n"
  {
    EndsInLine(if val2 < 0 then "-" + Signed(Abs(val)) + "." + Padded(-val2, 6) else Signed(val) + "." + Padded(val2, 6));
  }

  lemma EndsInLine(body: string)
    ensures var t := body + "\n"; t[|t| - 1] == '\n' && t[..|t| - 1] == body
  {
  }

  lemma NoBlank(n: Numeral)
    requires IsNumeral(n)
    ensures ' ' !in Spell(n)
  {
  }
}
