/** The printer of token amounts (lib/utils.ts) and the parser of typed ones (CrossChainDeposit.tsx). */
module TokenAmounts {
  import opened Options
  import opened Decimals

  function Zeros(n: nat): (r: string)
    ensures |r| == n && AllDigits(r)
    ensures forall i :: 0 <= i < n ==> r[i] == '0'
  {
    seq(n, _ => '0')
  }

  function PadStart(s: string, n: nat): string {
    if |s| < n then Zeros(n - |s|) + s else s
  }

  function PadEnd(s: string, n: nat): string {
    if |s| < n then s + Zeros(n - |s|) else s
  }

  function Take(s: string, n: nat): string {
    if |s| <= n then s else s[..n]
  }

  function TrimZeros(s: string): string {
    if s == [] || s[|s| - 1] != '0' then s else TrimZeros(s[..|s| - 1])
  }

  /** A comma before every group of three digits, counted from the right. */
  function Grouped(s: string): string {
    if |s| <= 3 then s else Grouped(s[..|s| - 3]) + "," + s[|s| - 3..]
  }

  function WithoutCommas(s: string): string {
    if s == [] then []
    else WithoutCommas(s[..|s| - 1]) + if s[|s| - 1] == ',' then [] else [s[|s| - 1]]
  }

  /** The digits printed after the point when there is a fraction. */
  function FractionText(fraction: nat, decimals: nat, minFraction: nat, maxFraction: nat): string {
    Take(PadEnd(TrimZeros(PadStart(Digits(fraction), decimals)), minFraction), maxFraction)
  }

  function WithPoint(whole: string, fraction: string): string {
    if fraction == [] then whole else whole + "." + fraction
  }

  function Quotient(a: nat, b: nat): nat
    requires b > 0
  {
    a / b
  }

  function Whole(raw: nat, decimals: nat): nat {
    Quotient(raw, Pow10(decimals))
  }

  function Fraction(raw: nat, decimals: nat): nat {
    raw % Pow10(decimals)
  }

  function FractionShown(fraction: nat, decimals: nat, minFraction: nat, maxFraction: nat): string {
    if fraction == 0 then Zeros(minFraction) else FractionText(fraction, decimals, minFraction, maxFraction)
  }

  function FormatTokenAmount(raw: nat, decimals: nat, minFraction: nat, maxFraction: nat): string {
    WithPoint(Grouped(Digits(Whole(raw, decimals))),
              FractionShown(Fraction(raw, decimals), decimals, minFraction, maxFraction))
  }

  // ---------- Parsing ----------

  /** The characters JavaScript's trim removes. */
  predicate IsSpace(c: char) {
    || c in "\t\n\r \U{000B}\U{000C}\U{00A0}\U{FEFF}\U{1680}\U{2028}\U{2029}\U{202F}\U{205F}\U{3000}"
    || '\U{2000}' <= c <= '\U{200A}'
  }

  function TrimStart(s: string): string {
    if s == [] || !IsSpace(s[0]) then s else TrimStart(s[1..])
  }

  function TrimEnd(s: string): string {
    if s == [] || !IsSpace(s[|s| - 1]) then s else TrimEnd(s[..|s| - 1])
  }

  datatype Parts = Parts(whole: string, fraction: string)

  /** The text before the first point, and after it if there is one. */
  function SplitAtPoint(s: string): Parts {
    if s == [] then Parts([], [])
    else if s[0] == '.' then Parts([], s[1..])
    else
      var p := SplitAtPoint(s[1..]);
      Parts([s[0]] + p.whole, p.fraction)
  }

  /** One or more digits, then perhaps a point and one or more digits. */
  predicate IsNumber(s: string) {
    var p := SplitAtPoint(s);
    p.whole != [] && AllDigits(p.whole) && AllDigits(p.fraction) && ('.' in s ==> p.fraction != [])
  }

  datatype Parsed = Amount(n: nat) | AmountRequired | InvalidNumber

  function ParseUnits(value: string, decimals: nat): Parsed {
    var sanitized := TrimEnd(TrimStart(value));
    if sanitized == [] then AmountRequired
    else if !IsNumber(sanitized) then InvalidNumber
    else
      var p := SplitAtPoint(sanitized);
      AllDigitsPadded(p.fraction, decimals);
      Amount(Number(p.whole + PadEnd(Take(p.fraction, decimals), decimals)))
  }

  lemma AllDigitsPadded(s: string, n: nat)
    requires AllDigits(s)
    ensures AllDigits(PadEnd(Take(s, n), n)) && |PadEnd(Take(s, n), n)| == n
  {
  }

  // ---------- Numbers ----------

  lemma {:induction false} Pow10Add(a: nat, b: nat)
    ensures Pow10(a + b) == Pow10(a) * Pow10(b)
  {
    if a != 0 {
      Pow10Add(a - 1, b);
      assert Pow10(a) * Pow10(b) == 10 * (Pow10(a - 1) * Pow10(b));
    }
  }

  lemma {:induction false} NumberBelow(s: string)
    requires AllDigits(s)
    ensures Number(s) < Pow10(|s|)
  {
    if s != [] {
      NumberBelow(s[..|s| - 1]);
    }
  }

  lemma {:induction false} NumberOfZeros(n: nat)
    ensures Number(Zeros(n)) == 0
  {
    if n > 0 {
      NumberOfZeros(n - 1);
      assert Zeros(n)[..n - 1] == Zeros(n - 1);
    }
  }

  /** The shortest notation of a number below 10^n has at most n digits, or one. */
  lemma {:induction false} DigitsFit(x: nat, n: nat)
    requires x < Pow10(n) && n > 0
    ensures |Digits(x)| <= n
  {
    if x >= 10 {
      assert n > 1;
      DigitsFit(x / 10, n - 1);
    }
  }

  lemma PadStartNumber(x: nat, n: nat)
    requires x < Pow10(n) && n > 0
    ensures |PadStart(Digits(x), n)| == n && AllDigits(PadStart(Digits(x), n))
    ensures Number(PadStart(Digits(x), n)) == x
  {
    hide Number, Digits, Pow10;
    DigitsFit(x, n);
    NumberOfDigits(x);
    var s := Digits(x);
    if |s| < n {
      NumberConcat(Zeros(n - |s|), s);
      NumberOfZeros(n - |s|);
    }
  }

  /** Replacing the last digits by zeros rounds down to a multiple of their weight. */
  lemma ZeroedTail(s: string, c: nat)
    requires AllDigits(s) && c <= |s|
    ensures AllDigits(s[..c] + Zeros(|s| - c))
    ensures var unit := Pow10(|s| - c);
      var low := Number(s[..c] + Zeros(|s| - c));
      low == unit * Number(s[..c]) && low <= Number(s) < low + unit
  {
    hide Number, Pow10;
    assert s == s[..c] + s[c..];
    NumberConcat(s[..c], s[c..]);
    NumberBelow(s[c..]);
    NumberConcat(s[..c], Zeros(|s| - c));
    NumberOfZeros(|s| - c);
  }

  // ---------- The printed fraction ----------

  /** The places that survive printing. */
  function Kept(decimals: nat, maxFraction: nat): (c: nat)
    ensures c <= decimals && c <= maxFraction
  {
    if maxFraction <= decimals then maxFraction else decimals
  }

  lemma {:induction false} TrimZerosIsPrefix(s: string)
    ensures TrimZeros(s) <= s
    ensures forall i :: |TrimZeros(s)| <= i < |s| ==> s[i] == '0'
  {
    if s != [] && s[|s| - 1] == '0' {
      TrimZerosIsPrefix(s[..|s| - 1]);
    }
  }

  /** t has the characters of s as far as it goes, and leaves out only zeros. */
  predicate Abbreviates(t: string, s: string) {
    && (forall i :: 0 <= i < |t| && i < |s| ==> t[i] == s[i])
    && (forall i :: |t| <= i < |s| ==> s[i] == '0')
  }

  lemma TrimmedAbbreviates(s: string, minFraction: nat)
    ensures Abbreviates(PadEnd(TrimZeros(s), minFraction), s)
  {
    hide TrimZeros;
    TrimZerosIsPrefix(s);
  }

  /** Cutting an abbreviation and filling it up again keeps the first places and zeroes the others. */
  lemma CutAndFilled(t: string, s: string, maxFraction: nat)
    requires Abbreviates(t, s)
    ensures var c := Kept(|s|, maxFraction);
      PadEnd(Take(Take(t, maxFraction), |s|), |s|) == s[..c] + Zeros(|s| - c)
  {
  }

  /** Trimming, padding and cutting keep the first maxFraction places and zero the others. */
  lemma ShapedFraction(s: string, minFraction: nat, maxFraction: nat)
    ensures var t := Take(PadEnd(TrimZeros(s), minFraction), maxFraction);
      var c := Kept(|s|, maxFraction);
      PadEnd(Take(t, |s|), |s|) == s[..c] + Zeros(|s| - c)
  {
    TrimmedAbbreviates(s, minFraction);
    CutAndFilled(PadEnd(TrimZeros(s), minFraction), s, maxFraction);
  }

  lemma ShapedDigits(s: string, minFraction: nat, maxFraction: nat)
    requires AllDigits(s)
    ensures AllDigits(Take(PadEnd(TrimZeros(s), minFraction), maxFraction))
  {
  }

  // ---------- Commas, points and spaces ----------

  lemma {:induction false} WithoutCommasConcat(a: string, b: string)
    ensures WithoutCommas(a + b) == WithoutCommas(a) + WithoutCommas(b)
  {
    if b == [] {
      assert a + b == a;
    } else {
      var n := |b| - 1;
      WithoutCommasConcat(a, b[..n]);
      assert (a + b)[..|a + b| - 1] == a + b[..n];
    }
  }

  lemma {:induction false} WithoutCommasSame(s: string)
    requires ',' !in s
    ensures WithoutCommas(s) == s
  {
    if s != [] {
      WithoutCommasSame(s[..|s| - 1]);
    }
  }

  lemma CommaGoes()
    ensures WithoutCommas(",") == []
  {
  }

  lemma {:induction false} GroupedBack(s: string)
    requires ',' !in s
    ensures WithoutCommas(Grouped(s)) == s
  {
    hide WithoutCommas;
    if |s| <= 3 {
      WithoutCommasSame(s);
    } else {
      var n := |s| - 3;
      GroupedBack(s[..n]);
      WithoutCommasConcat(Grouped(s[..n]) + ",", s[n..]);
      WithoutCommasConcat(Grouped(s[..n]), ",");
      CommaGoes();
      WithoutCommasSame(s[n..]);
      assert s[..n] + s[n..] == s;
    }
  }

  lemma {:induction false} SplitDigits(whole: string, fraction: string)
    requires '.' !in whole
    ensures SplitAtPoint(whole) == Parts(whole, [])
    ensures SplitAtPoint(whole + "." + fraction) == Parts(whole, fraction)
  {
    var s := whole + "." + fraction;
    if whole == [] {
      assert s[1..] == fraction;
    } else {
      SplitDigits(whole[1..], fraction);
      assert s[1..] == whole[1..] + "." + fraction;
    }
  }

  lemma TrimPlain(s: string)
    requires s != [] && IsDigit(s[0]) && IsDigit(s[|s| - 1])
    ensures TrimEnd(TrimStart(s)) == s
  {
    TrimStartPlain(s);
    TrimEndPlain(s);
    hide TrimStart, TrimEnd, IsDigit;
  }

  lemma TrimStartPlain(s: string)
    requires s != [] && IsDigit(s[0])
    ensures TrimStart(s) == s
  {
  }

  lemma TrimEndPlain(s: string)
    requires s != [] && IsDigit(s[|s| - 1])
    ensures TrimEnd(s) == s
  {
  }

  lemma PlainIsNumber(whole: string, fraction: string)
    requires whole != [] && AllDigits(whole) && AllDigits(fraction)
    ensures IsNumber(WithPoint(whole, fraction))
    ensures SplitAtPoint(WithPoint(whole, fraction)) == Parts(whole, fraction)
  {
    hide SplitAtPoint;
    SplitDigits(whole, fraction);
  }

  /** The parser on a plain number without spaces or commas. */
  lemma ParsePlain(whole: string, fraction: string, decimals: nat)
    requires whole != [] && AllDigits(whole) && AllDigits(fraction)
    ensures AllDigits(PadEnd(Take(fraction, decimals), decimals))
    ensures ParseUnits(WithPoint(whole, fraction), decimals)
         == Amount(Number(whole + PadEnd(Take(fraction, decimals), decimals)))
  {
    hide SplitAtPoint, IsNumber, TrimEnd, TrimStart, PadEnd, Take, Number;
    AllDigitsPadded(fraction, decimals);
    PlainIsNumber(whole, fraction);
    TrimPlain(WithPoint(whole, fraction));
  }

  lemma PrintedPlain(whole: string, fraction: string)
    requires AllDigits(whole) && AllDigits(fraction)
    ensures WithoutCommas(WithPoint(Grouped(whole), fraction)) == WithPoint(whole, fraction)
  {
    GroupedBack(whole);
    if fraction != [] {
      WithoutCommasConcat(Grouped(whole) + ".", fraction);
      WithoutCommasConcat(Grouped(whole), ".");
      WithoutCommasSame(fraction);
    }
  }

  // ---------- Round trip ----------

  /** The digits the parser sees after the point stand for the fraction rounded down to the kept places. */
  lemma FractionBack(fraction: nat, decimals: nat, minFraction: nat, maxFraction: nat)
    requires fraction < Pow10(decimals)
    ensures var text := FractionShown(fraction, decimals, minFraction, maxFraction);
      var unit := Pow10(decimals - Kept(decimals, maxFraction));
      var seen := PadEnd(Take(text, decimals), decimals);
      AllDigits(text) && AllDigits(seen) && |seen| == decimals
      && Number(seen) <= fraction < Number(seen) + unit
      && exists q: nat :: Number(seen) == unit * q
  {
    hide Number, Digits, Pow10, TrimZeros, PadStart;
    var c := Kept(decimals, maxFraction);
    if fraction == 0 {
      ZeroFraction(decimals, minFraction);
      var seen := PadEnd(Take(Zeros(minFraction), decimals), decimals);
      assert Number(seen) == Pow10(decimals - c) * 0;
    } else {
      PowOne();
      PadStartNumber(fraction, decimals);
      var s := PadStart(Digits(fraction), decimals);
      ShapedFraction(s, minFraction, maxFraction);
      ShapedDigits(s, minFraction, maxFraction);
      ZeroedTail(s, c);
      assert Number(s[..c] + Zeros(decimals - c)) == Pow10(decimals - c) * Number(s[..c]);
    }
  }

  lemma PowOne()
    ensures Pow10(0) == 1
  {
  }

  lemma ZeroFraction(decimals: nat, minFraction: nat)
    ensures AllDigits(PadEnd(Take(Zeros(minFraction), decimals), decimals))
    ensures Number(PadEnd(Take(Zeros(minFraction), decimals), decimals)) == 0
  {
    hide Number;
    assert PadEnd(Take(Zeros(minFraction), decimals), decimals) == Zeros(decimals);
    NumberOfZeros(decimals);
  }

  /**
   * Parsing what was printed gives the amount rounded down to a multiple of the last printed place:
   * the amount itself when maxFraction covers all decimals.
   */
  lemma ParseOfFormat(raw: nat, decimals: nat, minFraction: nat, maxFraction: nat)
    ensures var v := ParseUnits(WithoutCommas(FormatTokenAmount(raw, decimals, minFraction, maxFraction)), decimals);
      var unit := Pow10(decimals - Kept(decimals, maxFraction));
      v.Amount? && v.n <= raw < v.n + unit && (exists q: nat :: v.n == unit * q)
      && (maxFraction >= decimals ==> v.n == raw)
  {
    hide Number, Digits, Pow10, Grouped, WithoutCommas, ParseUnits, FractionShown, PadEnd, Take, Whole, Fraction;
    var c := Kept(decimals, maxFraction);
    var whole, fraction := Whole(raw, decimals), Fraction(raw, decimals);
    var text := FractionShown(fraction, decimals, minFraction, maxFraction);
    WholeAndFraction(raw, decimals);
    FractionBack(fraction, decimals, minFraction, maxFraction);
    var seen := PadEnd(Take(text, decimals), decimals);
    PrintedPlain(Digits(whole), text);
    ParsePlain(Digits(whole), text, decimals);
    NumberConcat(Digits(whole), seen);
    NumberOfDigits(whole);
    Pow10Add(decimals - c, c);
    PowOne();
    var q: nat :| Number(seen) == Pow10(decimals - c) * q;
    Multiple(whole, Pow10(decimals - c), Pow10(c), q);
  }

  lemma WholeAndFraction(raw: nat, decimals: nat)
    ensures raw == Whole(raw, decimals) * Pow10(decimals) + Fraction(raw, decimals)
    ensures Fraction(raw, decimals) < Pow10(decimals)
  {
  }

  lemma Multiple(whole: nat, unit: nat, rest: nat, q: nat)
    ensures whole * (unit * rest) + unit * q == unit * (whole * rest + q)
  {
  }

  /** Nothing is lost exactly when the places beyond maxFraction are all zero. */
  lemma ExactIff(raw: nat, decimals: nat, minFraction: nat, maxFraction: nat)
    ensures ParseUnits(WithoutCommas(FormatTokenAmount(raw, decimals, minFraction, maxFraction)), decimals)
            == Amount(raw)
       <==> raw % Pow10(decimals - Kept(decimals, maxFraction)) == 0
  {
    var unit := Pow10(decimals - Kept(decimals, maxFraction));
    ParseOfFormat(raw, decimals, minFraction, maxFraction);
    var v := ParseUnits(WithoutCommas(FormatTokenAmount(raw, decimals, minFraction, maxFraction)), decimals);
    var q: nat :| v.n == unit * q;
    Remainder(raw, unit, q);
  }

  lemma Remainder(raw: nat, unit: nat, q: nat)
    requires unit > 0 && unit * q <= raw < unit * q + unit
    ensures raw % unit == raw - unit * q
  {
    var d: int := raw / unit - q;
    assert raw == unit * (raw / unit) + raw % unit;
    assert unit * (raw / unit) == unit * q + unit * d;
    assert unit * d == unit + unit * (d - 1) == unit * (d + 1) - unit;
    assert d >= 1 ==> unit * (d - 1) >= 0;
    assert d <= -1 ==> unit * (d + 1) <= 0;
  }
}
