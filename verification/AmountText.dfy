/** The printed and the typed text of an amount, character by character. */
module AmountText {
  import opened Options
  import opened Decimals
  import opened TokenAmounts

  // ---------- Digits ----------

  /** n without its last i digits. */
  function Dropped(n: nat, i: nat): nat {
    if i == 0 then n else Dropped(n / 10, i - 1)
  }

  /** Counted from the right, digit i stands for the tens to the power i, and no number starts with a zero but 0. */
  lemma {:induction false} DigitsMean(n: nat)
    ensures var s := Digits(n);
      && (forall i :: 0 <= i < |s| ==> s[|s| - 1 - i] as int == '0' as int + Dropped(n, i) % 10)
      && Dropped(n, |s|) == 0
      && (n > 0 ==> s[0] != '0') && (n == 0 ==> s == "0")
  {
    if n >= 10 {
      var s, t := Digits(n), Digits(n / 10);
      DigitsMean(n / 10);
      forall i | 0 <= i < |s|
        ensures s[|s| - 1 - i] as int == '0' as int + Dropped(n, i) % 10
      {
        if i > 0 {
          assert s[|s| - 1 - i] == t[|t| - 1 - (i - 1)];
        }
      }
    }
  }

  // ---------- Groups ----------

  /** Counted from the right, exactly every fourth character is a comma, and the text does not start with one. */
  lemma {:induction false} CommasEveryThree(s: string)
    requires ',' !in s
    ensures var g := Grouped(s);
      && (forall i :: 0 <= i < |g| ==> (g[|g| - 1 - i] == ',' <==> i % 4 == 3))
      && (s != [] ==> g != [] && g[0] != ',')
  {
    if |s| > 3 {
      var n := |s| - 3;
      CommasEveryThree(s[..n]);
      var h, g := Grouped(s[..n]), Grouped(s);
      forall i | 0 <= i < |g|
        ensures g[|g| - 1 - i] == ',' <==> i % 4 == 3
      {
        if i < 3 {
          assert g[|g| - 1 - i] == s[|s| - 1 - i];
        } else if i > 3 {
          assert g[|g| - 1 - i] == h[|h| - 1 - (i - 4)];
          assert i % 4 == (i - 4) % 4;
        }
      }
    }
  }

  // ---------- The fraction ----------

  lemma {:induction false} TrimZerosEnds(s: string)
    ensures var t := TrimZeros(s);
      t == [] || t[|t| - 1] != '0'
  {
    if s != [] && s[|s| - 1] == '0' {
      TrimZerosEnds(s[..|s| - 1]);
    }
  }

  lemma ShownPlaces(fraction: nat, decimals: nat, minFraction: nat, maxFraction: nat)
    requires minFraction <= maxFraction
    ensures var t := FractionShown(fraction, decimals, minFraction, maxFraction);
      && minFraction <= |t| <= maxFraction
      && (|t| > minFraction && t[|t| - 1] == '0' ==> |t| == maxFraction)
      && '.' !in t && ',' !in t
  {
    hide Digits, TrimZeros;
    if fraction != 0 {
      var s := PadStart(Digits(fraction), decimals);
      TrimZerosEnds(s);
      ShapedDigits(s, minFraction, maxFraction);
      NoSigns(FractionText(fraction, decimals, minFraction, maxFraction));
    }
  }

  lemma NoSigns(t: string)
    requires AllDigits(t)
    ensures '.' !in t && ',' !in t
  {
  }

  /**
   * What is printed: the whole amount in groups of three without a leading zero, then, if any places
   * are shown, a point and between minFraction and maxFraction of them. A zero ends the places beyond
   * minFraction only where they were cut at maxFraction.
   */
  lemma PrintedText(raw: nat, decimals: nat, minFraction: nat, maxFraction: nat)
    returns (whole: string, places: string)
    requires minFraction <= maxFraction
    ensures FormatTokenAmount(raw, decimals, minFraction, maxFraction)
         == if places == [] then whole else whole + "." + places
    ensures minFraction <= |places| <= maxFraction && '.' !in places && ',' !in places
    ensures |places| > minFraction && places[|places| - 1] == '0' ==> |places| == maxFraction
    ensures WithoutCommas(whole) == Digits(raw / Pow10(decimals)) && whole != [] && whole[0] != ','
    ensures forall i :: 0 <= i < |whole| ==> (whole[|whole| - 1 - i] == ',' <==> i % 4 == 3)
  {
    hide Digits, Grouped, FractionShown, WithoutCommas, Fraction;
    var n := Whole(raw, decimals);
    whole := Grouped(Digits(n));
    places := FractionShown(Fraction(raw, decimals), decimals, minFraction, maxFraction);
    ShownPlaces(Fraction(raw, decimals), decimals, minFraction, maxFraction);
    NoSigns(Digits(n));
    CommasEveryThree(Digits(n));
    GroupedBack(Digits(n));
  }

  // ---------- What the parser accepts ----------

  predicate AllSpaces(s: string) {
    forall i :: 0 <= i < |s| ==> IsSpace(s[i])
  }

  /** Digits, perhaps a point and more digits, and any space around them. */
  predicate Spelled(s: string, before: string, whole: string, fraction: string, after: string) {
    && AllSpaces(before) && AllSpaces(after)
    && whole != [] && AllDigits(whole) && AllDigits(fraction)
    && s == before + WithPoint(whole, fraction) + after
  }

  lemma {:induction false} TrimStartSpaces(before: string, s: string)
    requires AllSpaces(before)
    ensures TrimStart(before + s) == TrimStart(s)
  {
    if before == [] {
      assert before + s == s;
    } else {
      assert (before + s)[1..] == before[1..] + s;
      TrimStartSpaces(before[1..], s);
    }
  }

  lemma {:induction false} TrimEndSpaces(s: string, after: string)
    requires AllSpaces(after)
    ensures TrimEnd(s + after) == TrimEnd(s)
  {
    if after == [] {
      assert s + after == s;
    } else {
      var n := |after| - 1;
      assert (s + after)[..|s + after| - 1] == s + after[..n];
      TrimEndSpaces(s, after[..n]);
    }
  }

  lemma {:induction false} TrimStartCuts(s: string) returns (before: string)
    ensures AllSpaces(before) && s == before + TrimStart(s)
  {
    hide IsSpace;
    before := [];
    if s != [] && IsSpace(s[0]) {
      before := TrimStartCuts(s[1..]);
      assert s == [s[0]] + s[1..];
      before := [s[0]] + before;
    }
  }

  lemma {:induction false} TrimEndCuts(s: string) returns (after: string)
    ensures AllSpaces(after) && s == TrimEnd(s) + after
  {
    hide IsSpace;
    after := [];
    if s != [] && IsSpace(s[|s| - 1]) {
      after := TrimEndCuts(s[..|s| - 1]);
      assert s == s[..|s| - 1] + [s[|s| - 1]];
      after := after + [s[|s| - 1]];
    }
  }

  lemma {:induction false} SplitJoins(s: string)
    ensures var p := SplitAtPoint(s);
      && '.' !in p.whole
      && s == (if '.' in s then p.whole + "." + p.fraction else p.whole)
      && ('.' !in s ==> p.fraction == [])
  {
    if s != [] && s[0] != '.' {
      SplitJoins(s[1..]);
      var p, q := SplitAtPoint(s[1..]), SplitAtPoint(s);
      assert s == [s[0]] + s[1..];
      assert [s[0]] + (p.whole + "." + p.fraction) == q.whole + "." + q.fraction;
    } else if s != [] {
      assert s == "." + s[1..];
    }
  }

  /** A text is an amount exactly when it is spelled so, and then it is that number of smallest units. */
  lemma SpelledIsAmount(s: string, before: string, whole: string, fraction: string, after: string, decimals: nat)
    requires Spelled(s, before, whole, fraction, after)
    ensures AllDigits(PadEnd(Take(fraction, decimals), decimals))
    ensures ParseUnits(s, decimals) == Amount(Number(whole + PadEnd(Take(fraction, decimals), decimals)))
  {
    hide IsNumber, SplitAtPoint, Number, TrimStart, TrimEnd;
    var plain := WithPoint(whole, fraction);
    assert s == before + (plain + after);
    TrimStartSpaces(before, plain + after);
    TrimStartPlain(plain + after);
    TrimEndSpaces(plain, after);
    TrimPlain(plain);
    TrimStartPlain(plain);
    ParsePlain(whole, fraction, decimals);
  }

  lemma AmountIsSpelled(s: string, decimals: nat)
    returns (before: string, whole: string, fraction: string, after: string)
    requires ParseUnits(s, decimals).Amount?
    ensures Spelled(s, before, whole, fraction, after)
  {
    hide TrimStart, TrimEnd, SplitAtPoint, Number;
    before := TrimStartCuts(s);
    after := TrimEndCuts(TrimStart(s));
    var plain := TrimEnd(TrimStart(s));
    SplitJoins(plain);
    var p := SplitAtPoint(plain);
    whole, fraction := p.whole, p.fraction;
    assert s == before + (plain + after);
    assert s == before + plain + after;
  }

  /** Only a text of nothing but spaces lacks an amount. */
  lemma AmountRequiredIff(s: string, decimals: nat)
    ensures ParseUnits(s, decimals) == AmountRequired <==> AllSpaces(s)
  {
    hide IsNumber, SplitAtPoint, Number;
    if AllSpaces(s) {
      TrimStartSpaces(s, []);
      assert s + [] == s;
    }
    if TrimEnd(TrimStart(s)) == [] {
      NothingLeft(s);
    }
  }

  lemma NothingLeft(s: string)
    requires TrimEnd(TrimStart(s)) == []
    ensures AllSpaces(s)
  {
    hide TrimStart, TrimEnd, IsSpace;
    var before := TrimStartCuts(s);
    var after := TrimEndCuts(TrimStart(s));
  }
}
