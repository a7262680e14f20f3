/**
 * `parsePct` of renderer.js: the leftmost match of `-?\d+(\.\d+)?` in a change
 * string, read as an exact decimal. `parseFloat` is modelled on reals, so a
 * matched "-0.00" is the real 0.
 */
module Pct {
  import opened Wrappers

  predicate IsDigit(c: char) {
    '0' <= c <= '9'
  }

  predicate AllDigits(s: string) {
    forall i :: 0 <= i < |s| ==> IsDigit(s[i])
  }

  predicate HasDigit(s: string) {
    exists i :: 0 <= i < |s| && IsDigit(s[i])
  }

  /** The number a digit string denotes, most significant digit first. */
  function DigitsValue(ds: string): nat
    requires AllDigits(ds)
    decreases |ds|
  {
    if |ds| == 0 then 0
    else DigitsValue(ds[..|ds| - 1]) * 10 + (ds[|ds| - 1] as int - '0' as int)
  }

  function Pow10(n: nat): (p: nat)
    ensures p >= 1
  {
    if n == 0 then 1 else 10 * Pow10(n - 1)
  }

  /** A decimal numeral of the shape `-?\d+(\.\d+)?`: sign, integer digits and
      (possibly empty) fraction digits. */
  datatype Decimal = Decimal(neg: bool, whole: string, frac: string)

  predicate ValidDecimal(d: Decimal) {
    |d.whole| > 0 && AllDigits(d.whole) && AllDigits(d.frac)
  }

  /** The numeral as written: the fraction and its point appear only when the
      fraction has digits. */
  function DecimalText(d: Decimal): string {
    (if d.neg then "-" else "") + d.whole + (if |d.frac| > 0 then "." + d.frac else "")
  }

  /** `parseFloat` of the numeral, as an exact real. */
  function DecimalValue(d: Decimal): real
    requires ValidDecimal(d)
  {
    var m := DigitsValue(d.whole) as real + DigitsValue(d.frac) as real / Pow10(|d.frac|) as real;
    if d.neg then -m else m
  }

  // ---------------------------------------------------------------------
  // Scanning

  /** A match of `-?\d+(\.\d+)?` can begin at position `i`: a digit, or a
      minus sign followed by a digit. */
  predicate MatchStartsAt(s: string, i: int) {
    0 <= i < |s| && (IsDigit(s[i]) || (s[i] == '-' && i + 1 < |s| && IsDigit(s[i + 1])))
  }

  /** No match begins in `[lo, hi)`. */
  predicate NoMatchIn(s: string, lo: int, hi: int) {
    forall k :: lo <= k < hi ==> !MatchStartsAt(s, k)
  }

  /** `a` is where JavaScript's `String.prototype.match` finds the leftmost match. */
  predicate IsLeftmostMatch(s: string, a: int) {
    MatchStartsAt(s, a) && NoMatchIn(s, 0, a)
  }

  /** The end of the maximal run of digits starting at `i` (greedy `\d+`). */
  function DigitRunEnd(s: string, i: nat): (e: nat)
    requires i <= |s|
    ensures i <= e <= |s|
    ensures forall k :: i <= k < e ==> IsDigit(s[k])
    ensures e == |s| || !IsDigit(s[e])
    decreases |s| - i
  {
    if i < |s| && IsDigit(s[i]) then DigitRunEnd(s, i + 1) else i
  }

  /** The digits of a run, as a slice. */
  lemma RunDigits(s: string, i: nat, e: nat)
    requires i <= e <= |s|
    requires forall k :: i <= k < e ==> IsDigit(s[k])
    ensures AllDigits(s[i..e])
  {
    assert forall k :: 0 <= k < e - i ==> s[i..e][k] == s[i + k];
  }

  /** The numeral matched at `i`: greedy digits, then a fraction only when a
      point is followed by at least one digit. */
  function MatchAt(s: string, i: nat): (d: Decimal)
    requires MatchStartsAt(s, i)
    ensures ValidDecimal(d)
    ensures d.neg <==> s[i] == '-'
  {
    var j := if s[i] == '-' then i + 1 else i;
    var e := DigitRunEnd(s, j);
    RunDigits(s, j, e);
    if e + 1 < |s| && s[e] == '.' && IsDigit(s[e + 1]) then
      var f := DigitRunEnd(s, e + 1);
      RunDigits(s, e + 1, f);
      Decimal(s[i] == '-', s[j..e], s[e + 1..f])
    else
      Decimal(s[i] == '-', s[j..e], "")
  }

  /** The leftmost match start at or after `i`, scanning left to right. */
  function FirstMatchFrom(s: string, i: nat): (r: Option<nat>)
    requires i <= |s|
    ensures r.Some? ==> i <= r.value && MatchStartsAt(s, r.value) && NoMatchIn(s, i, r.value)
    ensures r.None? ==> NoMatchIn(s, i, |s|)
    decreases |s| - i
  {
    if i == |s| then None
    else if MatchStartsAt(s, i) then Some(i)
    else FirstMatchFrom(s, i + 1)
  }

  /** `parsePct(v)` for a string `v`: null for the empty string or when no
      numeral occurs, else the value of the leftmost numeral. */
  function ParsePct(v: string): (r: Option<real>)
    ensures r.None? <==> (v == "" || !HasDigit(v))
    ensures r.Some? ==> exists a :: IsLeftmostMatch(v, a) && r.value == DecimalValue(MatchAt(v, a))
  {
    if |v| == 0 then None
    else
      match FirstMatchFrom(v, 0)
      case None =>
        assert !HasDigit(v) by {
          forall k | 0 <= k < |v| ensures !IsDigit(v[k]) {
            assert !MatchStartsAt(v, k);
          }
        }
        None
      case Some(a) =>
        assert IsDigit(v[a]) || IsDigit(v[a + 1]);
        Some(DecimalValue(MatchAt(v, a)))
  }

  // ---------------------------------------------------------------------
  // Lemmas

  /** The scan finds the leftmost match wherever it is. */
  lemma FirstMatchIsLeftmost(s: string, a: nat)
    requires IsLeftmostMatch(s, a)
    ensures FirstMatchFrom(s, 0) == Some(a)
  {
  }

  lemma DigitRunEndAt(s: string, i: nat, e: nat)
    requires i <= e <= |s|
    requires AllDigits(s[i..e])
    requires e == |s| || !IsDigit(s[e])
    ensures DigitRunEnd(s, i) == e
    decreases e - i
  {
    if i < e {
      assert s[i] == s[i..e][0];
      assert s[i + 1..e] == s[i..e][1..];
      DigitRunEndAt(s, i + 1, e);
    }
  }

  /** A numeral that is not preceded by a digit or a minus sign. */
  predicate CleanPrefix(pre: string) {
    !HasDigit(pre) && (|pre| == 0 || pre[|pre| - 1] != '-')
  }

  /** A tail that does not continue the digits. */
  predicate NoDigitAhead(suf: string) {
    |suf| == 0 || !IsDigit(suf[0])
  }

  /** A tail after numeral `d` that neither continues its digits nor, when
      `d` has no fraction, starts one. After a fraction a point is harmless:
      the match has ended. */
  predicate CleanSuffix(suf: string, d: Decimal) {
    NoDigitAhead(suf) && (|d.frac| == 0 ==> |suf| == 0 || suf[0] != '.')
  }

  /** The numeral placed after `pre` is where the leftmost match starts. */
  lemma LeftmostAfterCleanPrefix(pre: string, d: Decimal, suf: string)
    requires ValidDecimal(d) && CleanPrefix(pre)
    ensures IsLeftmostMatch(pre + DecimalText(d) + suf, |pre|)
  {
    var s := pre + DecimalText(d) + suf;
    var t := DecimalText(d);
    assert s[|pre|] == t[0];
    if d.neg {
      assert s[|pre| + 1] == t[1] == d.whole[0];
    } else {
      assert t[0] == d.whole[0];
    }
    forall k | 0 <= k < |pre| ensures !MatchStartsAt(s, k) {
      assert s[k] == pre[k];
      if k + 1 < |pre| {
        assert s[k + 1] == pre[k + 1];
      }
    }
  }

  /** A slice of a slice of `s` is a slice of `s`. */
  lemma SliceOfSlice(s: string, i: nat, t: string, a: nat, b: nat)
    requires i + |t| <= |s| && s[i..i + |t|] == t
    requires a <= b <= |t|
    ensures s[i + a..i + b] == t[a..b]
  {
    assert forall k :: 0 <= k < b - a ==> s[i + a..i + b][k] == t[a..b][k];
  }

  /** The numeral `d` is written at `i` in `s`, and what follows it neither
      continues its digits nor, for a whole number, starts a fraction. */
  predicate NumeralAt(s: string, i: nat, d: Decimal) {
    var n := |DecimalText(d)|;
    i + n <= |s| && s[i..i + n] == DecimalText(d) && CleanSuffix(s[i + n..], d)
  }

  /** The parts of the written numeral, by position. */
  lemma DecimalTextParts(d: Decimal)
    ensures var t := DecimalText(d);
            var w := (if d.neg then 1 else 0);
            var e := w + |d.whole|;
            t[w..e] == d.whole &&
            (|d.frac| == 0 ==> |t| == e) &&
            (|d.frac| > 0 ==> |t| == e + 1 + |d.frac| && t[e] == '.' && t[e + 1..] == d.frac)
  {
    var sign := if d.neg then "-" else "";
    var rest := if |d.frac| > 0 then "." + d.frac else "";
    var t := DecimalText(d);
    assert t == sign + d.whole + rest;
    var e := |sign| + |d.whole|;
    assert t[|sign|..e] == d.whole;
    if |d.frac| > 0 {
      assert t[e..] == rest;
      assert t[e + 1..] == rest[1..];
    }
  }

  /** A run of digits inside the text `t` written at `i` in `s`, ended inside
      `t` by a non-digit or at its end by a clean suffix, is the greedy run. */
  lemma RunInText(s: string, i: nat, t: string, a: nat, b: nat, ds: string)
    requires i + |t| <= |s| && s[i..i + |t|] == t && NoDigitAhead(s[i + |t|..])
    requires a <= b <= |t| && t[a..b] == ds && AllDigits(ds)
    requires b < |t| ==> !IsDigit(t[b])
    ensures DigitRunEnd(s, i + a) == i + a + |ds| && s[i + a..i + a + |ds|] == ds
  {
    SliceOfSlice(s, i, t, a, b);
    if b < |t| {
      assert s[i + b] == s[i..i + |t|][b];
    } else if i + b < |s| {
      assert s[i + b] == s[i + |t|..][0];
    }
    DigitRunEndAt(s, i + a, i + b);
  }

  /** The integer digits of a numeral at `i` form the greedy run that starts
      at `j`, just after the sign. */
  lemma WholeRun(s: string, i: nat, d: Decimal, j: nat)
    requires ValidDecimal(d) && NumeralAt(s, i, d)
    requires j == i + (if d.neg then 1 else 0)
    ensures j + |d.whole| <= |s|
    ensures DigitRunEnd(s, j) == j + |d.whole| && s[j..j + |d.whole|] == d.whole
  {
    var t := DecimalText(d);
    var w := if d.neg then 1 else 0;
    DecimalTextParts(d);
    RunInText(s, i, t, w, w + |d.whole|, d.whole);
  }

  /** At `e`, just after the integer digits, come the point and the fraction
      digits when there are any. */
  lemma FracRun(s: string, i: nat, d: Decimal, e: nat)
    requires ValidDecimal(d) && NumeralAt(s, i, d) && |d.frac| > 0
    requires e == i + (if d.neg then 1 else 0) + |d.whole|
    ensures e + 1 + |d.frac| <= |s| && s[e] == '.' && IsDigit(s[e + 1])
    ensures DigitRunEnd(s, e + 1) == e + 1 + |d.frac| && s[e + 1..e + 1 + |d.frac|] == d.frac
  {
    var t := DecimalText(d);
    var e0 := (if d.neg then 1 else 0) + |d.whole|;
    DecimalTextParts(d);
    assert e == i + e0;
    assert s[e] == s[i..i + |t|][e0] == '.';
    assert t[e0 + 1..|t|] == d.frac;
    RunInText(s, i, t, e0 + 1, |t|, d.frac);
    assert e + 1 == i + (e0 + 1);
    assert s[e + 1] == s[e + 1..e + 1 + |d.frac|][0];
  }

  /** A numeral without fraction digits is followed by no point. */
  lemma NoFracRun(s: string, i: nat, d: Decimal, e: nat)
    requires ValidDecimal(d) && NumeralAt(s, i, d) && |d.frac| == 0
    requires e == i + (if d.neg then 1 else 0) + |d.whole|
    ensures !(e + 1 < |s| && s[e] == '.')
  {
    var t := DecimalText(d);
    DecimalTextParts(d);
    assert e == i + |t|;
    if e < |s| {
      assert s[e] == s[i + |t|..][0];
    }
  }

  /** `MatchAt` read off from the runs it scans. */
  lemma MatchAtFromRuns(s: string, i: nat, d: Decimal, j: nat, e: nat)
    requires MatchStartsAt(s, i) && (s[i] == '-' <==> d.neg)
    requires j == (if d.neg then i + 1 else i) && e == j + |d.whole| <= |s|
    requires DigitRunEnd(s, j) == e && s[j..e] == d.whole
    requires |d.frac| > 0 ==>
               e + 1 + |d.frac| <= |s| && s[e] == '.' && IsDigit(s[e + 1]) &&
               DigitRunEnd(s, e + 1) == e + 1 + |d.frac| && s[e + 1..e + 1 + |d.frac|] == d.frac
    requires |d.frac| == 0 ==> !(e + 1 < |s| && s[e] == '.')
    ensures MatchAt(s, i) == d
  {
  }

  /** What the scanner reads at a numeral is the numeral itself. */
  lemma MatchAtNumeral(s: string, i: nat, d: Decimal)
    requires ValidDecimal(d) && NumeralAt(s, i, d)
    ensures MatchStartsAt(s, i)
    ensures MatchAt(s, i) == d
  {
    assert MatchStartsAt(s, i) && (s[i] == '-' <==> d.neg) by {
      var t := DecimalText(d);
      DecimalTextParts(d);
      assert s[i] == t[0];
      if d.neg {
        assert s[i + 1] == t[1] == d.whole[0];
      } else {
        assert t[0] == t[0..|d.whole|][0] == d.whole[0];
      }
    }
    var j := if d.neg then i + 1 else i;
    WholeRun(s, i, d, j);
    var e := j + |d.whole|;
    if |d.frac| > 0 {
      FracRun(s, i, d, e);
    } else {
      NoFracRun(s, i, d, e);
    }
    MatchAtFromRuns(s, i, d, j, e);
  }

  /** Writing a numeral between `pre` and `suf` places it at `|pre|`. */
  lemma NumeralAtAfter(pre: string, d: Decimal, suf: string)
    requires CleanSuffix(suf, d)
    ensures NumeralAt(pre + DecimalText(d) + suf, |pre|, d)
  {
    var s := pre + DecimalText(d) + suf;
    var n := |DecimalText(d)|;
    assert s[|pre|..|pre| + n] == DecimalText(d);
    assert s[|pre| + n..] == suf;
  }

  /** Round trip: a numeral with no digit or minus sign before it, and after
      it no digit nor (for a whole number) a point, parses to its own value. */
  lemma {:induction false} ParseNumeral(pre: string, d: Decimal, suf: string)
    requires ValidDecimal(d) && CleanPrefix(pre) && CleanSuffix(suf, d)
    ensures ParsePct(pre + DecimalText(d) + suf) == Some(DecimalValue(d))
  {
    var s := pre + DecimalText(d) + suf;
    LeftmostAfterCleanPrefix(pre, d, suf);
    FirstMatchIsLeftmost(s, |pre|);
    NumeralAtAfter(pre, d, suf);
    MatchAtNumeral(s, |pre|, d);
  }

  /** A numeral without a minus sign denotes a value of at least zero. */
  lemma UnsignedNotNegative(d: Decimal)
    requires ValidDecimal(d)
    ensures !d.neg ==> DecimalValue(d) >= 0.0
  {
    var f := DigitsValue(d.frac) as real / Pow10(|d.frac|) as real;
    assert f >= 0.0;
  }

  /** A negative result comes from a numeral written with a minus sign. */
  lemma NegativeNeedsMinus(v: string)
    requires ParsePct(v).Some? && ParsePct(v).value < 0.0
    ensures exists a :: IsLeftmostMatch(v, a) && v[a] == '-'
  {
    var a :| IsLeftmostMatch(v, a) && ParsePct(v).value == DecimalValue(MatchAt(v, a));
    UnsignedNotNegative(MatchAt(v, a));
  }

  /** "+1.20%": the plus sign is not part of the match and the percent sign
      ends it. */
  lemma ParsePlusExample()
    ensures ParsePct("+1.20%") == Some(1.2)
  {
    var d := Decimal(false, "1", "20");
    assert "+" + DecimalText(d) + "%" == "+1.20%" by {
      assert DecimalText(d) == "1.20";
    }
    assert DecimalValue(d) == 1.2 by {
      assert "20"[..1] == "2" && "2"[..0] == "" && "1"[..0] == "";
      assert DigitsValue("20") == 20 && DigitsValue("1") == 1 && Pow10(2) == 100;
    }
    ParseNumeral("+", d, "%");
  }

  /** "-3.40%": the minus sign belongs to the match. */
  lemma ParseMinusExample()
    ensures ParsePct("-3.40%") == Some(-3.4)
  {
    var d := Decimal(true, "3", "40");
    assert "" + DecimalText(d) + "%" == "-3.40%" by {
      assert DecimalText(d) == "-3.40";
    }
    assert DecimalValue(d) == -3.4 by {
      assert "40"[..1] == "4" && "4"[..0] == "" && "3"[..0] == "";
      assert DigitsValue("40") == 40 && DigitsValue("3") == 3 && Pow10(2) == 100;
    }
    ParseNumeral("", d, "%");
  }

  /** "a1.2.3": a second point after the fraction ends the match. */
  lemma ParseTwoPointsExample()
    ensures ParsePct("a1.2.3") == Some(1.2)
  {
  }

  /** The placeholder dash and the empty string have no number. */
  lemma ParsePlaceholderExample()
    ensures ParsePct("—") == None
    ensures ParsePct("") == None
  {
    assert !IsDigit("—"[0]);
  }
}
