/** The words of JSON as RFC 8259 writes them down: numbers (section 6) and escapes (section 7). */
module JsonGrammar {
  import opened Basics
  import opened CodeUnits
  import opened Json

  predicate AreDigits(t: Text) {
    t != [] && forall k :: 0 <= k < |t| ==> IsDigit(t[k])
  }

  /** The parts a number is made of. */
  predicate AreParts(sign: Text, whole: Text, fraction: Text, exponent: Text) {
    && (sign == [] || sign == [MINUS])
    && AreDigits(whole) && (whole[0] == ZERO ==> |whole| == 1)
    && (fraction == [] || (fraction[0] == DOT && AreDigits(fraction[1..])))
    && (exponent == [] || IsPower(exponent))
  }

  predicate IsPower(exponent: Text) {
    |exponent| > 1 && (exponent[0] == 69 || exponent[0] == 101) &&
    (AreDigits(exponent[1..]) || ((exponent[1] == PLUS || exponent[1] == MINUS) && AreDigits(exponent[2..])))
  }

  ghost predicate IsNumeral(w: Text) {
    exists sign, whole, fraction, exponent ::
      AreParts(sign, whole, fraction, exponent) && w == sign + (whole + (fraction + exponent))
  }

  lemma {:induction false} DigitsRun(w: Text, i: nat)
    requires i <= |w|
    ensures forall k :: i <= k < DigitsEnd(w, i) ==> IsDigit(w[k])
    ensures DigitsEnd(w, i) < |w| ==> !IsDigit(w[DigitsEnd(w, i)])
    decreases |w| - i
  {
    if i < |w| && IsDigit(w[i]) {
      DigitsRun(w, i + 1);
    }
  }

  lemma {:induction false} DigitsEndAt(w: Text, i: nat, j: nat)
    requires i <= j <= |w| && (forall k :: i <= k < j ==> IsDigit(w[k])) && (j < |w| ==> !IsDigit(w[j]))
    ensures DigitsEnd(w, i) == j
    decreases j - i
  {
    if i < j {
      DigitsEndAt(w, i + 1, j);
    }
  }

  lemma ExponentIs(w: Text, i: nat)
    requires i <= |w|
    ensures IsExponent(w, i) <==> w[i..] == [] || IsPower(w[i..])
  {
    var e := w[i..];
    if i < |w| && (w[i] == 69 || w[i] == 101) {
      var from := if i + 1 < |w| && (w[i + 1] == PLUS || w[i + 1] == MINUS) then i + 2 else i + 1;
      DigitsRun(w, from);
      assert e[0] == w[i] && (|e| > 1 ==> e[1] == w[i + 1]) && e[1..] == w[i + 1..] && (|e| > 1 ==> e[2..] == w[i + 2..]);
      RestIsDigits(w, from);
      RestIsDigits(w, i + 1);
      if |e| > 1 && AreDigits(e[1..]) {
        assert e[1] == e[1..][0];
      }
    }
  }

  lemma RestIsDigits(w: Text, i: nat)
    requires i <= |w|
    ensures AreDigits(w[i..]) <==> i < DigitsEnd(w, i) == |w|
  {
    DigitsRun(w, i);
    if AreDigits(w[i..]) {
      assert forall k :: i <= k < |w| ==> w[k] == w[i..][k - i];
      DigitsEndAt(w, i, |w|);
    }
  }

  lemma FractionIs(w: Text, i: nat, fraction: Text, exponent: Text)
    requires i <= |w| && w[i..] == fraction + exponent
    requires (fraction == [] || (fraction[0] == DOT && AreDigits(fraction[1..]))) && (exponent == [] || IsPower(exponent))
    ensures IsFraction(w, i)
  {
    var at := i + |fraction|;
    assert w[at..] == exponent by {
      assert w[i..][|fraction|..] == exponent;
    }
    ExponentIs(w, at);
    if fraction != [] {
      assert w[i] == (fraction + exponent)[0];
      forall k | i + 1 <= k < at ensures IsDigit(w[k]) {
        assert w[k] == w[i..][k - i] == fraction[1..][k - i - 1];
      }
      assert at < |w| ==> w[at] == exponent[0];
      DigitsEndAt(w, i + 1, at);
    } else {
      assert i < |w| ==> w[i] == exponent[0];
    }
  }

  lemma FractionParts(w: Text, i: nat) returns (fraction: Text, exponent: Text)
    requires i <= |w| && IsFraction(w, i)
    ensures w[i..] == fraction + exponent
    ensures (fraction == [] || (fraction[0] == DOT && AreDigits(fraction[1..]))) && (exponent == [] || IsPower(exponent))
  {
    var at := if i < |w| && w[i] == DOT then DigitsEnd(w, i + 1) else i;
    fraction, exponent := w[i..at], w[at..];
    ExponentIs(w, at);
    if at > i {
      DigitsRun(w, i + 1);
      assert fraction[1..] == w[i + 1..at];
    }
  }

  /** A number is a sign, digits without a leading zero, a fraction and an exponent, the last two and the sign
      left out as one likes; and nothing else is one. */
  lemma NumbersAreNumerals(w: Text)
    ensures IsNumber(w) <==> IsNumeral(w)
  {
    hide IsFraction, IsPower;
    if IsNumber(w) {
      var from := if w != [] && w[0] == MINUS then 1 else 0;
      var end := DigitsEnd(w, from);
      DigitsRun(w, from);
      var fraction, exponent := FractionParts(w, end);
      var sign, whole := w[..from], w[from..end];
      assert whole[0] == w[from];
      assert AreParts(sign, whole, fraction, exponent) && w == sign + (whole + (fraction + exponent));
    }
    if IsNumeral(w) {
      var sign, whole, fraction, exponent :|
        AreParts(sign, whole, fraction, exponent) && w == sign + (whole + (fraction + exponent));
      NumeralIsNumber(w, sign, whole, fraction, exponent);
    }
  }

  lemma NumeralIsNumber(w: Text, sign: Text, whole: Text, fraction: Text, exponent: Text)
    requires AreParts(sign, whole, fraction, exponent) && w == sign + (whole + (fraction + exponent))
    ensures IsNumber(w)
  {
    var from, end := |sign|, |sign| + |whole|;
    assert w[from] == whole[0] && w[0] == (if sign == [] then whole[0] else MINUS);
    assert w[end..] == fraction + exponent;
    forall k | from <= k < end ensures IsDigit(w[k]) {
      assert w[k] == whole[k - from];
    }
    assert end < |w| ==> w[end] == (fraction + exponent)[0];
    DigitsEndAt(w, from, end);
    FractionIs(w, end, fraction, exponent);
  }

  /** The two spellings of the hexadecimal digits. */
  lemma HexDigitsAre(v: nat)
    requires v < 16
    ensures var lower, upper := Units("0123456789abcdef")[v], Units("0123456789ABCDEF")[v];
      IsHex(lower) && IsHex(upper) && HexValue(lower) as int == v && HexValue(upper) as int == v
  {}

  lemma OnlyTheseAreHex(u: CodeUnit)
    requires IsHex(u)
    ensures u == Units("0123456789abcdef")[HexValue(u) as int] || u == Units("0123456789ABCDEF")[HexValue(u) as int]
  {}

  const ESCAPED: Text := [QUOTE, BACKSLASH, SLASH, 98, 102, 110, 114, 116]
  const MEANT: Text := [34, 92, 47, 8, 12, 10, 13, 9]

  /** What an escape means: of the eight short ones each its own unit, of the long ones the number they spell. */
  lemma EscapesAre(s: Text, i: nat)
    requires i + 1 < |s| && s[i] == BACKSLASH
    ensures forall k :: 0 <= k < 8 && s[i + 1] == ESCAPED[k] ==> Escape(s, i) == Got(MEANT[k], i + 2)
    ensures s[i + 1] !in ESCAPED && s[i + 1] != 117 ==> Escape(s, i).Bad?
    ensures s[i + 1] == 117 ==>
      if i + 6 <= |s| && forall k :: i + 2 <= k < i + 6 ==> IsHex(s[k]) then
        Escape(s, i).Got? && Escape(s, i).next == i + 6 && Escape(s, i).value as int ==
          HexValue(s[i + 2]) as int * 4096 + HexValue(s[i + 3]) as int * 256 + HexValue(s[i + 4]) as int * 16 + HexValue(s[i + 5]) as int
      else Escape(s, i).Bad?
  {
    hide HexValue;
    assert ESCAPED[0] == QUOTE && ESCAPED[1] == BACKSLASH && ESCAPED[2] == SLASH && ESCAPED[3] == 98;
    assert ESCAPED[4] == 102 && ESCAPED[5] == 110 && ESCAPED[6] == 114 && ESCAPED[7] == 116;
  }
}
