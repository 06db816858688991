/**
 * Reading the decimal text of amounts and timestamps, the part of
 * `strconv.ParseFloat` that the exchange's files use: an optional sign, digits,
 * and an optional fraction after a '.', with at least one digit in all.
 * Values are exact rationals (`real`), not float64.
 */
module Decimal {
  import opened Wrappers
  import opened Text

  /** Length of the run of digits that starts `s`. */
  function DigitRun(s: string): (n: nat)
    ensures n <= |s| && AllDigits(s[..n])
    ensures n < |s| ==> !IsDigit(s[n])
  {
    if s == [] || !IsDigit(s[0]) then 0
    else
      var n := 1 + DigitRun(s[1..]);
      assert s[..n] == [s[0]] + s[1..][..n - 1];
      n
  }

  /** Value of a digit string with a '.' before its last `places` digits. */
  function Scaled(whole: nat, frac: nat, places: nat): real {
    whole as real + frac as real / Pow10(places) as real
  }

  function ParseUnsigned(s: string): Option<real> {
    var n := DigitRun(s);
    var whole, tail := s[..n], s[n..];
    if tail == [] then
      if n == 0 then None else Some(DigitsValue(whole) as real)
    else if tail[0] != '.' || !AllDigits(tail[1..]) || (n == 0 && |tail| == 1) then None
    else Some(Scaled(DigitsValue(whole), DigitsValue(tail[1..]), |tail| - 1))
  }

  predicate IsSign(c: char) {
    c == '+' || c == '-'
  }

  /**
   * Unsigned decimal text: digits and at most one '.', with at least one
   * digit ("5", "5.", ".5", "5.25").
   */
  predicate IsUnsignedText(u: string) {
    && (forall i :: 0 <= i < |u| ==> IsDigit(u[i]) || u[i] == '.')
    && multiset(u)['.'] <= 1
    && multiset(u)['.'] < |u|
  }

  /** Decimal text: an optional sign, then unsigned decimal text. */
  predicate IsDecimalText(s: string) {
    if |s| > 0 && IsSign(s[0]) then IsUnsignedText(s[1..]) else IsUnsignedText(s)
  }

  /**
   * The value of decimal text; None for any other text, where
   * `strconv.ParseFloat` reports a syntax error.
   */
  function ParseDecimal(s: string): Option<real> {
    if |s| > 0 && IsSign(s[0]) then
      match ParseUnsigned(s[1..])
      case None => None
      case Some(v) => Some(if s[0] == '-' then -v else v)
    else ParseUnsigned(s)
  }

  /** ParseDecimal accepts exactly the decimal texts. */
  lemma DecimalAccepted(s: string)
    ensures ParseDecimal(s).Some? <==> IsDecimalText(s)
  {
    if |s| > 0 && IsSign(s[0]) {
      UnsignedAccepted(s[1..]);
    } else {
      UnsignedAccepted(s);
    }
  }

  /** Text without a '.' holds no '.' in its multiset. */
  lemma NoDot(s: string)
    requires AllDigits(s)
    ensures multiset(s)['.'] == 0
  {
  }

  /** ParseUnsigned accepts exactly the unsigned decimal texts. */
  lemma UnsignedAccepted(u: string)
    ensures ParseUnsigned(u).Some? <==> IsUnsignedText(u)
  {
    var n := DigitRun(u);
    var whole, tail := u[..n], u[n..];
    if tail == [] {
      assert u == whole;
      NoDot(whole);
    } else if tail[0] == '.' {
      assert u == whole + ['.'] + tail[1..];
      DotSplit(whole, tail[1..]);
    } else {
      assert u[n] == tail[0] && !IsDigit(u[n]);
    }
  }

  /** Digits, a '.', and a rest: unsigned decimal text exactly when the rest is digits and some digit is present. */
  lemma DotSplit(w: string, rest: string)
    requires AllDigits(w)
    ensures IsUnsignedText(w + ['.'] + rest) <==> AllDigits(rest) && |w| + |rest| > 0
  {
    var u := w + ['.'] + rest;
    NoDot(w);
    assert multiset(u) == multiset(w) + multiset{'.'} + multiset(rest);
    if AllDigits(rest) {
      NoDot(rest);
      forall i | 0 <= i < |u| ensures IsDigit(u[i]) || u[i] == '.' {
        if i < |w| {
          assert u[i] == w[i];
        } else if i > |w| {
          assert u[i] == rest[i - |w| - 1];
        }
      }
    } else {
      var j :| 0 <= j < |rest| && !IsDigit(rest[j]);
      assert u[|w| + 1 + j] == rest[j];
      if rest[j] == '.' {
        assert rest[j] in multiset(rest);
      }
    }
  }

  function DecimalText(whole: nat, frac: nat, places: nat): string {
    NatText(whole) + (if places == 0 then "" else "." + FixedDigits(frac, places))
  }

  function NatText(n: nat): (r: string)
    ensures AllDigits(r) && r != []
  {
    PadNat(n, 1)
  }

  lemma {:induction false} DigitRunAll(s: string, rest: string)
    requires AllDigits(s)
    requires rest == [] || !IsDigit(rest[0])
    ensures DigitRun(s + rest) == |s|
    decreases |s|
  {
    if s != [] {
      assert (s + rest)[1..] == s[1..] + rest;
      DigitRunAll(s[1..], rest);
    }
  }

  /**
   * Digits, optionally followed by '.' and more digits, with at least one
   * digit in all, read as their value ("5", "5.", ".5" and "5.25").
   */
  lemma ParseDigits(w: string, tail: string)
    requires AllDigits(w)
    requires (tail == [] && w != []) || (tail != [] && tail[0] == '.' && AllDigits(tail[1..]) && |w| + |tail| > 1)
    ensures ParseDecimal(w + tail) == Some(Scaled(DigitsValue(w), if tail == [] then 0 else DigitsValue(tail[1..]),
                                                  if tail == [] then 0 else |tail| - 1))
  {
    var s := w + tail;
    assert !IsSign(s[0]) by {
      assert s[0] == (if w != [] then w[0] else '.');
    }
    UnsignedDigits(w, tail);
  }

  lemma UnsignedDigits(w: string, tail: string)
    requires AllDigits(w)
    requires (tail == [] && w != []) || (tail != [] && tail[0] == '.' && AllDigits(tail[1..]) && |w| + |tail| > 1)
    ensures ParseUnsigned(w + tail) == Some(Scaled(DigitsValue(w), if tail == [] then 0 else DigitsValue(tail[1..]),
                                                   if tail == [] then 0 else |tail| - 1))
  {
    var s := w + tail;
    DigitRunAll(w, tail);
    var n := DigitRun(s);
    assert n == |w| && s[..n] == w && s[n..] == tail;
    if tail == [] {
      ScaledWhole(DigitsValue(w));
    }
  }

  lemma ScaledWhole(x: nat)
    ensures Scaled(x, 0, 0) == x as real
  {
    assert Pow10(0) == 1;
  }

  /**
   * A '-' negates the value of unsigned decimal text and a '+' keeps it;
   * a second sign is rejected.
   */
  lemma ParseSigned(sign: char, u: string)
    requires IsSign(sign)
    ensures ParseDecimal([sign] + u) ==
      if u != [] && IsSign(u[0]) then None
      else match ParseDecimal(u)
        case None => None
        case Some(v) => Some(if sign == '-' then -v else v)
  {
    assert ([sign] + u)[1..] == u;
    if u != [] && IsSign(u[0]) {
      UnsignedAccepted(u);
      assert !IsUnsignedText(u) by {
        assert !IsDigit(u[0]) && u[0] != '.';
      }
    }
  }

  /** Reading decimal text back gives the number it was written from. */
  lemma DecimalRoundTrip(whole: nat, frac: nat, places: nat)
    requires frac < Pow10(places)
    ensures ParseDecimal(DecimalText(whole, frac, places)) == Some(Scaled(whole, frac, places))
  {
    if places == 0 {
      WholeRoundTrip(whole);
    } else {
      FractionRoundTrip(whole, frac, places);
    }
  }

  lemma WholeRoundTrip(whole: nat)
    ensures ParseDecimal(DecimalText(whole, 0, 0)) == Some(Scaled(whole, 0, 0))
  {
    var w := NatText(whole);
    assert w + "" == DecimalText(whole, 0, 0);
    ParseDigits(w, "");
  }

  lemma FractionRoundTrip(whole: nat, frac: nat, places: nat)
    requires places > 0 && frac < Pow10(places)
    ensures ParseDecimal(DecimalText(whole, frac, places)) == Some(Scaled(whole, frac, places))
  {
    var w, f := NatText(whole), FixedDigits(frac, places);
    var tail := "." + f;
    assert w + tail == DecimalText(whole, frac, places);
    assert tail[1..] == f && |tail| - 1 == places;
    DigitsValueOfFixed(frac, places);
    ParseDigits(w, tail);
  }
}
