/**
 * Decimal digits, zero padding and the two small string operations of the
 * tick parser: `strings.HasSuffix` and `strings.Replace(s, "_", "", -1)`.
 */
module Text {

  predicate IsDigit(c: char) {
    '0' <= c <= '9'
  }

  predicate AllDigits(s: string) {
    forall i :: 0 <= i < |s| ==> IsDigit(s[i])
  }

  function DigitValue(c: char): nat
    requires IsDigit(c)
  {
    c as int - '0' as int
  }

  function DigitChar(d: nat): (c: char)
    requires d < 10
    ensures IsDigit(c) && DigitValue(c) == d
  {
    ('0' as int + d) as char
  }

  function Pow10(n: nat): (r: nat)
    ensures r >= 1
  {
    if n == 0 then 1 else 10 * Pow10(n - 1)
  }

  /** The number written by a string of decimal digits (leading zeros allowed). */
  function DigitsValue(s: string): (v: nat)
    requires AllDigits(s)
    ensures v < Pow10(|s|)
  {
    if s == [] then 0
    else
      var v0 := DigitsValue(s[..|s| - 1]);
      assert v0 + 1 <= Pow10(|s| - 1);
      v0 * 10 + DigitValue(s[|s| - 1])
  }

  /** The last `width` decimal digits of `n`, zero-padded on the left. */
  function FixedDigits(n: nat, width: nat): (r: string)
    ensures |r| == width && AllDigits(r)
  {
    if width == 0 then "" else FixedDigits(n / 10, width - 1) + [DigitChar(n % 10)]
  }

  /** Reading back `width` fixed digits gives the number, when it fits. */
  lemma {:induction false} DigitsValueOfFixed(n: nat, width: nat)
    requires n < Pow10(width)
    ensures DigitsValue(FixedDigits(n, width)) == n
  {
    if width > 0 {
      var s := FixedDigits(n, width);
      assert s[..width - 1] == FixedDigits(n / 10, width - 1);
      DigitsValueOfFixed(n / 10, width - 1);
    }
  }

  /** Writing the value of a digit string back in as many digits gives the string. */
  lemma {:induction false} FixedOfDigitsValue(s: string)
    requires AllDigits(s)
    ensures FixedDigits(DigitsValue(s), |s|) == s
  {
    if s != [] {
      var init, last := s[..|s| - 1], s[|s| - 1];
      var v := DigitsValue(s);
      assert v == DigitsValue(init) * 10 + DigitValue(last);
      assert v / 10 == DigitsValue(init) && v % 10 == DigitValue(last);
      FixedOfDigitsValue(init);
      assert s == init + [last];
    }
  }

  /** Number of digits of the shortest decimal rendering of `n`. */
  function NumDigits(n: nat): (k: nat)
    ensures k >= 1 && n < Pow10(k)
  {
    if n < 10 then 1 else 1 + NumDigits(n / 10)
  }

  /** A number at least 10^w needs more than w digits. */
  lemma {:induction false} NumDigitsAbove(n: nat, w: nat)
    ensures Pow10(w) <= n ==> w < NumDigits(n)
  {
    if w > 0 && Pow10(w) <= n {
      NumDigitsAbove(n / 10, w - 1);
    }
  }

  /**
   * `n` in decimal, zero-padded to at least `width` digits: Go's padded integer
   * rendering used by the "2006", "01", "02", "15", "04", "05" layout elements
   * and by the "%06d" verb.
   */
  function PadNat(n: nat, width: nat): (r: string)
    ensures AllDigits(r) && |r| >= width && DigitsValue(r) == n
    ensures n < Pow10(width) ==> |r| == width
    ensures Pow10(width) <= n ==> |r| == NumDigits(n)
    ensures |r| > width ==> r[0] != '0'
  {
    var k := if n < Pow10(width) then width else NumDigits(n);
    NumDigitsAbove(n, width);
    DigitsValueOfFixed(n, k);
    if n == 0 then FixedDigits(n, k)
    else
      LeadingDigit(n);
      FixedDigits(n, k)
  }

  /** The shortest rendering of a positive number does not start with '0'. */
  lemma {:induction false} LeadingDigit(n: nat)
    requires n >= 1
    ensures FixedDigits(n, NumDigits(n))[0] != '0'
  {
    if n >= 10 {
      LeadingDigit(n / 10);
      assert FixedDigits(n, NumDigits(n)) == FixedDigits(n / 10, NumDigits(n / 10)) + [DigitChar(n % 10)];
    }
  }

  /** A one-digit number padded to two digits. */
  lemma PadTwoDigits(n: nat)
    requires n < 10
    ensures PadNat(n, 2) == ['0', DigitChar(n)]
  {
    assert FixedDigits(n, 2) == FixedDigits(0, 1) + [DigitChar(n)];
  }

  /** A four-digit number written in four digits. */
  lemma PadFourDigits(n: nat)
    requires 1000 <= n < 10000
    ensures PadNat(n, 4) == [DigitChar(n / 1000), DigitChar(n / 100 % 10), DigitChar(n / 10 % 10), DigitChar(n % 10)]
  {
    assert n / 10 / 10 == n / 100 && n / 100 / 10 == n / 1000;
    assert Pow10(4) == 10000;
    assert FixedDigits(n, 4) == FixedDigits(n / 10, 3) + [DigitChar(n % 10)];
    assert FixedDigits(n / 10, 3) == FixedDigits(n / 100, 2) + [DigitChar(n / 10 % 10)];
    assert FixedDigits(n / 100, 2) == FixedDigits(n / 1000, 1) + [DigitChar(n / 100 % 10)];
    assert FixedDigits(n / 1000, 1) == FixedDigits(n / 10000, 0) + [DigitChar(n / 1000 % 10)];
  }

  predicate HasSuffix(s: string, suffix: string) {
    |suffix| <= |s| && s[|s| - |suffix|..] == suffix
  }

  /** Every occurrence of `c` removed from `s`, the rest kept in order. */
  function RemoveAll(s: string, c: char): (r: string)
    ensures c !in r
    ensures forall x :: x != c ==> multiset(r)[x] == multiset(s)[x]
    ensures c !in s ==> r == s
  {
    if s == [] then ""
    else
      var rest := RemoveAll(s[1..], c);
      assert s == [s[0]] + s[1..];
      if s[0] == c then rest else [s[0]] + rest
  }

  /** Removal distributes over concatenation, so the kept characters stay in order. */
  lemma {:induction false} RemoveAllConcat(a: string, b: string, c: char)
    ensures RemoveAll(a + b, c) == RemoveAll(a, c) + RemoveAll(b, c)
  {
    if a != [] {
      assert (a + b)[1..] == a[1..] + b;
      RemoveAllConcat(a[1..], b, c);
    } else {
      assert a + b == b;
    }
  }

  /** Position of the first `c` in `s`. */
  function FirstIndex(s: string, c: char): (i: nat)
    requires c in s
    ensures i < |s| && s[i] == c && c !in s[..i]
  {
    if s[0] == c then 0
    else
      var i := 1 + FirstIndex(s[1..], c);
      assert s[..i] == [s[0]] + s[1..][..i - 1];
      i
  }

  /** The pieces of `s` between occurrences of `sep`. */
  function Split(s: string, sep: char): (parts: seq<string>)
    ensures |parts| >= 1
    decreases |s|
  {
    if sep !in s then [s]
    else
      var i := FirstIndex(s, sep);
      [s[..i]] + Split(s[i + 1..], sep)
  }

  /** The pieces written one after another with `sep` between them. */
  function Join(parts: seq<string>, sep: char): string
    requires |parts| >= 1
  {
    if |parts| == 1 then parts[0] else parts[0] + [sep] + Join(parts[1..], sep)
  }

  /** The first `c` is at `i` when `s[i]` is a `c` and none comes before it. */
  lemma {:induction false} FirstIndexAt(s: string, c: char, i: nat)
    requires i < |s| && s[i] == c && c !in s[..i]
    ensures FirstIndex(s, c) == i
  {
    if i > 0 {
      assert s[0] == s[..i][0];
      assert s[1..][..i - 1] == s[1..i];
      FirstIndexAt(s[1..], c, i - 1);
    }
  }

  /** Splitting at a first separator peels off the piece before it. */
  lemma SplitFirst(head: string, rest: string, sep: char)
    requires sep !in head
    ensures Split(head + [sep] + rest, sep) == [head] + Split(rest, sep)
  {
    var s := head + [sep] + rest;
    assert s[..|head|] == head;
    FirstIndexAt(s, sep, |head|);
    assert s[|head| + 1..] == rest;
  }

  /** Splitting a joined line gives its pieces back, when no piece holds the separator. */
  lemma {:induction false} SplitJoin(parts: seq<string>, sep: char)
    requires |parts| >= 1
    requires forall p :: p in parts ==> sep !in p
    ensures Split(Join(parts, sep), sep) == parts
  {
    if |parts| > 1 {
      var rest := parts[1..];
      assert parts == [parts[0]] + rest;
      assert Join(parts, sep) == parts[0] + [sep] + Join(rest, sep);
      SplitFirst(parts[0], Join(rest, sep), sep);
      assert forall p :: p in rest ==> p in parts;
      SplitJoin(rest, sep);
    }
  }
}
