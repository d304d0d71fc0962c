/** Decimal text as the firmware produces and reads it: the numerals avr-libc's
    `itoa(n, buf, 10)` writes, the `%+07ld` field of `printf`, and the signed
    numerals `atol` reads back. */
module DecimalText {

  predicate IsDigit(c: char) {
    '0' <= c <= '9'
  }

  predicate AllDigits(s: string) {
    forall i | 0 <= i < |s| :: IsDigit(s[i])
  }

  function DigitChar(d: nat): (c: char)
    requires d < 10
    ensures IsDigit(c) && c as int - '0' as int == d
  {
    ('0' as int + d) as char
  }

  function DigitValue(c: char): nat
    requires IsDigit(c)
  {
    c as int - '0' as int
  }

  function Pow10(k: nat): (p: nat)
    ensures 0 < p
  {
    if k == 0 then 1 else 10 * Pow10(k - 1)
  }

  /** The numeral of n without leading zeros, most significant digit first. */
  function Digits(n: nat): (s: string)
    ensures 0 < |s| && AllDigits(s)
  {
    if n < 10 then [DigitChar(n)] else Digits(n / 10) + [DigitChar(n % 10)]
  }

  /** The value of a string of digits, most significant first. */
  function Value(s: string): nat
    requires AllDigits(s)
  {
    if s == [] then 0 else Value(s[..|s| - 1]) * 10 + DigitValue(s[|s| - 1])
  }

  /** k zero characters. */
  function Zeros(k: nat): (r: string)
    ensures |r| == k && AllDigits(r)
  {
    if k == 0 then [] else Zeros(k - 1) + ['0']
  }

  /** A numeral padded on the left with zeros to at least w characters. */
  function ZeroPad(s: string, w: nat): (r: string)
    ensures |r| == if |s| < w then w else |s|
  {
    if |s| < w then Zeros(w - |s|) + s else s
  }

  /** `%+07ld`: a sign that is always present, then the magnitude padded with zeros
      so that the field is at least seven characters wide. */
  function SignedField(v: int): (r: string)
    ensures 7 <= |r| && (r[0] == '-') == (v < 0) && (r[0] == '+') == (0 <= v)
  {
    (if v < 0 then "-" else "+") + ZeroPad(Digits(if v < 0 then -v else v), 6)
  }

  /** A sign followed by at least one digit: the shape `atol` reads in full. */
  predicate SignedNumeral(s: string) {
    2 <= |s| && (s[0] == '+' || s[0] == '-') && AllDigits(s[1..])
  }

  /** What `atol` returns for a signed numeral. */
  function SignedValue(s: string): int
    requires SignedNumeral(s)
  {
    var m: int := Value(s[1..]);
    if s[0] == '-' then -m else m
  }

  /** Reading back the numeral of n gives n. */
  lemma {:induction false} DigitsRoundTrip(n: nat)
    ensures Value(Digits(n)) == n
  {
    if 10 <= n {
      var s := Digits(n);
      assert s[..|s| - 1] == Digits(n / 10);
      DigitsRoundTrip(n / 10);
    }
  }

  /** A numeral has exactly k digits when its value lies in [10^(k-1), 10^k). */
  lemma {:induction false} DigitCount(n: nat, k: nat)
    requires 0 < k && n < Pow10(k) && (k == 1 || Pow10(k - 1) <= n)
    ensures |Digits(n)| == k
  {
    if 10 <= n {
      assert 1 < k;
      DigitCount(n / 10, k - 1);
    }
  }

  /** A numeral below 10^k has at most k digits. */
  lemma {:induction false} DigitsAtMost(n: nat, k: nat)
    requires 0 < k && n < Pow10(k)
    ensures |Digits(n)| <= k
  {
    if 10 <= n {
      assert 1 < k;
      DigitsAtMost(n / 10, k - 1);
    }
  }

  /** A numeral of k digits stays below 10^k. */
  lemma {:induction false} ValueBelow(s: string)
    requires AllDigits(s)
    ensures Value(s) < Pow10(|s|)
  {
    if s != [] {
      ValueBelow(s[..|s| - 1]);
    }
  }

  lemma {:induction false} Pow10Monotone(j: nat, k: nat)
    requires j <= k
    ensures Pow10(j) <= Pow10(k)
  {
    if j < k {
      Pow10Monotone(j, k - 1);
    }
  }

  /** Leading zeros do not change the value of a numeral. */
  lemma {:induction false} LeadingZeros(k: nat, s: string)
    requires AllDigits(s)
    ensures Value(Zeros(k) + s) == Value(s)
  {
    if s == [] {
      assert Zeros(k) + s == Zeros(k);
      ZerosValue(k);
    } else {
      var n := |s| - 1;
      assert (Zeros(k) + s)[..k + n] == Zeros(k) + s[..n];
      LeadingZeros(k, s[..n]);
    }
  }

  lemma {:induction false} ZerosValue(k: nat)
    ensures Value(Zeros(k)) == 0
  {
    if 0 < k {
      assert Zeros(k)[..k - 1] == Zeros(k - 1);
      ZerosValue(k - 1);
    }
  }

  /** The status field reads back, through `atol`, as the value it was printed from. */
  lemma SignedFieldRoundTrip(v: int)
    ensures SignedNumeral(SignedField(v)) && SignedValue(SignedField(v)) == v
  {
    var m := if v < 0 then -v else v;
    var d := Digits(m);
    var r := SignedField(v);
    assert r[1..] == ZeroPad(d, 6);
    DigitsRoundTrip(m);
    if |d| < 6 {
      LeadingZeros(6 - |d|, d);
    }
  }
}
