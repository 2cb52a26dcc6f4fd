/**
 * Decimal digit strings: the textual form of natural numbers and integers
 * (JavaScript's `Number.prototype.toString` on integral values), fixed-width
 * zero padding (date-fns `yyyy`, `MM`, `dd` tokens) and reading digits back.
 */
module Text {

  predicate IsDigit(c: char) {
    '0' <= c <= '9'
  }

  predicate AllDigits(s: string) {
    forall i :: 0 <= i < |s| ==> IsDigit(s[i])
  }

  function DigitChar(d: nat): (c: char)
    requires d < 10
    ensures IsDigit(c)
  {
    ('0' as int + d) as char
  }

  function DigitValue(c: char): (d: nat)
    requires IsDigit(c)
    ensures d < 10 && DigitChar(d) == c
  {
    c as int - '0' as int
  }

  function Pow10(k: nat): (p: nat)
    ensures p >= 1
  {
    if k == 0 then 1 else 10 * Pow10(k - 1)
  }

  /** The value a string of decimal digits denotes (most significant first). */
  function DigitsValue(s: string): (v: nat)
    requires AllDigits(s)
    ensures v < Pow10(|s|)
  {
    if s == [] then 0 else DigitsValue(s[..|s| - 1]) * 10 + DigitValue(s[|s| - 1])
  }

  /** The shortest decimal form of `n`: no leading zeros except for "0" itself. */
  function NatToDecimal(n: nat): (s: string)
    ensures 1 <= |s| && AllDigits(s)
    ensures |s| > 1 ==> s[0] != '0'
  {
    if n < 10 then [DigitChar(n)] else NatToDecimal(n / 10) + [DigitChar(n % 10)]
  }

  /** JavaScript's decimal rendering of an integral number. */
  function IntToDecimal(i: int): (s: string)
    ensures 1 <= |s|
    ensures i >= 0 ==> AllDigits(s)
    ensures i < 0 ==> s[0] == '-' && AllDigits(s[1..])
  {
    if i < 0 then "-" + NatToDecimal(-i) else NatToDecimal(i)
  }

  /** The last `w` decimal digits of `n`, with leading zeros. */
  function FixedDigits(n: nat, w: nat): (s: string)
    ensures |s| == w && AllDigits(s)
  {
    if w == 0 then [] else FixedDigits(n / 10, w - 1) + [DigitChar(n % 10)]
  }

  /** `n` in decimal, left-padded with zeros to at least `w` digits. */
  function PadLeft(n: nat, w: nat): (s: string)
    requires 1 <= w
    ensures |s| >= w && AllDigits(s) && DigitsValue(s) == n
    ensures |s| > w ==> s[0] != '0'
    ensures n < Pow10(w) ==> |s| == w
  {
    if n < Pow10(w) then
      FixedDigitsValue(n, w);
      FixedDigits(n, w)
    else
      DecimalValue(n);
      assert |NatToDecimal(n)| > w by { DecimalLengthAtLeast(n, w); }
      NatToDecimal(n)
  }

  lemma {:induction false} FixedDigitsValue(n: nat, w: nat)
    requires n < Pow10(w)
    ensures DigitsValue(FixedDigits(n, w)) == n
  {
    if w > 0 {
      DivTenBelow(n, Pow10(w - 1));
      FixedDigitsValue(n / 10, w - 1);
      var s := FixedDigits(n, w);
      assert s[..|s| - 1] == FixedDigits(n / 10, w - 1);
    }
  }

  lemma {:induction false} DecimalValue(n: nat)
    ensures DigitsValue(NatToDecimal(n)) == n
  {
    var s := NatToDecimal(n);
    if n >= 10 {
      DecimalValue(n / 10);
      assert s[..|s| - 1] == NatToDecimal(n / 10);
    } else {
      assert s[..|s| - 1] == [];
    }
  }

  lemma {:induction false} DecimalLengthAtLeast(n: nat, w: nat)
    requires n >= Pow10(w)
    ensures |NatToDecimal(n)| > w
  {
    if w > 0 {
      DecimalLengthAtLeast(n / 10, w - 1);
    }
  }

  /** Reading `|t|` digits back and writing them at width `|t|` gives `t` again. */
  lemma {:induction false} FixedDigitsOfValue(t: string)
    requires AllDigits(t)
    ensures FixedDigits(DigitsValue(t), |t|) == t
  {
    if t != [] {
      var t', d := t[..|t| - 1], DigitValue(t[|t| - 1]);
      FixedDigitsOfValue(t');
      DivModTen(DigitsValue(t'), d);
      assert t == t' + [t[|t| - 1]];
    }
  }

  lemma DivTenBelow(n: nat, p: nat)
    requires n < 10 * p
    ensures n / 10 < p && n == n / 10 * 10 + n % 10
  {
  }

  lemma DivModTen(a: nat, d: nat)
    requires d < 10
    ensures (a * 10 + d) / 10 == a && (a * 10 + d) % 10 == d
  {
  }

  /** A digit string written back at its own width: what `PadLeft` gives for it. */
  lemma PadLeftOfValue(t: string)
    requires AllDigits(t) && 1 <= |t|
    ensures PadLeft(DigitsValue(t), |t|) == t
  {
    FixedDigitsOfValue(t);
  }

  // ---------------------------------------------------------------------------
  // Whitespace trimming: Python's `str.strip()` (what DRF's `CharField` applies)
  // and JavaScript's `String.prototype.trim()`, over ASCII whitespace.

  predicate IsSpace(c: char) {
    c == ' ' || c == '\t' || c == '\n' || c == '\r'
  }

  /** The number of whitespace characters `s` starts with. */
  function LeadingSpaces(s: string): (n: nat)
    ensures n <= |s|
    ensures forall k :: 0 <= k < n ==> IsSpace(s[k])
    ensures n < |s| ==> !IsSpace(s[n])
  {
    if s == [] || !IsSpace(s[0]) then 0
    else
      var n := LeadingSpaces(s[1..]);
      assert forall k :: 1 <= k < n + 1 ==> s[k] == s[1..][k - 1];
      n + 1
  }

  /** Where the whitespace `s` ends with begins. */
  function TrailingStart(s: string): (m: nat)
    ensures m <= |s|
    ensures forall k :: m <= k < |s| ==> IsSpace(s[k])
    ensures 0 < m ==> !IsSpace(s[m - 1])
  {
    if s == [] || !IsSpace(s[|s| - 1]) then |s|
    else TrailingStart(s[..|s| - 1])
  }

  /**
   * `s` without its leading and trailing whitespace: the slice between them,
   * empty exactly when `s` is all whitespace.
   */
  function Trim(s: string): (r: string)
    ensures r == [] <==> forall k :: 0 <= k < |s| ==> IsSpace(s[k])
    ensures r != [] ==> !IsSpace(r[0]) && !IsSpace(r[|r| - 1])
    ensures var n := LeadingSpaces(s);
            n + |r| <= |s| && r == s[n..n + |r|]
            && forall k :: n + |r| <= k < |s| ==> IsSpace(s[k])
  {
    var n := LeadingSpaces(s);
    if n == |s| then
      []
    else
      var m := TrailingStart(s);
      var r := s[n..m];
      assert r == s[n..n + |r|];
      r
  }

  /** Trimming twice is trimming once. */
  lemma TrimIdempotent(s: string)
    ensures Trim(Trim(s)) == Trim(s)
  {
    var r := Trim(s);
    if r != [] {
      assert LeadingSpaces(r) == 0;
      assert TrailingStart(r) == |r|;
      assert r[0..|r|] == r;
    }
  }
}
