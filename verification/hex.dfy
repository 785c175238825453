/** Lower-case hexadecimal text, as Rust's `{:x}` and `{:0Nx}` format
    specifiers print it, and the parser that reads it back. */
module Hex {
  import opened Ints

  /** The sixteen digits `{:x}` prints, in value order. */
  const Alphabet: string := "0123456789abcdef"

  predicate IsDigit(c: char) {
    '0' <= c <= '9' || 'a' <= c <= 'f'
  }

  predicate IsLowerHex(s: string) {
    forall i :: 0 <= i < |s| ==> IsDigit(s[i])
  }

  function DigitValue(c: char): (v: nat)
    requires IsDigit(c)
    ensures v < 16 && Alphabet[v] == c
  {
    if '0' <= c <= '9' then c as int - '0' as int else c as int - 'a' as int + 10
  }

  function Pow16(k: nat): (r: nat)
    ensures r >= 1
  {
    if k == 0 then 1 else 16 * Pow16(k - 1)
  }

  /** The `w` least significant hexadecimal digits of `n`, most significant first. */
  function FixedDigits(n: nat, w: nat): (r: string)
    ensures |r| == w
  {
    if w == 0 then [] else FixedDigits(n / 16, w - 1) + [Alphabet[n % 16]]
  }

  /** How many hexadecimal digits `{:x}` prints for `n` (one for zero). */
  function Width(n: nat): (w: nat)
    ensures w >= 1
  {
    if n < 16 then 1 else 1 + Width(n / 16)
  }

  /** `format!("{:0w$x}", n)`: zero-padded to at least `minWidth` digits,
      never truncated. */
  function Format(n: nat, minWidth: nat): string
  {
    FixedDigits(n, Max(minWidth, Width(n)))
  }

  /** The value of a lower-case hexadecimal digit string. */
  function Value(s: string): nat
    requires IsLowerHex(s)
  {
    if s == [] then 0 else 16 * Value(s[..|s| - 1]) + DigitValue(s[|s| - 1])
  }

  lemma {:induction false} FixedDigitsAreHex(n: nat, w: nat)
    ensures IsLowerHex(FixedDigits(n, w))
  {
    if w > 0 {
      FixedDigitsAreHex(n / 16, w - 1);
      assert IsDigit(Alphabet[n % 16]);
    }
  }

  /** Reading back `w` printed digits recovers `n` modulo 16^w. */
  lemma {:induction false} ValueOfFixedDigits(n: nat, w: nat)
    ensures IsLowerHex(FixedDigits(n, w))
    ensures Value(FixedDigits(n, w)) == n % Pow16(w)
  {
    FixedDigitsAreHex(n, w);
    if w > 0 {
      var s := FixedDigits(n, w);
      var front := FixedDigits(n / 16, w - 1);
      assert s[..|s| - 1] == front;
      FixedDigitsAreHex(n / 16, w - 1);
      assert Value(s) == 16 * ((n / 16) % Pow16(w - 1)) + n % 16 by {
        ValueOfFixedDigits(n / 16, w - 1);
        assert DigitValue(s[|s| - 1]) == n % 16;
      }
      ModSplitDigit(n, Pow16(w - 1));
    }
  }

  /** Dropping the last digit: `n mod 16p` is `16 * ((n / 16) mod p) + n mod 16`. */
  lemma ModSplitDigit(n: nat, p: nat)
    requires p >= 1
    ensures n % (16 * p) == 16 * ((n / 16) % p) + n % 16
  {
    var q := (n / 16) / p;
    var r := (n / 16) % p;
    assert n / 16 == p * q + r;
    assert n == 16 * (p * q + r) + n % 16;
    assert n == (16 * p) * q + (16 * r + n % 16);
    DivModUnique(n, 16 * p, q, 16 * r + n % 16);
  }

  /** Reading `w` digits yields a value below 16^w. */
  lemma {:induction false} ValueBound(s: string)
    requires IsLowerHex(s)
    ensures Value(s) < Pow16(|s|)
  {
    if s != [] {
      ValueBound(s[..|s| - 1]);
    }
  }

  /** Printing the value of a digit string in as many digits gives the string back. */
  lemma {:induction false} FixedDigitsOfValue(s: string)
    requires IsLowerHex(s)
    ensures FixedDigits(Value(s), |s|) == s
  {
    if s != [] {
      var front := s[..|s| - 1];
      var d := DigitValue(s[|s| - 1]);
      var v := Value(s);
      assert v == 16 * Value(front) + d;
      assert v / 16 == Value(front) && v % 16 == d;
      FixedDigitsOfValue(front);
      assert s == front + [s[|s| - 1]];
    }
  }

  /** `Width(n)` digits hold `n`, and (above one digit) one fewer would not. */
  lemma {:induction false} WidthFits(n: nat)
    ensures n < Pow16(Width(n))
    ensures Width(n) > 1 ==> Pow16(Width(n) - 1) <= n
  {
    if n >= 16 {
      WidthFits(n / 16);
    }
  }

  /** `n` fits in `w >= 1` digits exactly when `Width(n) <= w`. */
  lemma {:induction false} FitsIffWidth(n: nat, w: nat)
    requires w >= 1
    ensures n < Pow16(w) <==> Width(n) <= w
  {
    if n >= 16 && w > 1 {
      FitsIffWidth(n / 16, w - 1);
    } else if n >= 16 {
      WidthFits(n);
    }
  }

  /** `{:0Nx}` prints lower-case digits that read back as `n`, and exactly
      `max(N, Width(n))` of them: the fewest that hold `n` (at least one),
      but no fewer than `N`. */
  lemma FormatReadsBack(n: nat, minWidth: nat)
    ensures IsLowerHex(Format(n, minWidth))
    ensures Value(Format(n, minWidth)) == n
    ensures |Format(n, minWidth)| == Max(minWidth, Width(n))
    ensures |Format(n, minWidth)| > Max(minWidth, 1) ==> Pow16(|Format(n, minWidth)| - 1) <= n
  {
    var w := Max(minWidth, Width(n));
    assert |Format(n, minWidth)| == w;
    ValueOfFixedDigits(n, w);
    WidthFits(n);
    FitsIffWidth(n, w);
    DivModUnique(n, Pow16(w), 0, n);
  }

  /** When `n` fits in `w` digits, `{:0wx}` prints exactly `w` of them. */
  lemma FormatFixedWidth(n: nat, w: nat)
    requires 1 <= w && n < Pow16(w)
    ensures Format(n, w) == FixedDigits(n, w)
    ensures |Format(n, w)| == w
  {
    FitsIffWidth(n, w);
  }

  /** Two digit strings of the same length with the same value are equal. */
  lemma ValueInjective(s: string, t: string)
    requires IsLowerHex(s) && IsLowerHex(t)
    requires |s| == |t| && Value(s) == Value(t)
    ensures s == t
  {
    FixedDigitsOfValue(s);
    FixedDigitsOfValue(t);
  }
}
