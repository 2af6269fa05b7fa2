/** Decimal digits: `str::parse` of an unsigned number and `format!("{:0w}", n)`. */
module Decimal {
  import opened Types

  predicate IsDigit(c: char) {
    '0' <= c <= '9'
  }

  predicate AllDigits(s: string) {
    forall i :: 0 <= i < |s| ==> IsDigit(s[i])
  }

  function DigitChar(d: nat): char
    requires d < 10
  {
    ('0' as int + d) as char
  }

  /** The number a string of decimal digits denotes, most significant first. */
  function Value(s: string): nat
    requires AllDigits(s)
  {
    if s == [] then 0 else 10 * Value(s[..|s| - 1]) + (s[|s| - 1] as int - '0' as int)
  }

  function Pow10(w: nat): nat {
    if w == 0 then 1 else 10 * Pow10(w - 1)
  }

  /** `s.parse::<u32>()` (or `<i32>`) restricted to what a captured group can hold:
      it succeeds exactly on a non-empty run of ASCII digits.  Signs and overflow
      never occur in the captures and are not modelled. */
  function ParseDecimal(s: string): Option<nat> {
    if s != [] && AllDigits(s) then Some(Value(s)) else None
  }

  /** `format!("{:0width$}", n)`: the decimal digits of `n`, left-padded with
      zeros to at least `width` characters. */
  function Pad(n: nat, width: nat): string
    decreases n + width
  {
    if n < 10 && width <= 1 then [DigitChar(n)]
    else Pad(n / 10, if width == 0 then 0 else width - 1) + [DigitChar(n % 10)]
  }

  /** Formatting is undone by parsing: the padded text is all digits, is at
      least `width` long and denotes `n`. */
  lemma {:induction false} PadRoundTrip(n: nat, width: nat)
    ensures AllDigits(Pad(n, width))
    ensures |Pad(n, width)| >= 1 && |Pad(n, width)| >= width
    ensures ParseDecimal(Pad(n, width)) == Some(n)
    decreases n + width
  {
    var s := Pad(n, width);
    if n < 10 && width <= 1 {
      assert s == [DigitChar(n)];
      assert s[..0] == [];
      assert AllDigits(s);
      assert Value(s) == 10 * Value(s[..0]) + (s[0] as int - '0' as int) == n;
    } else {
      var w' := if width == 0 then 0 else width - 1;
      var t := Pad(n / 10, w');
      PadRoundTrip(n / 10, w');
      assert s == t + [DigitChar(n % 10)];
      assert s[..|s| - 1] == t;
      assert Value(s) == 10 * Value(t) + n % 10;
    }
  }

  /** A number below `10^width` is printed in exactly `width` characters. */
  lemma {:induction false} PadWidth(n: nat, width: nat)
    requires 1 <= width && n < Pow10(width)
    ensures |Pad(n, width)| == width
    decreases width
  {
    if n < 10 && width <= 1 {
    } else {
      assert width >= 2;
      assert n / 10 < Pow10(width - 1);
      PadWidth(n / 10, width - 1);
    }
  }
}
