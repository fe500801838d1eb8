/** Decimal digit strings: rendering non-negative integers the way Go's
    `strconv.Itoa`, `fmt`'s `%d` and the `time` package's zero-padded fields do,
    and reading them back the way `strconv.ParseInt(s, 10, 64)` does. */
module Decimal {
  import opened Wrappers

  /** The largest value of Go's `int64`. */
  const MaxInt64: int := 0x7FFF_FFFF_FFFF_FFFF

  predicate IsDigit(c: char) {
    '0' <= c <= '9'
  }

  predicate AllDigits(s: string) {
    forall i :: 0 <= i < |s| ==> IsDigit(s[i])
  }

  function DigitValue(c: char): (v: nat)
    requires IsDigit(c)
    ensures v < 10
  {
    c as int - '0' as int
  }

  function DigitChar(v: nat): (c: char)
    requires v < 10
    ensures IsDigit(c) && DigitValue(c) == v
  {
    ('0' as int + v) as char
  }

  function Pow10(k: nat): (p: nat)
    ensures p >= 1
  {
    if k == 0 then 1 else 10 * Pow10(k - 1)
  }

  /** The value of a string of decimal digits, most significant digit first. */
  function DigitsValue(s: string): (v: nat)
    requires AllDigits(s)
    ensures v < Pow10(|s|)
  {
    if |s| == 0 then 0 else 10 * DigitsValue(s[..|s| - 1]) + DigitValue(s[|s| - 1])
  }

  /** The shortest decimal rendering of `n` (no sign, no leading zero). */
  function NatToDigits(n: nat): (s: string)
    ensures 1 <= |s| && AllDigits(s)
    ensures DigitsValue(s) == n
    ensures |s| > 1 ==> s[0] != '0'
  {
    if n < 10 then [DigitChar(n)]
    else
      var prefix := NatToDigits(n / 10);
      var s := prefix + [DigitChar(n % 10)];
      assert s[..|s| - 1] == prefix;
      s
  }

  /** A number below 100 padded to width two is its tens digit and its units digit. */
  lemma TwoDigitText(n: nat)
    requires n < 100
    ensures PadDigits(n, 2) == [DigitChar(n / 10), DigitChar(n % 10)]
  {
    if n >= 10 {
      assert NatToDigits(n / 10) == [DigitChar(n / 10)];
    }
  }

  /** Below 100, `padZero` agrees with padding to width two: two digits that
      read back as the number. */
  lemma PadZeroTwoDigits(n: nat)
    requires n < 100
    ensures PadZero(n) == PadDigits(n, 2)
    ensures |PadZero(n)| == 2 && AllDigits(PadZero(n)) && DigitsValue(PadZero(n)) == n
  {
    assert Pow10(2) == 100;
    PadDigitsWidth(n, 2);
    if n < 10 {
      assert Zeros(1) == "0";
    }
  }

  /** Go's `%d` / `strconv.Itoa` of an arbitrary integer. */
  function IntToString(i: int): (s: string)
    ensures 1 <= |s|
  {
    if i < 0 then "-" + NatToDigits(-i) else NatToDigits(i)
  }

  function Zeros(k: nat): (z: string)
    ensures |z| == k && AllDigits(z)
    ensures forall i :: 0 <= i < k ==> z[i] == '0'
  {
    seq(k, _ => '0')
  }

  /** The `time` package's `appendInt(b, n, width)` for `n >= 0`: the digits of
      `n`, left-padded with zeros up to `width` characters. */
  function PadDigits(n: nat, width: nat): (s: string)
    ensures AllDigits(s)
  {
    var digits := NatToDigits(n);
    if |digits| < width then Zeros(width - |digits|) + digits else digits
  }

  /** `padZero` in internal/calendar/roman.go: one leading zero below ten. */
  function PadZero(n: nat): (s: string)
    ensures |s| >= 2 && AllDigits(s)
    ensures n < 10 <==> s[0] == '0'
  {
    if n < 10 then "0" + NatToDigits(n) else NatToDigits(n)
  }

  /** `strconv.ParseInt(s, 10, 64)`: an optional `+` or `-` sign, then at
      least one decimal digit and nothing else, within the `int64` range. */
  function ParseInt64(s: string): (r: Option<int>)
    ensures r.Some? ==> -MaxInt64 - 1 <= r.value <= MaxInt64
  {
    if |s| == 0 then None
    else
      var negative := s[0] == '-';
      var body := if s[0] == '+' || s[0] == '-' then s[1..] else s;
      if |body| == 0 || !AllDigits(body) then None
      else
        var v: int := DigitsValue(body);
        if negative then (if v > MaxInt64 + 1 then None else Some(-v))
        else if v > MaxInt64 then None
        else Some(v)
  }

  lemma {:induction false} DigitsValueOfZeroPrefix(k: nat, t: string)
    requires AllDigits(t)
    ensures AllDigits(Zeros(k) + t)
    ensures DigitsValue(Zeros(k) + t) == DigitsValue(t)
  {
    var s := Zeros(k) + t;
    if |t| == 0 {
      assert s == Zeros(k);
      ZerosValue(k);
    } else {
      DigitsValueOfZeroPrefix(k, t[..|t| - 1]);
      assert s[..|s| - 1] == Zeros(k) + t[..|t| - 1];
    }
  }

  lemma {:induction false} ZerosValue(k: nat)
    ensures DigitsValue(Zeros(k)) == 0
  {
    if k > 0 {
      assert Zeros(k)[..k - 1] == Zeros(k - 1);
      ZerosValue(k - 1);
    }
  }

  /** Two digit strings of the same width with the same value are equal:
      fixed-width decimal fields are read unambiguously. */
  lemma {:induction false} DigitsValueInjective(s: string, t: string)
    requires AllDigits(s) && AllDigits(t) && |s| == |t|
    requires DigitsValue(s) == DigitsValue(t)
    ensures s == t
  {
    if |s| > 0 {
      var n := |s| - 1;
      DigitsValueInjective(s[..n], t[..n]);
      assert s == s[..n] + [s[n]];
      assert t == t[..n] + [t[n]];
    }
  }

  /** Padding to `width` yields exactly `width` characters whenever `n` fits. */
  lemma {:induction false} PadDigitsWidth(n: nat, width: nat)
    requires 1 <= width && n < Pow10(width)
    ensures |PadDigits(n, width)| == width
    ensures DigitsValue(PadDigits(n, width)) == n
  {
    DigitsLength(n, width);
    DigitsValueOfZeroPrefix(width - |NatToDigits(n)|, NatToDigits(n));
  }

  /** The rendering of `n` is at most `w` long exactly when `n < 10^w`. */
  lemma {:induction false} DigitsLength(n: nat, w: nat)
    requires 1 <= w
    ensures |NatToDigits(n)| <= w <==> n < Pow10(w)
  {
    if n >= 10 {
      if w == 1 {
        assert Pow10(1) == 10;
      } else {
        DigitsLength(n / 10, w - 1);
      }
    } else {
      Pow10AtLeast10(w);
    }
  }

  lemma {:induction false} Pow10AtLeast10(w: nat)
    requires 1 <= w
    ensures Pow10(w) >= 10
  {
    if w > 1 {
      Pow10AtLeast10(w - 1);
    }
  }

  /** Reading back the rendering of an `int64` value gives the value. */
  lemma IntToStringRoundTrip(i: int)
    requires -MaxInt64 - 1 <= i <= MaxInt64
    ensures ParseInt64(IntToString(i)) == Some(i)
  {
    var s := IntToString(i);
    if i < 0 {
      assert s[1..] == NatToDigits(-i);
    }
  }

  /** `strconv.ParseInt` accepts a leading plus sign. */
  lemma ParseInt64PlusSign(n: nat)
    requires n <= MaxInt64
    ensures ParseInt64("+" + NatToDigits(n)) == Some(n)
  {
    assert ("+" + NatToDigits(n))[1..] == NatToDigits(n);
  }

  /** A string that `ParseInt64` reads as a positive number is an optional `+`
      followed by decimal digits only. */
  lemma ParsedPositiveShape(s: string)
    requires ParseInt64(s).Some? && ParseInt64(s).value > 0
    ensures (AllDigits(s) && DigitsValue(s) == ParseInt64(s).value)
         || (s[0] == '+' && AllDigits(s[1..]) && DigitsValue(s[1..]) == ParseInt64(s).value)
  {
  }
}
