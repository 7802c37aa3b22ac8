// Decimal numbers as text: what `{}` and `{:0n}` print and what
// `str::parse::<u64>` accepts.
module Decimal {
  import opened Basics

  function Digit(n: nat): char
    requires n < 10
  {
    '0' + n as char
  }

  predicate IsDigit(c: char) {
    '0' <= c <= '9'
  }

  predicate AllDigits(s: string) {
    forall i :: 0 <= i < |s| ==> IsDigit(s[i])
  }

  // Without leading zeros.
  function Digits(n: nat): (s: string)
    ensures |s| >= 1 && AllDigits(s)
  {
    if n < 10 then [Digit(n)] else Digits(n / 10) + [Digit(n % 10)]
  }

  function Zeros(n: nat): (s: string)
    ensures |s| == n && AllDigits(s)
  {
    seq(n, _ => '0')
  }

  // At least `width` digits.
  function Pad(n: nat, width: nat): (s: string)
    ensures |s| >= 1 && |s| >= width && AllDigits(s)
  {
    var digits := Digits(n);
    if |digits| < width then Zeros(width - |digits|) + digits else digits
  }

  // The number a string of digits spells.
  function Value(s: string): nat
    requires AllDigits(s)
  {
    if s == [] then 0 else 10 * Value(s[..|s| - 1]) + (s[|s| - 1] - '0') as nat
  }

  lemma {:induction false} ValueOfDigits(n: nat)
    ensures Value(Digits(n)) == n
  {
    if n >= 10 {
      var front := Digits(n / 10);
      ValueOfDigits(n / 10);
      assert Digits(n)[..|front|] == front;
    }
  }

  lemma {:induction false} ValueOfZeros(n: nat, s: string)
    requires AllDigits(s)
    ensures AllDigits(Zeros(n) + s) && Value(Zeros(n) + s) == Value(s)
    decreases n + |s|
  {
    var all := Zeros(n) + s;
    if s != [] {
      ValueOfZeros(n, s[..|s| - 1]);
      assert all[..|all| - 1] == Zeros(n) + s[..|s| - 1];
    } else if n > 0 {
      ValueOfZeros(n - 1, []);
      assert all[..n - 1] == Zeros(n - 1) + [];
    }
  }

  lemma ValueOfPad(n: nat, width: nat)
    ensures Value(Pad(n, width)) == n
  {
    ValueOfDigits(n);
    if |Digits(n)| < width {
      ValueOfZeros(width - |Digits(n)|, Digits(n));
    }
  }

  function Pow10(k: nat): nat {
    if k == 0 then 1 else 10 * Pow10(k - 1)
  }

  // How many digits a number takes.
  lemma {:induction false} DigitsLength(n: nat, k: nat)
    requires k >= 1
    ensures |Digits(n)| <= k <==> n < Pow10(k)
    decreases k
  {
    if n >= 10 && k > 1 {
      DigitsLength(n / 10, k - 1);
    } else if n < 10 {
      Pow10Positive(k - 1);
    }
  }

  lemma {:induction false} Pow10Positive(k: nat)
    ensures Pow10(k) >= 1
  {
    if k > 0 {
      Pow10Positive(k - 1);
    }
  }

  lemma PadLength(n: nat, width: nat)
    requires width >= 1
    ensures |Pad(n, width)| == width <==> n < Pow10(width)
  {
    DigitsLength(n, width);
  }

  lemma {:induction false} ValueBound(s: string)
    requires AllDigits(s)
    ensures Value(s) < Pow10(|s|)
  {
    if s != [] {
      ValueBound(s[..|s| - 1]);
    }
  }

  const U64_END: nat := 0x1_0000_0000_0000_0000

  // `parse::<u64>`: one optional plus sign, then digits, in range.
  function ParseU64(s: string): Option<nat> {
    var digits := if s != [] && s[0] == '+' then s[1..] else s;
    if digits != [] && AllDigits(digits) && Value(digits) < U64_END then Some(Value(digits)) else None
  }

  lemma ParseOfPad(n: nat, width: nat)
    requires n < U64_END
    ensures ParseU64(Pad(n, width)) == Some(n)
  {
    ValueOfPad(n, width);
    assert IsDigit(Pad(n, width)[0]);
  }

  // Where the first dash is, or the length without one.
  function DashAt(s: string): (i: nat)
    ensures i <= |s|
    ensures forall k :: 0 <= k < i ==> s[k] != '-'
    ensures i < |s| ==> s[i] == '-'
  {
    if s == [] || s[0] == '-' then 0 else 1 + DashAt(s[1..])
  }

  lemma DashAfter(front: string, rest: string)
    requires '-' !in front
    ensures DashAt(front + "-" + rest) == |front|
  {
    var s := front + "-" + rest;
    assert s[|front|] == '-';
    assert forall k :: 0 <= k < |front| ==> s[k] == front[k];
  }

  function StripSuffix(s: string, suffix: string): Option<string> {
    if |suffix| <= |s| && s[|s| - |suffix|..] == suffix then Some(s[..|s| - |suffix|]) else None
  }
}
