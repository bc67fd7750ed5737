/** Amounts in the SDK: decimal text to integer units of 10^-8 and back. */
module Amounts {
  import opened Common

  const UNIT: int := 100_000_000

  predicate IsDigit(c: char) { '0' <= c <= '9' }

  predicate AllDigits(s: string) { forall i :: 0 <= i < |s| ==> IsDigit(s[i]) }

  function DigitOf(c: char): nat
    requires IsDigit(c)
  {
    c as int - '0' as int
  }

  function DigitChar(d: nat): (c: char)
    requires d < 10
    ensures IsDigit(c) && DigitOf(c) == d
  {
    ('0' as int + d) as char
  }

  /** Value of a digit text; the empty one is zero. */
  function Value(s: string): nat
    requires AllDigits(s)
  {
    if s == "" then 0 else 10 * Value(s[..|s| - 1]) + DigitOf(s[|s| - 1])
  }

  /** Decimal text without leading zeros. */
  function Digits(n: nat): (s: string)
    ensures s != "" && AllDigits(s)
  {
    if n < 10 then [DigitChar(n)] else Digits(n / 10) + [DigitChar(n % 10)]
  }

  /** `toString` of an integer: the sign comes first. */
  function IntText(n: int): string { if n < 0 then "-" + Digits(-n) else Digits(n) }

  /** `BigInt` of a text: an optional sign and digits, or nothing at all. */
  function BigInt(s: string): Option<int> {
    if s == "" then Some(0)
    else if AllDigits(s) then Some(Value(s))
    else if |s| > 1 && AllDigits(s[1..]) && s[0] == '-' then Some(0 - Value(s[1..]))
    else if |s| > 1 && AllDigits(s[1..]) && s[0] == '+' then Some(Value(s[1..]))
    else None
  }

  function Zeros(k: nat): (z: string)
    ensures |z| == k && forall i :: 0 <= i < k ==> z[i] == '0'
  {
    seq(k, _ => '0')
  }

  function PadStart(s: string, k: nat): string { if |s| >= k then s else Zeros(k - |s|) + s }

  function PadEnd(s: string, k: nat): string { if |s| >= k then s else s + Zeros(k - |s|) }

  /** The text up to the first dot, and what follows it. */
  function BeforeDot(s: string): string {
    if s == "" || s[0] == '.' then "" else [s[0]] + BeforeDot(s[1..])
  }

  function AfterDot(s: string): string {
    if s == "" then "" else if s[0] == '.' then s[1..] else AfterDot(s[1..])
  }

  /** Eight characters of fraction, filled up with zeros. */
  function FractionText(frac: string): string { PadEnd(frac, 8)[..8] }

  /** Parts after a second dot are dropped by the destructuring of `split`. */
  function ParseAmount(amount: string): Option<int> {
    var whole := BigInt(BeforeDot(amount));
    var frac := BigInt(FractionText(BeforeDot(AfterDot(amount))));
    if whole.Some? && frac.Some? then Some(whole.value * UNIT + frac.value) else None
  }

  /** Integer division and remainder that cut towards zero. */
  function DivTrunc(n: int, d: nat): int
    requires d > 0
  {
    if n >= 0 then n / d else -(-n / d)
  }

  function RemTrunc(n: int, d: nat): int
    requires d > 0
  {
    if n >= 0 then n % d else -(-n % d)
  }

  function FormatAmount(sats: int): string {
    IntText(DivTrunc(sats, UNIT)) + "." + PadStart(IntText(RemTrunc(sats, UNIT)), 8)
  }

  lemma {:induction false} ValueSnoc(s: string, c: char)
    requires AllDigits(s) && IsDigit(c)
    ensures AllDigits(s + [c]) && Value(s + [c]) == 10 * Value(s) + DigitOf(c)
  {}

  lemma {:induction false} ValueOfDigits(n: nat)
    ensures Value(Digits(n)) == n
  {
    if n >= 10 {
      ValueOfDigits(n / 10);
      ValueSnoc(Digits(n / 10), DigitChar(n % 10));
    } else {
      ValueSnoc("", DigitChar(n));
      assert "" + [DigitChar(n)] == [DigitChar(n)];
    }
  }

  lemma {:induction false} ValueOfZeros(k: nat, s: string)
    requires AllDigits(s)
    ensures AllDigits(Zeros(k) + s) && Value(Zeros(k) + s) == Value(s)
    decreases |s|, k
  {
    if s == "" {
      assert Zeros(k) + s == Zeros(k);
      if k > 0 {
        ValueOfZeros(k - 1, "");
        assert Zeros(k - 1) + "" == Zeros(k - 1);
        assert Zeros(k)[..k - 1] == Zeros(k - 1);
      }
    } else {
      var n := |s| - 1;
      ValueOfZeros(k, s[..n]);
      ValueSnoc(Zeros(k) + s[..n], s[n]);
      assert Zeros(k) + s == Zeros(k) + s[..n] + [s[n]];
    }
  }

  function Pow10(k: nat): (p: nat)
    ensures p >= 1
  {
    if k == 0 then 1 else 10 * Pow10(k - 1)
  }

  lemma {:induction false} DigitCount(n: nat, k: nat)
    requires k >= 1
    ensures |Digits(n)| <= k <==> n < Pow10(k)
  {
    if k == 1 {
      assert Pow10(1) == 10 * Pow10(0);
    } else if n >= 10 {
      DigitCount(n / 10, k - 1);
    } else {
      assert Pow10(k) == 10 * Pow10(k - 1);
    }
  }

  lemma {:induction false} PaddedSnoc(v: nat, s: string, c: char)
    requires IsDigit(c) && s != "" && |Digits(v)| <= |s| && PadStart(Digits(v), |s|) == s
    ensures var d := Digits(10 * v + DigitOf(c)); |d| <= |s| + 1 && PadStart(d, |s| + 1) == s + [c]
  {
    var w := 10 * v + DigitOf(c);
    var k := |s| - |Digits(v)|;
    assert s == Zeros(k) + Digits(v);
    assert DigitChar(DigitOf(c)) == c;
    if v > 0 {
      assert Digits(w) == Digits(v) + [c];
      assert Zeros(k) + (Digits(v) + [c]) == Zeros(k) + Digits(v) + [c];
    } else {
      assert Digits(v) == "0" && Digits(w) == [c];
      assert Zeros(k) + "0" == Zeros(k + 1);
    }
  }

  /** A digit text is its value's digits behind zeros. */
  lemma {:induction false} FixedWidth(s: string)
    requires AllDigits(s) && s != ""
    ensures |Digits(Value(s))| <= |s| && PadStart(Digits(Value(s)), |s|) == s
  {
    var n := |s| - 1;
    assert s == s[..n] + [s[n]];
    if n == 0 {
      assert Value(s[..0]) == 0;
      assert Value(s) == DigitOf(s[0]);
    } else {
      FixedWidth(s[..n]);
      PaddedSnoc(Value(s[..n]), s[..n], s[n]);
    }
  }

  lemma {:induction false} PaddingLeads(d: string, s: string)
    ensures |d| < |s| && PadStart(d, |s|) == s ==> s[0] == '0'
  {}

  /** The digit text without its leading zeros; a single zero stays. */
  function StripZeros(s: string): string {
    if |s| > 1 && s[0] == '0' then StripZeros(s[1..]) else s
  }

  lemma {:induction false} StripIsDigits(s: string)
    requires AllDigits(s) && s != ""
    ensures StripZeros(s) == Digits(Value(s))
  {
    if |s| > 1 && s[0] == '0' {
      StripIsDigits(s[1..]);
      assert s == Zeros(1) + s[1..];
      ValueOfZeros(1, s[1..]);
    } else {
      FixedWidth(s);
      PaddingLeads(Digits(Value(s)), s);
    }
  }

  lemma {:induction false} SplitAtDot(w: string, f: string)
    requires '.' !in w
    ensures BeforeDot(w + "." + f) == w && AfterDot(w + "." + f) == f
    ensures BeforeDot(w) == w && AfterDot(w) == ""
  {
    if w != "" {
      SplitAtDot(w[1..], f);
      assert (w + "." + f)[1..] == w[1..] + "." + f;
      assert [w[0]] + w[1..] == w;
    } else {
      assert ("" + "." + f)[1..] == f;
    }
  }

  lemma {:induction false} DigitsHaveNoDot(s: string)
    requires AllDigits(s)
    ensures '.' !in s
  {}

  /** Integers read back from their own text. */
  lemma {:induction false} BigIntOfText(n: int)
    ensures BigInt(IntText(n)) == Some(n) && '.' !in IntText(n)
  {
    if n >= 0 {
      ValueOfDigits(n);
      DigitsHaveNoDot(Digits(n));
    } else {
      var d := Digits(-n);
      ValueOfDigits(-n);
      DigitsHaveNoDot(d);
      assert ("-" + d)[1..] == d && ("-" + d)[0] == '-';
      assert !IsDigit(("-" + d)[0]);
    }
  }

  /** Fraction text of a formatted amount, as it is read back. */
  function FractionBack(r: int): Option<int> { BigInt(FractionText(PadStart(IntText(r), 8))) }

  /** Where the fraction of a formatted amount can be read back. A minus sign takes one of the eight
      places, so a negative fraction needs exactly seven digits. */
  predicate FractionSurvives(r: int) { r >= 0 || 1_000_000 <= -r < 10_000_000 }

  lemma {:induction false} Powers()
    ensures Pow10(6) == 1_000_000 && Pow10(7) == 10_000_000 && Pow10(8) == UNIT
  {}

  lemma {:induction false} FractionBackIff(r: int)
    requires -UNIT < r < UNIT
    ensures FractionBack(r) == Some(r) <==> FractionSurvives(r)
  {
    Powers();
    if r >= 0 {
      DigitCount(r, 8);
      ValueOfDigits(r);
      ValueOfZeros(8 - |Digits(r)|, Digits(r));
      var t := PadStart(Digits(r), 8);
      assert FractionText(t) == t;
    } else {
      NegativeFraction(-r);
    }
  }

  lemma {:induction false} NegativeFraction(m: int)
    requires 0 < m < UNIT
    ensures FractionBack(-m) == Some(-m) <==> 1_000_000 <= m < 10_000_000
  {
    Powers();
    DigitCount(m, 6);
    DigitCount(m, 7);
    DigitCount(m, 8);
    var d := Digits(m);
    var t := "-" + d;
    ValueOfDigits(m);
    if |d| == 7 {
      assert FractionText(PadStart(t, 8)) == t;
      BigIntOfText(-m);
    } else if |d| == 8 {
      assert FractionText(PadStart(t, 8)) == t[..8];
      CutDigit(d);
    } else {
      var p := PadStart(t, 8);
      assert FractionText(p) == p;
      SignInside(7 - |d|, d);
    }
  }

  /** Cutting the last of eight digits changes the value. */
  lemma {:induction false} CutDigit(d: string)
    requires AllDigits(d) && |d| == 8 && Value(d) > 0
    ensures BigInt(("-" + d)[..8]) != Some(0 - Value(d))
  {
    var t := ("-" + d)[..8];
    assert t[1..] == d[..7] && t[0] == '-';
    assert !IsDigit(t[0]);
    assert Value(d) == 10 * Value(d[..7]) + DigitOf(d[7]);
  }

  /** Zeros in front of a sign do not parse. */
  lemma {:induction false} SignInside(k: nat, d: string)
    requires k > 0
    ensures BigInt(Zeros(k) + ("-" + d)) == None
  {
    var t := Zeros(k) + ("-" + d);
    assert t[k] == '-' && !IsDigit(t[k]);
    assert t[0] == '0';
    if k >= 1 { assert t[1..][k - 1] == '-'; }
  }

  lemma {:induction false} TruncParts(n: int)
    ensures n == DivTrunc(n, UNIT) * UNIT + RemTrunc(n, UNIT) && -UNIT < RemTrunc(n, UNIT) < UNIT
  {}

  lemma {:induction false} PaddedHasNoDot(s: string, k: nat)
    requires '.' !in s
    ensures '.' !in PadStart(s, k)
  {}

  /** Parsing undoes formatting for every amount that is not negative; for negative amounts exactly
      when the fraction is zero or has seven digits. */
  lemma {:induction false} RoundTripIff(n: int)
    ensures ParseAmount(FormatAmount(n)) == Some(n) <==> FractionSurvives(RemTrunc(n, UNIT))
    ensures n >= 0 ==> ParseAmount(FormatAmount(n)) == Some(n)
  {
    hide BigInt, FractionText, PadStart, BeforeDot, AfterDot, DivTrunc, RemTrunc, IntText;
    var w, r := DivTrunc(n, UNIT), RemTrunc(n, UNIT);
    TruncParts(n);
    BigIntOfText(w);
    BigIntOfText(r);
    var f := PadStart(IntText(r), 8);
    PaddedHasNoDot(IntText(r), 8);
    SplitAtDot(IntText(w), f);
    SplitAtDot(f, "");
    FractionBackIff(r);
    RemainderSign(n);
  }

  lemma {:induction false} RemainderSign(n: int)
    ensures n >= 0 ==> RemTrunc(n, UNIT) >= 0
  {}

  /** Parsing a plain decimal and formatting again gives its canonical form: no leading zeros and
      exactly the first eight digits of the fraction, filled up with zeros. */
  lemma {:induction false} Canonical(w: string, f: string, dotted: bool)
    requires AllDigits(w) && w != "" && AllDigits(f) && (!dotted ==> f == "")
    ensures var text := if dotted then w + "." + f else w;
            ParseAmount(text) == Some(Value(w) * UNIT + Value(FractionDigits(f)))
            && FormatAmount(Value(w) * UNIT + Value(FractionDigits(f))) == StripZeros(w) + "." + FractionDigits(f)
  {
    var text := if dotted then w + "." + f else w;
    DigitsHaveNoDot(w);
    DigitsHaveNoDot(f);
    SplitAtDot(w, f);
    SplitAtDot(f, "");
    FormatParts(Value(w), FractionDigits(f));
    StripIsDigits(w);
  }

  function FractionDigits(f: string): (g: string)
    requires AllDigits(f)
    ensures AllDigits(g) && |g| == 8
    ensures forall i :: 0 <= i < 8 ==> g[i] == if i < |f| then f[i] else '0'
  {
    FractionText(f)
  }

  lemma {:induction false} FormatParts(v: nat, g: string)
    requires AllDigits(g) && |g| == 8
    ensures FormatAmount(v * UNIT + Value(g)) == Digits(v) + "." + g
  {
    FixedWidth(g);
    Powers();
    DigitCount(Value(g), 8);
    QuotientParts(v, Value(g));
  }

  lemma {:induction false} QuotientParts(v: nat, r: nat)
    requires r < UNIT
    ensures (v * UNIT + r) / UNIT == v && (v * UNIT + r) % UNIT == r
  {}
}
