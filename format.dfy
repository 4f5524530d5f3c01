/**
 * `HumanBytes` of `src/utility/format.rs`: a byte count written with a binary unit, such as
 * "512 B", "1.50 KiB" or "3 MiB". Numbers are written in decimal without leading zeros;
 * the fraction, when there is one, is the hundredths of the unit, truncated.
 */
module Format {
  import opened Arithmetic

  /** `u64::MAX + 1`. */
  const U64_LIMIT: nat := 0x1_0000_0000_0000_0000

  /** The units the loop of `fmt` steps through; "PiB" follows when they run out. */
  const UNITS: seq<string> := ["KiB", "MiB", "GiB", "TiB"]

  const LAST_UNIT: string := "PiB"

  /** 1024 to the power `k`. */
  function Power(k: nat): (p: nat)
    ensures p >= 1
  {
    if k == 0 then 1 else 1024 * Power(k - 1)
  }

  // Decimal digits

  predicate IsDigit(c: char) {
    '0' <= c <= '9'
  }

  /** The number a digit stands for. */
  function DigitValue(c: char): (d: nat)
    requires IsDigit(c)
    ensures d < 10
  {
    (c as int) - ('0' as int)
  }

  function DigitChar(d: nat): (c: char)
    requires d < 10
    ensures IsDigit(c) && DigitValue(c) == d
  {
    ('0' as int + d) as char
  }

  /** `{}` of an integer: its decimal digits, most significant first, without leading zeros. */
  function Digits(n: nat): (s: string)
    ensures |s| >= 1 && forall i | 0 <= i < |s| :: IsDigit(s[i])
    ensures |s| > 1 ==> s[0] != '0'
    ensures n < 100 ==> |s| <= 2
  {
    if n < 10 then [DigitChar(n)] else Digits(n / 10) + [DigitChar(n % 10)]
  }

  /** The number a string of decimal digits denotes, as a reader takes it. */
  function Value(s: string): nat
    requires forall i | 0 <= i < |s| :: IsDigit(s[i])
  {
    if s == [] then 0 else Value(s[..|s| - 1]) * 10 + DigitValue(s[|s| - 1])
  }

  /** Reading the digits back gives the number. */
  lemma {:induction false} DigitsRoundTrip(n: nat)
    ensures Value(Digits(n)) == n
  {
    if n >= 10 {
      DigitsRoundTrip(n / 10);
      var s := Digits(n);
      assert s[..|s| - 1] == Digits(n / 10);
    }
  }

  /** Different numbers are written differently. */
  lemma DigitsInjective(m: nat, n: nat)
    requires Digits(m) == Digits(n)
    ensures m == n
  {
    DigitsRoundTrip(m);
    DigitsRoundTrip(n);
  }

  // A number with a unit

  /** The parts `write!` puts together: "{whole}.{fraction} {unit}", or "{whole} {unit}". */
  datatype Shown = Shown(whole: string, fraction: string, unit: string)

  predicate DigitString(s: string) {
    forall i | 0 <= i < |s| :: IsDigit(s[i])
  }

  /** The text of a shown number; the point is left out with an empty fraction. */
  function Render(sh: Shown): string {
    sh.whole + (if sh.fraction == [] then "" else "." + sh.fraction) + " " + sh.unit
  }

  /**
   * The hundredths of the unit a reader takes a shown number for: one digit after the point
   * is tenths, two are hundredths.
   */
  function Hundredths(sh: Shown): nat
    requires DigitString(sh.whole) && DigitString(sh.fraction) && |sh.fraction| <= 2
  {
    Value(sh.whole) * 100 + (if |sh.fraction| == 1 then 10 * Value(sh.fraction) else Value(sh.fraction))
  }

  /** The hundredths of `x / 1024`, truncated: what `write_with_point` means to show. */
  function FractionOf(x: nat): (f: nat)
    ensures f < 100
  {
    ((x % 1024) * 100) / 1024
  }

  /**
   * `write_with_point` as written: the hundredths are written with `{}`, so 5 hundredths
   * come out as ".5", which reads as five tenths.
   */
  function WithPointAsWritten(x: nat, unit: string): (sh: Shown)
    ensures DigitString(sh.whole) && DigitString(sh.fraction) && |sh.fraction| <= 2
  {
    var frac := FractionOf(x);
    Shown(Digits(x / 1024), if frac != 0 then Digits(frac) else "", unit)
  }

  /**
   * 1076 bytes (1.05 KiB) are written "1.5 KiB", and 1536 bytes (1.50 KiB) "1.50 KiB": two
   * sizes a reader takes for the same amount.
   */
  lemma AsWrittenDropsTheTensZero()
    ensures Render(WithPointAsWritten(1076, "KiB")) == "1.5 KiB"
    ensures Render(WithPointAsWritten(1536, "KiB")) == "1.50 KiB"
    ensures Hundredths(WithPointAsWritten(1076, "KiB")) == Hundredths(WithPointAsWritten(1536, "KiB")) == 150
    ensures (1076 * 100) / 1024 == 105
  {
    AsWrittenParts();
    assert Value("1") == 1 && Value("5") == 5 && Value("50") == 50 by {
      assert "1"[..0] == [] && "5"[..0] == [] && "50"[..1] == "5";
    }
  }

  /** The parts `write_with_point` puts together for 1076 and 1536 bytes. */
  lemma AsWrittenParts()
    ensures WithPointAsWritten(1076, "KiB") == Shown("1", "5", "KiB")
    ensures WithPointAsWritten(1536, "KiB") == Shown("1", "50", "KiB")
  {
    assert FractionOf(1076) == 5 && FractionOf(1536) == 50;
    assert DigitChar(0) == '0' && DigitChar(1) == '1' && DigitChar(5) == '5';
    assert Digits(1) == "1" && Digits(5) == "5" && Digits(50) == "50";
  }


  /** Two digits, the first a zero when the number is below ten: `{:02}`. */
  function TwoDigits(f: nat): (s: string)
    requires f < 100
    ensures |s| == 2 && DigitString(s) && Value(s) == f
  {
    var s := [DigitChar(f / 10), DigitChar(f % 10)];
    assert Value(s[..1]) == f / 10 by {
      assert s[..1][..0] == [];
    }
    s
  }

  /**
   * `write_with_point` with the fraction written `{:02}`: the whole units of `x / 1024`,
   * and its hundredths when there are any.
   */
  function WithPoint(x: nat, unit: string): (sh: Shown)
    ensures DigitString(sh.whole) && DigitString(sh.fraction) && |sh.fraction| <= 2
    ensures sh.unit == unit
  {
    var frac := FractionOf(x);
    Shown(Digits(x / 1024), if frac != 0 then TwoDigits(frac) else "", unit)
  }

  /** A shown number reads as `x / 1024` truncated to hundredths. */
  lemma {:induction false} WithPointReadsBack(x: nat, unit: string)
    ensures Hundredths(WithPoint(x, unit)) == (x * 100) / 1024
  {
    DigitsRoundTrip(x / 1024);
    var q := x / 1024;
    var r := x % 1024;
    assert x * 100 == (q * 100) * 1024 + r * 100;
    DivideAfterMultiple(q * 100, r * 100, 1024);
  }

  // The unit

  /**
   * `fmt` from one turn of its loop on: `val` is the count divided `i` times by 1024 and
   * `UNITS[i]` the unit it is tried with.
   */
  function FromUnit(val: nat, i: nat): (sh: Shown)
    requires i <= |UNITS|
    decreases |UNITS| - i
  {
    if i == |UNITS| then WithPoint(val, LAST_UNIT)
    else if val < 1024 * 1024 then WithPoint(val, UNITS[i])
    else FromUnit(val / 1024, i + 1)
  }

  /** `HumanBytes::fmt`: below 1024 the count in bytes, otherwise in the largest unit it reaches. */
  function HumanBytes(n: nat): string
    requires n < U64_LIMIT
  {
    if n < 1024 then Digits(n) + " B" else Render(FromUnit(n, 0))
  }

  /** The unit for `n`: 0 for KiB up to 4 for PiB. */
  function UnitIndex(n: nat): (k: nat)
    requires 1024 <= n
    ensures k <= 4 && Power(k + 1) <= n && (k < 4 ==> n < Power(k + 2))
  {
    if n < Power(2) then 0
    else if n < Power(3) then 1
    else if n < Power(4) then 2
    else if n < Power(5) then 3
    else 4
  }

  /** Dividing `k` times by 1024 is dividing by 1024^k. */
  lemma DividedRepeatedly(n: nat, k: nat)
    ensures n / Power(k) / 1024 == n / Power(k + 1)
  {
    DivideTwice(n, Power(k), 1024);
  }

  /**
   * Between the `i`-th turn of the loop and the `k`-th, the count stays at or above 1024^2,
   * so the loop divides on.
   */
  lemma {:induction false} FromUnitSkips(n: nat, i: nat, k: nat)
    requires i <= k <= |UNITS| && Power(k + 1) <= n
    ensures FromUnit(n / Power(i), i) == FromUnit(n / Power(k), k)
    decreases k - i
  {
    if i < k {
      assert Power(i + 2) <= Power(k + 1) by { PowerMonotone(i + 2, k + 1); }
      assert Power(i + 2) == (1024 * 1024) * Power(i);
      DivideLowerBound(n, Power(i), 1024 * 1024);
      DividedRepeatedly(n, i);
      FromUnitSkips(n, i + 1, k);
    }
  }

  lemma {:induction false} PowerMonotone(j: nat, k: nat)
    requires j <= k
    ensures Power(j) <= Power(k)
    decreases k
  {
    if j < k {
      PowerMonotone(j, k - 1);
    }
  }

  /**
   * The unit and the number `fmt` writes: KiB for [2^10, 2^20), MiB for [2^20, 2^30), GiB
   * for [2^30, 2^40), TiB for [2^40, 2^50) and PiB from 2^50 on, and the number is the count
   * in that unit, truncated to hundredths.
   */
  lemma {:induction false} ShowsTheLargestUnit(n: nat)
    requires 1024 <= n < U64_LIMIT
    ensures var k := UnitIndex(n);
            HumanBytes(n) == Render(WithPoint(n / Power(k), if k < 4 then UNITS[k] else LAST_UNIT))
  {
    var k := UnitIndex(n);
    FromUnitSkips(n, 0, k);
    if k < 4 {
      assert Power(k + 2) == (1024 * 1024) * Power(k);
      DivideUpperBound(n, Power(k), 1024 * 1024);
    }
  }

  /**
   * `HumanBytes::fmt`: the count in bytes below 1024; otherwise the loop tries the units in
   * turn, dividing by 1024 before each next one, and ends with PiB.
   */
  method Fmt(n: nat) returns (text: string)
    requires n < U64_LIMIT
    ensures text == HumanBytes(n)
  {
    var val := n;
    if val < 1024 {
      return Digits(val) + " B";
    }
    var i := 0;
    while i < |UNITS|
      invariant i <= |UNITS|
      invariant FromUnit(val, i) == FromUnit(n, 0)
    {
      if val < 1024 * 1024 {
        return Render(WithPoint(val, UNITS[i]));
      }
      val := val / 1024;
      i := i + 1;
    }
    return Render(WithPoint(val, LAST_UNIT));
  }
}
