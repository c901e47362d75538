/** Numbers as the DL engine stores them. Java keeps every number as a
    `double`; this model keeps the integral ones, as unbounded integers,
    and writes out the three textual conversions the engine uses. */
module Numbers {
  import opened Basics

  /** An integral `double` value. */
  type Num = int

  const INT_MIN: int := -0x8000_0000
  const INT_MAX: int := 0x7FFF_FFFF
  const LONG_MIN: int := -0x8000_0000_0000_0000
  const LONG_MAX: int := 0x7FFF_FFFF_FFFF_FFFF

  /** Drops trailing '0' characters, keeping at least one character. */
  function StripZeros(s: string): (r: string)
    requires |s| >= 1
    ensures 1 <= |r| <= |s| && r == s[..|r|]
    ensures |r| > 1 ==> r[|r| - 1] != '0'
    ensures forall i :: |r| <= i < |s| ==> s[i] == '0'
  {
    if |s| > 1 && s[|s| - 1] == '0' then StripZeros(s[..|s| - 1]) else s
  }

  /** Java's "computerized scientific notation" of a positive integral
      double of at least 10^7: one digit, '.', the remaining significant
      digits (at least one), 'E' and the decimal exponent. */
  function SciText(m: nat): (s: string)
    requires m >= 10_000_000
    ensures |s| >= 5 && '0' <= s[0] <= '9' && s[|s| - 2..] != ".0"
  {
    var digits := NatText(m);
    var tail := digits[1..];
    var kept := StripZeros(tail);
    var e := NatText(|digits| - 1);
    var r := [digits[0]] + "." + kept + "E" + e;
    assert r[|r| - 1] == e[|e| - 1];
    assert r[|r| - 2] == if |e| == 1 then 'E' else e[|e| - 2];
    r
  }

  /** `d + ""` in Java (Double.toString) for an integral double `d`:
      plain with a ".0" fraction below 10^7 in magnitude, scientific
      notation from 10^7 on. */
  function Raw(n: Num): string
  {
    if -10_000_000 < n < 10_000_000 then IntText(n) + ".0"
    else if n < 0 then "-" + SciText(-n)
    else SciText(n)
  }

  /** A raw rendering starts with '-' exactly for a negative number and
      ends in ".0" exactly below 10^7 in magnitude. */
  lemma {:induction false} RawShape(n: Num)
    ensures |Raw(n)| >= 3 && (n < 0 <==> Raw(n)[0] == '-')
    ensures -10_000_000 < n < 10_000_000 <==> Raw(n)[|Raw(n)| - 2..] == ".0"
  {
  }

  /** The rendering of getString/getStringArray: `temp - (int)temp` is
      zero exactly when the double lies in the int range, and then the
      int is printed; otherwise the raw double is. */
  function Canon(n: Num): string
  {
    if INT_MIN <= n <= INT_MAX then IntText(n) else Raw(n)
  }

  /** The canonical rendering starts with '-' exactly for a negative
      number; in the int range it has no '.', outside it is the raw
      rendering. */
  lemma {:induction false} CanonShape(n: Num)
    ensures |Canon(n)| >= 1 && (n < 0 <==> Canon(n)[0] == '-')
    ensures INT_MIN <= n <= INT_MAX ==> forall i :: 0 <= i < |Canon(n)| ==> Canon(n)[i] != '.'
    ensures !(INT_MIN <= n <= INT_MAX) ==> Canon(n) == Raw(n)
  {
    RawShape(n);
  }

  /** The writer's test `(d - (long)d) != 0.0`: the long printed when the
      test fails, None when the raw double is printed. The cast
      saturates, and LONG_MAX converted back to double is 2^63, so the
      double 2^63 passes the test and prints as LONG_MAX. */
  function WrittenLong(n: Num): (r: Option<int>)
    ensures r.Some? ==> LONG_MIN <= r.value <= LONG_MAX
  {
    if LONG_MIN <= n <= LONG_MAX then Some(n)
    else if n == LONG_MAX + 1 then Some(LONG_MAX)
    else None
  }

  /** Java's `(long)d`: saturating conversion. */
  function ToLong(n: Num): (r: int)
    ensures LONG_MIN <= r <= LONG_MAX
    ensures LONG_MIN <= n <= LONG_MAX ==> r == n
  {
    if n < LONG_MIN then LONG_MIN else if n > LONG_MAX then LONG_MAX else n
  }

  /** Every integral number in the int range renders under Canon without
      a fraction, and under Raw with the ".0" fraction appended to that
      same text. */
  lemma {:induction false} CanonVersusRaw(n: Num)
    requires INT_MIN <= n <= INT_MAX && -10_000_000 < n < 10_000_000
    ensures Raw(n) == Canon(n) + ".0"
    ensures forall i :: 0 <= i < |Canon(n)| ==> Canon(n)[i] != '.'
  {
    if n < 0 {
      assert Canon(n) == "-" + NatText(-n);
    }
  }

  /** The writer prints the value itself exactly on the long range. */
  lemma {:induction false} WrittenLongExact(n: Num)
    ensures WrittenLong(n) == Some(n) <==> LONG_MIN <= n <= LONG_MAX
  {
  }
}
