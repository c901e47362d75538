/** Small shared vocabulary: optional values and the decimal and list
    renderings that Java's string conversions perform. */
module Basics {

  datatype Option<+T> = None | Some(value: T)

  /** The Java exceptions the modelled code can raise on its own. */
  datatype Exception = IndexOutOfBounds | NegativeArraySize | NullPointer

  /** A value, or the exception thrown instead of returning one. */
  datatype Result<+T> = Ok(value: T) | Thrown(error: Exception)

  /** The decimal digit character for 0 <= d < 10. */
  function DigitChar(d: nat): (c: char)
    requires d < 10
    ensures '0' <= c <= '9'
  {
    "0123456789"[d]
  }

  /** Decimal text of a natural number, most significant digit first,
      without leading zeros (Java's Long.toString for n >= 0). */
  function NatText(n: nat): (s: string)
    ensures |s| >= 1
    ensures forall i :: 0 <= i < |s| ==> '0' <= s[i] <= '9'
    ensures n < 10 <==> |s| == 1
  {
    if n < 10 then [DigitChar(n)] else NatText(n / 10) + [DigitChar(n % 10)]
  }

  /** Decimal text of an integer with a leading '-' when negative. */
  function IntText(n: int): (s: string)
    ensures |s| >= 1
    ensures (n < 0) <==> s[0] == '-'
  {
    if n < 0 then "-" + NatText(-n) else NatText(n)
  }

  /** Joins `parts` with `sep` between consecutive elements. */
  function Join(parts: seq<string>, sep: string): (s: string)
    ensures parts == [] ==> s == ""
    ensures |parts| == 1 ==> s == parts[0]
  {
    if parts == [] then ""
    else if |parts| == 1 then parts[0]
    else parts[0] + sep + Join(parts[1..], sep)
  }

  /** `n` tab characters, or none when n <= 0: the writer's tabstr loop
      `for (i = 0; i < tabs; i++) tabstr += "\t"`. */
  function Tabs(n: int): (s: string)
    ensures n <= 0 ==> s == ""
    ensures n > 0 ==> |s| == n
    ensures forall i :: 0 <= i < |s| ==> s[i] == '\t'
    decreases n
  {
    if n <= 0 then "" else Tabs(n - 1) + "\t"
  }
}
