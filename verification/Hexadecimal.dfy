/** Hexadecimal digits, in the two forms that are written, and their values. */
module Hexadecimal {
  import opened Options

  const LOWER := "0123456789abcdef"
  const UPPER := "0123456789ABCDEF"

  function LowerDigit(d: nat): char
    requires d < 16
  {
    LOWER[d]
  }

  function UpperDigit(d: nat): char
    requires d < 16
  {
    UPPER[d]
  }

  function HexValue(c: char): Option<nat> {
    if '0' <= c <= '9' then Some(c as int - '0' as int)
    else if 'a' <= c <= 'f' then Some(c as int - 'a' as int + 10)
    else if 'A' <= c <= 'F' then Some(c as int - 'A' as int + 10)
    else None
  }

  lemma HexRoundTrip(d: nat)
    requires d < 16
    ensures HexValue(LowerDigit(d)) == Some(d) && HexValue(UpperDigit(d)) == Some(d)
  {
  }
}
