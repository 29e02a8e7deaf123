/** Hexadecimal digits. */
module Hexadecimal {
  import opened Results

  function LowerDigit(n: nat): (c: char)
    requires n < 16
    ensures '0' <= c <= '9' || 'a' <= c <= 'f'
  {
    if n < 10 then ('0' as int + n) as char else ('a' as int + n - 10) as char
  }

  function UpperDigit(n: nat): (c: char)
    requires n < 16
    ensures '0' <= c <= '9' || 'A' <= c <= 'F'
  {
    if n < 10 then ('0' as int + n) as char else ('A' as int + n - 10) as char
  }

  /** The value of a digit that is not written in lower case. */
  function UpperValue(c: char): Option<nat> {
    if '0' <= c <= '9' then Some(c as int - '0' as int)
    else if 'A' <= c <= 'F' then Some(c as int - 'A' as int + 10)
    else None
  }

  /** The value of a digit in either case. */
  function DigitValue(c: char): Option<nat> {
    if 'a' <= c <= 'f' then Some(c as int - 'a' as int + 10) else UpperValue(c)
  }
}
