/**
 What several modules share: optional values, bytes, and hexadecimal digits.
 */
module Common {
  datatype Option<T> = None | Some(value: T)

  newtype byte = x: int | 0 <= x < 0x100

  const NUL: char := '\0'

  predicate IsDigit(c: char) {
    '0' <= c <= '9'
  }

  /** A digit of the `%02x` conversion. */
  function HexDigit(n: nat): char
    requires n < 16
  {
    if n < 10 then '0' + n as char else 'a' + (n - 10) as char
  }

  /** The value of a hexadecimal digit of either case, -1 for any other character. */
  function HexValue(c: char): (r: int)
    ensures -1 <= r < 16
    ensures IsDigit(c) || 'a' <= c <= 'f' ==> r >= 0
  {
    if IsDigit(c) then c as int - '0' as int
    else if 'a' <= c <= 'f' then c as int - 'a' as int + 10
    else if 'A' <= c <= 'F' then c as int - 'A' as int + 10
    else -1
  }
}
