/** The character classes of lib/ctype.c that the text conversions rest on. */
module Ctype {

  predicate IsSpace(c: char) {
    c == ' ' || '\t' <= c <= '\r' || c as int == 160
  }

  predicate IsDigit(c: char) {
    '0' <= c <= '9'
  }

  predicate IsXDigit(c: char) {
    IsDigit(c) || 'a' <= c <= 'f' || 'A' <= c <= 'F'
  }

  /** The value of a hexadecimal digit of either case. */
  function Unhex(c: char): nat
    requires IsXDigit(c)
  {
    if IsDigit(c) then c as nat - '0' as nat
    else if 'a' <= c <= 'f' then c as nat - 'a' as nat + 10
    else c as nat - 'A' as nat + 10
  }
}
