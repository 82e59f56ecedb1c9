/** The range of an int, powers of two and white space, used by the other modules. */
module Machine {

  const INT_MIN := -0x8000_0000
  const INT_MAX := 0x7fff_ffff

  function Power2(n: nat): nat { if n == 0 then 1 else 2 * Power2(n - 1) }

  /** White space in the C locale. */
  predicate IsSpace(c: char) { c == ' ' || '\t' <= c <= '\r' }
}
