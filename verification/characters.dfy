/** Classes of characters that several parsers share. */
module Characters {
  predicate IsDigit(c: char) { '0' <= c <= '9' }
}
