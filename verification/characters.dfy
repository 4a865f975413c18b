// Characters of the C locale.

module Characters {
  // isspace
  predicate IsSpace(c: char) { c == ' ' || '\t' <= c <= '\r' }
}
