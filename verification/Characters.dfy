/** Character classes shared by the modules that read texts. */
module Characters {

  /** `\d` */
  predicate IsDigit(c: char) {
    '0' <= c <= '9'
  }
}
