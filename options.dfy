/** The optional value used for the parser's lookahead slots and for fixed spellings. */
module Options {
  datatype Option<+T> = None | Some(value: T)
}
