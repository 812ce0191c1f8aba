/** The optional value used where the analyzer may produce nothing (a skipped line, a character not found). */
module Wrappers {

  datatype Option<+T> = None | Some(value: T)
}
