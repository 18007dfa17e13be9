/** The Option type used wherever `LibreOffice.cs` returns a possibly-null reference. */
module Wrappers {
  datatype Option<+T> = None | Some(value: T)
}
