/** The nullable references of the source (a C# `string` or `List` that may be
    null) are modelled as an optional value. */
module Wrappers {

  datatype Option<+T> = None | Some(value: T)
}
