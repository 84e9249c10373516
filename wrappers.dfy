/** The optional value the C# code expresses with `null` (`FirstOrDefault`, `string?`). */
module Wrappers {

  datatype Option<+T> = None | Some(value: T)
}
