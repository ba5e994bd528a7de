/** The optional value used wherever the exporter's C# code may see `null`. */
module Wrappers {
  datatype Option<+T> = None | Some(value: T)
}
