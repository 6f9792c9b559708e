/** Kotlin's nullable types (`String?`, `Double?`) are modelled with Option. */
module Wrappers {

  datatype Option<+T> = None | Some(value: T)
}
