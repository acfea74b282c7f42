/** An optional value, standing for the nullable references and `int?`
    values of the application. */
module Wrappers {
  datatype Option<T> = None | Some(value: T)
}

/** The classification shared by lines and by folder items. */
module TextStates {
  datatype TextState = FullMatch | PartialMatch | New | Deleted | Filler
}
