module Options {
  datatype Option<T> = None | Some(value: T)
}

/** What an engine reports of an attempt to change its target. */
module Mutations {
  datatype Mutation = Unmutated | Complete | Partial | Unknown
}
