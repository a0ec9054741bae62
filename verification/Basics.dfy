/** The option type every component shares. */
module Basics {

  datatype Option<+T> = None | Some(value: T)
}
