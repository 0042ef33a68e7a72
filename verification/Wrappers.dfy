/** What may be missing. */
module Wrappers {
  datatype Option<+T> = None | Some(value: T) {
    function UnwrapOr(dflt: T): T { if Some? then value else dflt }
  }
}
