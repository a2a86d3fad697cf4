/** An optional request field: `None` when the JSON body or query lacks it. */
module Wrappers {

  datatype Option<+T> = None | Some(value: T)
}
