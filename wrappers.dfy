/** The optional value used wherever the handler reads something that may be absent
    (a header, a JSON field, the result of `dict.get`). */
module Wrappers {

  datatype Option<+T> = None | Some(value: T)
}
