/** The optional value used wherever the dashboard may find nothing:
    a missing fetch result, a person with no record, a click that writes nothing. */
module Wrappers {

  datatype Option<+T> = None | Some(value: T)
}
