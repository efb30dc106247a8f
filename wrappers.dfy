/** The Some/None datatype used for fields a coverage record may lack and for
    results that may be absent. */
module Wrappers {

  datatype Option<+T> = None | Some(value: T)

}
