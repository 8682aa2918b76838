/** The optional value used for the records' optional members, for lookups that may
    find nothing and for salaries that may not parse. */
module Wrappers {

  datatype Option<+T> = None | Some(value: T)
}
