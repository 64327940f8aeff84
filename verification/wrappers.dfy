/** The optional-value wrapper used for collaborator answers that may be absent
    (a role that does not resolve, a storage call that reports no error). */
module Wrappers {

  datatype Option<+T> = None | Some(value: T)
}
