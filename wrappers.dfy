/** Optional values, used for the task fields a document may leave unset
    and for the query-string parameters a request may omit. */
module Wrappers {

  datatype Option<+T> = None | Some(value: T)
}
