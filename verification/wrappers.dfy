/** Optional values: a nullable column, a query that may find nothing, a field
    missing from a request body. */
module Wrappers {

  datatype Option<+T> = None | Some(value: T)

}
