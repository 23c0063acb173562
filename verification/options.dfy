/** Optional values: a lookup that may find nothing, a request field that may
    be absent, a token verification that may fail. */
module Options {

  datatype Option<+T> = None | Some(value: T)
}
