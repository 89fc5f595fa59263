/** Optional values: the model's rendering of the source's `null` and `undefined` results. */
module Options {

  datatype Option<+T> = None | Some(value: T)
}
