/** Optional values: where the generator's PHP uses `null`, the model uses `None`. */
module Wrappers {

  datatype Option<+T> = None | Some(value: T)
}
