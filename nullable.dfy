/** JavaScript's `T | null`, as used for the selected position and the selected post. */
module Nullable {

  datatype Option<T> = None | Some(value: T)
}
