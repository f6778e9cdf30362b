/** Optional values: a grid cell that may be empty (`null` in the layout table),
    and a number parse that may fail (`NaN`). */
module Wrappers {
  datatype Option<T> = None | Some(value: T)
}
