/** An optional value: the model's stand-in for a NULL result or a search that found nothing. */
module Wrappers {
  datatype Option<+T> = None | Some(value: T)
}
