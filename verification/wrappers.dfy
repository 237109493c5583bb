/** Optional values, used for fields and results that the bot treats as possibly absent. */
module Wrappers {

  datatype Option<+T> = None | Some(value: T)

}
