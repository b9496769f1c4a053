/** Optional values: the model's stand-in for the SDK's pointer-typed fields
    (`*string`, `*bool`) and for a nil `*elbv2.Rule`. */
module Wrappers {

  datatype Option<+T> = None | Some(value: T)
}
