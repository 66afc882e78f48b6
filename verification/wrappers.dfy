/** The nullable results of the bridge: `null` in the script becomes `None`. */
module Wrappers {

  datatype Option<+T> = None | Some(value: T)
}
