/** The optional-value datatype used for absent calibration and for rays that
    produce no distorted point. */
module Wrappers {

  datatype Option<+T> = None | Some(value: T)

}
