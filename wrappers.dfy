/** The Option type the model uses for pandas' missing values (NaN/None). */
module Wrappers {
  datatype Option<+T> = None | Some(value: T)
}
