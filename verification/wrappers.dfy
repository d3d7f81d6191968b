/** The optional-value type shared by the analysis modules. */
module Wrappers {

  /** A value that may be absent; stands in for Python's `None`-or-value and
      for the empty `{}` features dictionary of the fallback assessments. */
  datatype Option<+T> = None | Some(value: T)
}
