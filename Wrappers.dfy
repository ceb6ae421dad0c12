/** A small optional-value datatype, standing for the source's nullable references. */
module Wrappers {
  datatype Option<+T> = None | Some(value: T) {
    /** The C# `??` operator: this value when present, otherwise `fallback`. */
    function OrElse(fallback: Option<T>): (r: Option<T>)
    {
      if Some? then this else fallback
    }
  }
}
