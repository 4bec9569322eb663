/** Column value types of the table services. */
module Columns {

  /** A `date` column: days since 1970-01-01. */
  type Date = int

  /** A `datetime` column: microseconds since 1970-01-01T00:00:00. */
  type DateTime = int

  /** A `float` column. The services only store and return these values, never compute with
      them, so a value is just its 64 bits. */
  datatype Float = Float(bits: bv64)

  /** The float `0.0`. */
  const Zero: Float := Float(0)

  /** The columns of a table whose record schema is not part of this model, as one
      uninterpreted value. */
  datatype Other = Other(columns: seq<(string, string)>)
}
