/** The timestamps of the feeds: chrono's `DateTime<FixedOffset>`, kept opaque. */
module Chrono {
  import opened Wrappers

  /** An instant together with the UTC offset it was written in. */
  datatype DateTime = DateTime(utcSeconds: int, offsetSeconds: int)

  /**
   * Parsing text as a `DateTime<FixedOffset>`. The parser belongs to chrono and
   * is not modelled: every conversion that needs it takes one as a parameter,
   * and every property holds for any parser.
   */
  type DateParser = string -> Option<DateTime>
}
