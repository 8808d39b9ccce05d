/** Times as the models share them. */
module Clock {
  const NANOS_PER_SECOND := 1_000_000_000
  const NANOS_PER_MINUTE := 60 * NANOS_PER_SECOND

  /** A time in nanoseconds, shown in a zone so many minutes from UTC. */
  datatype Instant = Instant(nanos: int, offset: int)

  /** What a clock on the wall of the zone shows. */
  function Wall(t: Instant): int { t.nanos + t.offset * NANOS_PER_MINUTE }
}
