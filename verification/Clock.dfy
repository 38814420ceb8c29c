/** Instants and durations are integers counting nanoseconds, as in Go's
    time.Time; DynamoDB TTL attributes are whole Unix seconds. */
module Clock {

  const SECOND: int := 1_000_000_000
  const MINUTE: int := 60 * SECOND
  const HOUR: int := 60 * MINUTE
  const DAY: int := 24 * HOUR

  /** time.Time.Unix(): whole seconds, rounded towards minus infinity. */
  function Unix(t: int): int {
    t / SECOND
  }

  /** A row whose TTL attribute is `ttl` may be removed by the TTL sweep once the
      current second is past it. */
  predicate Reapable(ttl: int, now: int) {
    Unix(now) > ttl
  }
}
