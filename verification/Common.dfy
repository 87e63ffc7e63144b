/** What several parts of the plugin share. */
module Common {
  const NANOS_PER_SECOND := 1_000_000_000

  /** The parallelism of the WAL configuration: one unless a larger number is configured. */
  function MaxParallel(configured: int): (n: nat)
    ensures n >= 1
    ensures n == configured || (configured < 1 && n == 1)
  {
    if configured > 1 then configured else 1
  }
}
