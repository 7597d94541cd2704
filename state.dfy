/** The per-identity counter record and its read-time "blocked" predicate.
    Times are plain integers: `blockedAt` is in whole seconds since the Unix
    epoch (0 meaning "not blocked"), the clock and the block duration are in
    nanoseconds. */
module RateLimitState {

  const NanosPerSecond: int := 1_000_000_000

  /** One counter record, stored under `key`. */
  datatype State = State(key: string, count: int, blockedAt: int)
  {
    /** The instant (in nanoseconds) at which a block set at `blockedAt` ends. */
    function ReleaseAt(blockDuration: int): int {
      blockedAt * NanosPerSecond + blockDuration
    }

    /** Blocked iff a block stamp is set and `now` is strictly before the release instant. */
    predicate IsBlocked(now: int, blockDuration: int) {
      if blockedAt <= 0 then false
      else now < ReleaseAt(blockDuration)
    }
  }

  /** The record a previously unseen identity starts with. */
  function NewState(key: string): State {
    State(key, 0, 0)
  }

  /** A fresh record carries the identity as its key, count 0, no block stamp,
      and is therefore Open at every instant. */
  lemma NewStateIsOpen(key: string, now: int, blockDuration: int)
    ensures NewState(key).key == key
    ensures NewState(key).count == 0 && NewState(key).blockedAt == 0
    ensures !NewState(key).IsBlocked(now, blockDuration)
  {
  }

  /** Without a positive block stamp a record is never blocked. */
  lemma UnsetNeverBlocked(s: State, now: int, blockDuration: int)
    requires s.blockedAt <= 0
    ensures !s.IsBlocked(now, blockDuration)
  {
  }

  /** With a positive stamp, blocked exactly while `now` is before stamp + duration. */
  lemma BlockedIffBeforeRelease(s: State, now: int, blockDuration: int)
    requires s.blockedAt > 0
    ensures s.IsBlocked(now, blockDuration) <==> now < s.blockedAt * NanosPerSecond + blockDuration
  {
  }

  /** The comparison is strict: at the release instant itself the record is Open. */
  lemma OpenAtReleaseInstant(s: State, blockDuration: int)
    ensures !s.IsBlocked(s.ReleaseAt(blockDuration), blockDuration)
  {
  }

  /** Blocked -> Open happens once and for all: Open at t means Open at every later t'. */
  lemma OpenStaysOpen(s: State, t: int, t': int, blockDuration: int)
    requires t <= t'
    requires !s.IsBlocked(t, blockDuration)
    ensures !s.IsBlocked(t', blockDuration)
  {
  }

  /** A record stamped at second `sec` with a 5 s window is blocked one second
      later and released six seconds later. */
  lemma FiveSecondWindow(key: string, count: int, sec: int)
    requires sec > 0
    ensures State(key, count, sec).IsBlocked(sec * NanosPerSecond + 1 * NanosPerSecond, 5 * NanosPerSecond)
    ensures !State(key, count, sec).IsBlocked(sec * NanosPerSecond + 6 * NanosPerSecond, 5 * NanosPerSecond)
  {
  }
}
