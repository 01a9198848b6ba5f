/**
 * The timing and approval constants that parameterise the suite's waits.
 * Every duration is a count of milliseconds, except the stability time,
 * which is a count of seconds.
 */
module TestConstants {

  const MillisPerSecond: nat := 1000
  const SecondsPerMinute: nat := 60

  /** `Duration.ofSeconds(s).toMillis()`. */
  function SecondsToMillis(s: nat): (ms: nat)
    ensures ms % MillisPerSecond == 0
    ensures MillisToSeconds(ms) == s
  {
    s * MillisPerSecond
  }

  /** `Duration.ofMillis(ms).toSeconds()`: whole seconds, the remainder dropped. */
  function MillisToSeconds(ms: nat): (s: nat)
    ensures s * MillisPerSecond <= ms < (s + 1) * MillisPerSecond
  {
    ms / MillisPerSecond
  }

  /** `Duration.ofMinutes(m).toSeconds()`. */
  function MinutesToSeconds(m: nat): (s: nat)
    ensures s % SecondsPerMinute == 0 && s / SecondsPerMinute == m
  {
    m * SecondsPerMinute
  }

  /** `Duration.ofMinutes(m).toMillis()`. */
  function MinutesToMillis(m: nat): (ms: nat)
    ensures ms == SecondsToMillis(MinutesToSeconds(m))
  {
    m * SecondsPerMinute * MillisPerSecond
  }

  const ApprovalAutomatic: string := "Automatic"
  const ApprovalManual: string := "Manual"

  const GlobalPollIntervalLong: nat := SecondsToMillis(15)
  const GlobalPollIntervalMedium: nat := SecondsToMillis(10)
  const GlobalPollIntervalShort: nat := SecondsToMillis(5)
  const GlobalPollInterval1Sec: nat := SecondsToMillis(1)
  const GlobalTimeout: nat := MinutesToMillis(10)
  /** In seconds, unlike every other duration here. */
  const GlobalStabilityTime: nat := MinutesToSeconds(1)

  /** The four poll intervals the suite uses. */
  predicate IsPollInterval(ms: nat) {
    ms == GlobalPollIntervalLong || ms == GlobalPollIntervalMedium
    || ms == GlobalPollIntervalShort || ms == GlobalPollInterval1Sec
  }

  /** How many whole poll intervals fit in a wait of `timeout` ms. */
  function PollsWithin(timeout: nat, interval: nat): (n: nat)
    requires interval > 0
    ensures n * interval <= timeout < (n + 1) * interval
  {
    timeout / interval
  }

  lemma PollIntervalValues()
    ensures GlobalPollIntervalLong == 15000
    ensures GlobalPollIntervalMedium == 10000
    ensures GlobalPollIntervalShort == 5000
    ensures GlobalPollInterval1Sec == 1000
    ensures GlobalPollIntervalLong > GlobalPollIntervalMedium > GlobalPollIntervalShort > GlobalPollInterval1Sec > 0
  {
  }

  /** The global timeout is ten minutes and a whole number of polls of every interval. */
  lemma TimeoutIsWholePolls(interval: nat)
    requires IsPollInterval(interval)
    ensures GlobalTimeout == 600000
    ensures GlobalTimeout % interval == 0
    ensures PollsWithin(GlobalTimeout, interval) * interval == GlobalTimeout
    ensures interval == GlobalPollIntervalShort ==> PollsWithin(GlobalTimeout, interval) == 120
  {
  }

  /** The stability time is 60 seconds; as milliseconds it is shorter than the global timeout. */
  lemma StabilityTimeInSeconds()
    ensures GlobalStabilityTime == 60
    ensures SecondsToMillis(GlobalStabilityTime) == 60000 < GlobalTimeout
    ensures GlobalStabilityTime < GlobalPollInterval1Sec
  {
  }

  lemma ApprovalModesDistinct()
    ensures ApprovalAutomatic != ApprovalManual
  {
  }
}
