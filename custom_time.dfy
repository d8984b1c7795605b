/**
 * The time helpers of the backend (backend/src/common/utils/customTime.ts).
 *
 * Every helper reads the wall clock once; here the clock reading `now` (milliseconds
 * since the epoch, as `Date.now()` returns it) is a parameter. A JavaScript `Date`
 * built from a number applies TimeClip: a time value whose magnitude exceeds
 * 8.64e15 ms gives an Invalid Date. All values involved are integers below 2^53,
 * so the source's floating-point arithmetic is exact and is modelled on `int`.
 */
module CustomTime {

  const SecondMs: int := 1000
  const MinuteMs: int := 60 * SecondMs
  const DayMs: int := 24 * 60 * MinuteMs

  /** What the helper names promise and what they compute. */
  const FifteenMinutesMs: int := 15 * MinuteMs
  const ThirtyMinutesMs: int := 30 * MinuteMs
  const ThirtyDaysMs: int := 30 * DayMs
  const TwentyDaysMs: int := 20 * DayMs

  /** Largest magnitude of a time value a `Date` can hold (100 000 000 days). */
  const MaxTimeValue: int := 100_000_000 * DayMs

  /** A JavaScript `Date`: a valid instant or the Invalid Date. */
  datatype Date = At(time: int) | InvalidDate

  predicate IsTimeValue(t: int) {
    -MaxTimeValue <= t <= MaxTimeValue
  }

  /** `new Date(t)` for a number `t`, with TimeClip. */
  function TimeClipDate(t: int): (d: Date)
    ensures d.At? <==> IsTimeValue(t)
    ensures d.At? ==> d.time == t
  {
    if IsTimeValue(t) then At(t) else InvalidDate
  }

  /** `fifteenMinuteFromNow()`: despite its name, thirty minutes ahead. */
  function FifteenMinuteFromNow(now: int): (d: Date)
    ensures d.At? <==> IsTimeValue(now + ThirtyMinutesMs)
    ensures d.At? ==> d.time == now + ThirtyMinutesMs
  {
    TimeClipDate(now + 30 * 60 * 1000)
  }

  /** `thirtyDaysFromNow()` */
  function ThirtyDaysFromNow(now: int): (d: Date)
    ensures d.At? <==> IsTimeValue(now + ThirtyDaysMs)
    ensures d.At? ==> d.time == now + 2_592_000_000
  {
    TimeClipDate(now + 30 * 24 * 60 * 60 * 1000)
  }

  /** `Now()` */
  function Now(now: int): (d: Date)
    ensures IsTimeValue(now) ==> d == At(now)
    ensures !IsTimeValue(now) ==> d == InvalidDate
  {
    TimeClipDate(now)
  }

  /**
   * `expiryTime`: a plain number, not a `Date`, evaluated once when the module is
   * loaded; `loadTime` is the clock reading at that moment.
   */
  function ExpiryTime(loadTime: int): (expiry: int)
    ensures expiry - loadTime == TwentyDaysMs == 1_728_000_000
  {
    loadTime + 20 * 24 * 60 * 60 * 1000
  }

  /** The "fifteen minute" helper is thirty minutes ahead: twice what its name says. */
  lemma FifteenMinuteIsThirtyMinutes(now: int)
    requires IsTimeValue(now + ThirtyMinutesMs)
    ensures FifteenMinuteFromNow(now).At?
    ensures FifteenMinuteFromNow(now).time - now == ThirtyMinutesMs == 2 * FifteenMinutesMs
    ensures FifteenMinuteFromNow(now).time - now != FifteenMinutesMs
  {
  }

  /**
   * For one clock reading the instants are ordered
   * now < thirty-minute expiry < module expiry (if loaded then) < thirty-day expiry.
   */
  lemma ExpiryOrdering(now: int)
    requires IsTimeValue(now) && IsTimeValue(now + ThirtyDaysMs)
    ensures Now(now).At? && FifteenMinuteFromNow(now).At? && ThirtyDaysFromNow(now).At?
    ensures Now(now).time < FifteenMinuteFromNow(now).time
    ensures FifteenMinuteFromNow(now).time < ExpiryTime(now) < ThirtyDaysFromNow(now).time
  {
  }

  /** Each helper is strictly monotone in the clock reading while its result is valid. */
  lemma OffsetsMonotone(earlier: int, later: int)
    requires earlier < later
    requires IsTimeValue(earlier) && IsTimeValue(later + ThirtyDaysMs)
    ensures Now(earlier).time < Now(later).time
    ensures FifteenMinuteFromNow(earlier).time < FifteenMinuteFromNow(later).time
    ensures ThirtyDaysFromNow(earlier).time < ThirtyDaysFromNow(later).time
    ensures ExpiryTime(earlier) < ExpiryTime(later)
  {
  }

  /**
   * Because `expiryTime` is fixed at load, a caller reading it at a later instant
   * gets less than twenty days of validity, and none at all once twenty days have
   * passed since the module was loaded.
   */
  lemma ExpiryTimeIsFixedAtLoad(loadTime: int, now: int)
    requires loadTime < now
    ensures ExpiryTime(loadTime) - now < TwentyDaysMs
    ensures now >= loadTime + TwentyDaysMs ==> ExpiryTime(loadTime) <= now
  {
  }
}
