/** util/DateTimeUtil.kt: interval overlap and durations. */
module DateTimeUtil {
  import opened Model

  /** The instant `t` lies in the half-open interval [start, end). */
  predicate Within(t: Time, start: Time, end: Time) {
    start <= t < end
  }

  /** `isOverlapping` (`start1.isBefore(end2) && end1.isAfter(start2)`): two
      half-open intervals sharing an instant overlap, and for non-empty
      intervals that is the only way to overlap. An inverted interval shares
      no instant with anything yet can still overlap. */
  predicate IsOverlapping(startTime1: Time, endTime1: Time, startTime2: Time, endTime2: Time)
    ensures (exists t :: Within(t, startTime1, endTime1) && Within(t, startTime2, endTime2)) ==>
      IsOverlapping(startTime1, endTime1, startTime2, endTime2)
    ensures startTime1 < endTime1 && startTime2 < endTime2 ==>
      (IsOverlapping(startTime1, endTime1, startTime2, endTime2) <==>
       exists t :: Within(t, startTime1, endTime1) && Within(t, startTime2, endTime2))
  {
    var t := if startTime1 < startTime2 then startTime2 else startTime1;
    assert startTime1 < endTime1 && startTime2 < endTime2 && startTime1 < endTime2 && endTime1 > startTime2 ==>
      Within(t, startTime1, endTime1) && Within(t, startTime2, endTime2);
    startTime1 < endTime2 && endTime1 > startTime2
  }

  lemma OverlapSymmetric(s1: Time, e1: Time, s2: Time, e2: Time)
    ensures IsOverlapping(s1, e1, s2, e2) == IsOverlapping(s2, e2, s1, e1)
  {
  }

  /** Intervals that only touch at an endpoint do not overlap. */
  lemma TouchingIntervalsDoNotOverlap(s1: Time, e1: Time, s2: Time, e2: Time)
    requires e1 == s2 || e2 == s1
    ensures !IsOverlapping(s1, e1, s2, e2)
  {
  }

  /** Two non-empty intervals overlap exactly when neither ends before the
      other starts. */
  lemma OverlapIffNotSeparated(s1: Time, e1: Time, s2: Time, e2: Time)
    requires s1 < e1 && s2 < e2
    ensures IsOverlapping(s1, e1, s2, e2) <==> !(e1 <= s2 || e2 <= s1)
  {
  }

  /** Integer division rounding toward zero, as `ChronoUnit.between` counts
      whole units. */
  function TruncatedDiv(a: int, d: int): int
    requires d > 0
  {
    if a >= 0 then a / d else -((-a) / d)
  }

  /** `durationInMinutes`: the whole minutes from `startTime` to `endTime`,
      negative when `endTime` is earlier; a partial minute is dropped. */
  function DurationInMinutes(startTime: Time, endTime: Time): (r: int)
    ensures startTime <= endTime ==> 0 <= r && r * 60 <= endTime - startTime < (r + 1) * 60
    ensures endTime <= startTime ==> r <= 0 && (r - 1) * 60 < endTime - startTime <= r * 60
  {
    TruncatedDiv(endTime - startTime, 60)
  }

  lemma DurationOfEmptyInterval(t: Time)
    ensures DurationInMinutes(t, t) == 0
  {
  }

  lemma DurationAntisymmetric(s: Time, e: Time)
    ensures DurationInMinutes(e, s) == -DurationInMinutes(s, e)
  {
  }

  /** Whole minutes are counted exactly. */
  lemma DurationOfWholeMinutes(s: Time, minutes: int)
    ensures DurationInMinutes(s, s + 60 * minutes) == minutes
  {
  }

  /** `durationInHours`: the whole minutes of the interval, as fractional hours. */
  function DurationInHours(startTime: Time, endTime: Time): (r: real)
    ensures r * 60.0 == DurationInMinutes(startTime, endTime) as real
  {
    DurationInMinutes(startTime, endTime) as real / 60.0
  }

  /** An interval of a whole number of hours reports that many hours, and
      ninety minutes report one and a half. */
  lemma DurationInHoursExamples(s: Time, hours: int)
    ensures DurationInHours(s, s + 3600 * hours) == hours as real
    ensures DurationInHours(s, s + 5400) == 1.5
  {
    DurationOfWholeMinutes(s, 60 * hours);
    DurationOfWholeMinutes(s, 90);
  }
}
