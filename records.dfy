/**
 * The persistent entities the hiking-history queries read.
 *
 * A `Footprint` ties one user to one mountain; a `History` is one recorded attempt of
 * one path, owned through its footprint. `LocalDateTime` values are nanoseconds counted
 * from midnight of an arbitrary day 0, so calendar days are `NanosPerDay` apart.
 */
module Records {

  datatype Footprint = Footprint(id: int, ownerId: int, mountainId: int)

  datatype History = History(
    id: int,
    footprint: Footprint,
    pathId: int,
    createdAt: int,
    hikingTime: int,
    maxHeartRate: int,
    averageHeartRate: real)

  /** Sort key for `ORDER BY createdAt ASC` and `Comparator.comparing(getCreatedAt)`. */
  function OldestFirst(h: History): (k: int) {
    h.createdAt
  }

  /** Sort key for `ORDER BY createdAt DESC` and the `reversed()` comparator. */
  function NewestFirst(h: History): (k: int) {
    -h.createdAt
  }

  const NanosPerDay: int := 86_400_000_000_000

  /** `LocalDate.atStartOfDay()`: the first instant of `day`. */
  function StartOfDay(day: int): (t: int)
    ensures t / NanosPerDay == day && t % NanosPerDay == 0
  {
    day * NanosPerDay
  }

  /** `LocalDate.atTime(LocalTime.MAX)`: the last nanosecond of `day`. */
  function EndOfDay(day: int): (t: int)
    ensures t / NanosPerDay == day && t % NanosPerDay == NanosPerDay - 1
    ensures t + 1 == StartOfDay(day + 1)
  {
    var t := day * NanosPerDay + (NanosPerDay - 1);
    assert t == (day + 1) * NanosPerDay - 1;
    t
  }

  /** The instants from the start of `startDay` to the end of `endDay` are exactly those of the days in between. */
  lemma DayBounds(startDay: int, endDay: int, t: int)
    ensures StartOfDay(startDay) <= t <= EndOfDay(endDay) <==> startDay <= t / NanosPerDay <= endDay
  {
    var d := t / NanosPerDay;
    assert d * NanosPerDay <= t < d * NanosPerDay + NanosPerDay;
    if startDay <= d {
      assert startDay * NanosPerDay <= d * NanosPerDay;
    } else {
      assert (startDay - d) * NanosPerDay >= NanosPerDay;
    }
    if d <= endDay {
      assert d * NanosPerDay + NanosPerDay <= (endDay + 1) * NanosPerDay;
    } else {
      assert (d - endDay - 1) * NanosPerDay >= 0;
    }
  }
}
