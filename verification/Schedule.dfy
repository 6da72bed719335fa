/**
 * The daily crawl window. Times are nanoseconds of a local clock with a fixed offset;
 * a window may run across midnight.
 */
module Schedule {
  import opened Basics

  const MINUTE := 60_000_000_000
  const DAY := 1440 * MINUTE

  /** A parsed clock time: minutes after midnight. */
  type Clock = m: int | 0 <= m < 1440

  /** now.Hour()*60 + now.Minute(). */
  function MinuteOf(now: int): Clock {
    (now % DAY) / MINUTE
  }

  predicate Inside(now: int, start: Clock, end: Clock) {
    var minute := MinuteOf(now);
    if start < end then start <= minute < end else minute >= start || minute < end
  }

  /** scheduleState: inside or not, and the next change; no window for unparsed or equal times. */
  function ScheduleState(now: int, start: Option<Clock>, end: Option<Clock>): (bool, Option<int>) {
    if start.None? || end.None? || start.value == end.value then (false, None) else
    var inside := Inside(now, start.value, end.value);
    var minute := if inside then end.value else start.value;
    var today := now - now % DAY + minute * MINUTE;
    (inside, Some(if today > now then today else today + DAY))
  }

  /** Minutes and instants of one day compare alike. */
  lemma MinuteAgainst(t: int, m: Clock)
    ensures MinuteOf(t) >= m <==> t % DAY >= m * MINUTE
  {
    var r := t % DAY;
    assert r == MINUTE * (r / MINUTE) + r % MINUTE;
  }

  /** Inside, by instants of the day. */
  lemma InsideByInstant(t: int, start: Clock, end: Clock)
    ensures Inside(t, start, end) <==>
            var r := t % DAY;
            if start < end then start * MINUTE <= r < end * MINUTE else r >= start * MINUTE || r < end * MINUTE
  {
    MinuteAgainst(t, start);
    MinuteAgainst(t, end);
  }

  /** A time less than a day after another is on the same day or the next. */
  lemma NextDay(now: int, t: int)
    requires now <= t <= now + DAY
    ensures var r := now % DAY + (t - now);
            t % DAY == if r < DAY then r else if r < 2 * DAY then r - DAY else 0
  {
    var q, r := now / DAY, now % DAY + (t - now);
    assert t == DAY * q + r;
    if r < DAY {
      assert t % DAY == r;
    } else {
      assert t == DAY * (q + 1) + (r - DAY);
    }
  }

  /**
   * scheduleState returns the first instant after now at which the state flips: the state
   * is constant until then, opposite there, and it is at most a day away.
   */
  lemma NextIsFirstFlip(now: int, start: Clock, end: Clock, t: int)
    requires start != end
    ensures var (inside, next) := ScheduleState(now, Some(start), Some(end));
            && inside == Inside(now, start, end)
            && next.Some? && now < next.value <= now + DAY
            && (now <= t < next.value ==> Inside(t, start, end) == inside)
            && Inside(next.value, start, end) == !inside
  {
    var (inside, next) := ScheduleState(now, Some(start), Some(end));
    InsideByInstant(now, start, end);
    NextDay(now, next.value);
    InsideByInstant(next.value, start, end);
    if now <= t < next.value {
      NextDay(now, t);
      InsideByInstant(t, start, end);
    }
  }

  /** Without two different times there is no window and no change. */
  lemma NoWindow(now: int, start: Option<Clock>, end: Option<Clock>)
    ensures ScheduleState(now, start, end).1.None? <==> start.None? || end.None? || start == end
    ensures ScheduleState(now, start, end).1.None? ==> !ScheduleState(now, start, end).0
  {
  }

  /** The window that opens on a day: from its start, for as many minutes as it takes to get to its end. */
  ghost predicate InWindowOf(day: int, now: int, start: Clock, end: Clock) {
    var opens := day * 86_400_000_000_000 + start * 60_000_000_000;
    var minutes := if start < end then end - start else end - start + 1440;
    opens <= now < opens + minutes * 60_000_000_000
  }

  /** Inside means inside the window that opened today or the one that opened the day before. */
  lemma InsideSomeWindow(now: int, start: Clock, end: Clock)
    requires start != end
    ensures Inside(now, start, end) <==> exists day :: InWindowOf(day, now, start, end)
  {
    InsideByInstant(now, start, end);
    var today := now / DAY;
    assert now == DAY * today + now % DAY;
    if Inside(now, start, end) {
      if now % DAY >= start * MINUTE {
        assert InWindowOf(today, now, start, end);
      } else {
        assert InWindowOf(today - 1, now, start, end);
      }
    }
    if day :| InWindowOf(day, now, start, end) {
      assert day == today || day == today - 1;
    }
  }
}
