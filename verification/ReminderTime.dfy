/** The time arithmetic: exactness of the 64-bit durations, and when a reminder lies in its own window. */
module ReminderTime {
  import opened ReminderModel

  /** The duration is the exact number of nanoseconds precisely for these minute counts. */
  lemma MinutesExactIff(minutes: int)
    ensures MinutesToNanos(minutes) == minutes * NANOS_PER_MINUTE <==> -MAX_MINUTES <= minutes <= MAX_MINUTES
  {
    var x := minutes * NANOS_PER_MINUTE;
    assert WrapInt64(x) == x <==> -TWO_63 <= x < TWO_63;
  }

  /** For all offsets and durations, also those too large: start and end are the event's start plus the configured
      minutes as 64-bit nanosecond counts, an hour before and five minutes long when the rule gives none, each
      rounded down to the second. */
  lemma SlotWraps(start: int, a: Action) returns (reminder: int, end: int)
    ensures -0x8000_0000_0000_0000 <= reminder - start < 0x8000_0000_0000_0000
    ensures -0x8000_0000_0000_0000 <= end - reminder < 0x8000_0000_0000_0000
    ensures ((if a.offsetMinutes == 0 then -60 else a.offsetMinutes) * 60_000_000_000 - (reminder - start))
            % 0x1_0000_0000_0000_0000 == 0
    ensures ((if a.durationMin == 0 then 5 else a.durationMin) * 60_000_000_000 - (end - reminder))
            % 0x1_0000_0000_0000_0000 == 0
    ensures SlotAt(start, a) == Slot(a.newEventTitle, SlotAt(start, a).lo, SlotAt(start, a).hi)
    ensures SlotAt(start, a).lo * 1_000_000_000 <= reminder < (SlotAt(start, a).lo + 1) * 1_000_000_000
    ensures SlotAt(start, a).hi * 1_000_000_000 <= end < (SlotAt(start, a).hi + 1) * 1_000_000_000
  {
    reminder := start + MinutesToNanos(EffectiveOffset(a));
    end := reminder + MinutesToNanos(EffectiveDuration(a));
  }

  lemma FloorShift(nanos: int, seconds: int)
    ensures FloorSeconds(nanos + seconds * NANOS_PER_SECOND) == FloorSeconds(nanos) + seconds
  {
  }

  /** In the exact range a reminder starts the configured minutes from its event, an hour before when the rule gives
      none, and the fraction of a second is dropped. */
  lemma SlotStart(start: int, a: Action)
    requires -MAX_MINUTES <= a.offsetMinutes <= MAX_MINUTES
    ensures SlotAt(start, a).lo == FloorSeconds(start) + (if a.offsetMinutes == 0 then -3600 else 60 * a.offsetMinutes)
    ensures SlotAt(start, a).title == a.newEventTitle
  {
    var offset := EffectiveOffset(a);
    MinutesExactIff(offset);
    FloorShift(start, 60 * offset);
  }

  /** In the exact range a reminder keeps its whole length, five minutes when the rule gives none, after the fractions
      are dropped. */
  lemma SlotLength(start: int, a: Action)
    requires -MAX_MINUTES <= a.durationMin <= MAX_MINUTES
    ensures SlotAt(start, a).hi - SlotAt(start, a).lo == if a.durationMin == 0 then 300 else 60 * a.durationMin
  {
    var d := EffectiveDuration(a);
    MinutesExactIff(d);
    FloorShift(start + MinutesToNanos(EffectiveOffset(a)), 60 * d);
  }

  /** The existence check of an unchanged pair finds the reminder made for it exactly when the configured
      duration is not negative. */
  lemma OwnWindowIff(id: EventId, p: Pair)
    requires Ready(p)
    requires -MAX_MINUTES <= p.rule.action.value.durationMin <= MAX_MINUTES
    ensures Clashes(ReminderItem(id, p), SlotOf(p)) <==> p.rule.action.value.durationMin >= 0
  {
    SlotLength(p.item.startTime.value, p.rule.action.value);
  }
}
