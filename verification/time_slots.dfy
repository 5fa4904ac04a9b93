/** Derivation of the bookable slots of a day from working hours, class length,
    breaks and the lunch window. */
module TimeSlots {
  import opened Types

  /** The gap between two classes: the configured break, or none when breaks are off. */
  function EffectiveBreak(c: Constraints): nat {
    if c.enableBreaks then c.breakDuration else 0
  }

  /** What the generator needs in order to stop: the cursor moves forward on every
      round, or the loop never starts. */
  predicate Terminates(c: Constraints) {
    c.classDuration + EffectiveBreak(c) > 0 || Minutes(c.startTime) >= Minutes(c.endTime)
  }

  predicate ValidClocks(c: Constraints) {
    WellFormedClock(c.startTime) && WellFormedClock(c.endTime)
    && WellFormedClock(c.lunchBreakStart) && WellFormedClock(c.lunchBreakEnd)
  }

  /** The three ways a slot can collide with lunch: it starts inside it, it ends inside
      it, or it spans the whole of it. */
  predicate TouchesLunch(c: Constraints, s: Slot) {
    var ls, le := Minutes(c.lunchBreakStart), Minutes(c.lunchBreakEnd);
    (s.start >= ls && s.start < le) || (s.end > ls && s.end <= le) || (s.start < ls && s.end > le)
  }

  /** The cursor after one round: one class and one break later, moved to the end of
      lunch when that lands inside the lunch window. */
  function Advance(c: Constraints, cursor: nat): (next: nat)
    ensures next >= cursor + c.classDuration + EffectiveBreak(c)
    ensures !(Minutes(c.lunchBreakStart) <= next < Minutes(c.lunchBreakEnd))
    ensures next != cursor + c.classDuration + EffectiveBreak(c) ==> next == Minutes(c.lunchBreakEnd)
  {
    var moved := cursor + c.classDuration + EffectiveBreak(c);
    if Minutes(c.lunchBreakStart) <= moved < Minutes(c.lunchBreakEnd) then Minutes(c.lunchBreakEnd) else moved
  }

  /** The slot emitted at cursor position `cursor`: none when it touches lunch. */
  function Emitted(c: Constraints, cursor: nat): seq<Slot> {
    var s := Slot(cursor, cursor + c.classDuration);
    if TouchesLunch(c, s) then [] else [s]
  }

  /** The slots emitted from cursor position `cursor` onwards. */
  function SlotsFrom(c: Constraints, cursor: nat): seq<Slot>
    requires Terminates(c) && cursor >= Minutes(c.startTime)
    decreases Minutes(c.endTime) - cursor
  {
    if cursor >= Minutes(c.endTime) then []
    else Emitted(c, cursor) + SlotsFrom(c, Advance(c, cursor))
  }

  /** The slots of a day, in the order they are generated. */
  function DaySlots(c: Constraints): seq<Slot>
    requires Terminates(c)
  {
    SlotsFrom(c, Minutes(c.startTime))
  }

  /** Every slot from `cursor` on lasts one class, starts in [cursor, endTime), keeps
      clear of lunch, and starts no earlier than the end of any slot before it. */
  ghost predicate WellPlaced(c: Constraints, slots: seq<Slot>, from: nat) {
    && (forall i :: 0 <= i < |slots| ==> slots[i].end == slots[i].start + c.classDuration)
    && (forall i :: 0 <= i < |slots| ==> from <= slots[i].start < Minutes(c.endTime))
    && (forall i :: 0 <= i < |slots| ==> !TouchesLunch(c, slots[i]))
    && (forall i, j :: 0 <= i < j < |slots| ==> slots[i].end <= slots[j].start)
  }

  /** Slot starts strictly increase along the sequence. */
  ghost predicate StrictlyAscending(slots: seq<Slot>) {
    forall i, j :: 0 <= i < j < |slots| ==> slots[i].start < slots[j].start
  }

  lemma {:induction false} SlotsFromWellPlaced(c: Constraints, cursor: nat)
    requires Terminates(c) && cursor >= Minutes(c.startTime)
    ensures WellPlaced(c, SlotsFrom(c, cursor), cursor)
    decreases Minutes(c.endTime) - cursor
  {
    if cursor < Minutes(c.endTime) {
      SlotsFromWellPlaced(c, Advance(c, cursor));
      RoundWellPlaced(c, cursor);
    }
  }

  /** One round keeps the slots well placed: the emitted slot, if any, ends before
      the advanced cursor. */
  lemma RoundWellPlaced(c: Constraints, cursor: nat)
    requires Terminates(c) && Minutes(c.startTime) <= cursor < Minutes(c.endTime)
    requires WellPlaced(c, SlotsFrom(c, Advance(c, cursor)), Advance(c, cursor))
    ensures WellPlaced(c, SlotsFrom(c, cursor), cursor)
  {
    SlotsFromStep(c, cursor);
    EmittedWellPlaced(c, cursor, SlotsFrom(c, Advance(c, cursor)), Advance(c, cursor));
  }

  /** The slot emitted at `cursor`, if any, in front of slots placed from `next`. */
  lemma EmittedWellPlaced(c: Constraints, cursor: nat, rest: seq<Slot>, next: nat)
    requires cursor < Minutes(c.endTime) && cursor + c.classDuration <= next
    requires WellPlaced(c, rest, next)
    ensures WellPlaced(c, Emitted(c, cursor) + rest, cursor)
  {
    var s := Slot(cursor, cursor + c.classDuration);
    if TouchesLunch(c, s) {
      assert Emitted(c, cursor) + rest == rest;
      WellPlacedFromEarlier(c, rest, cursor, next);
    } else {
      assert Emitted(c, cursor) + rest == [s] + rest;
      PrependWellPlaced(c, s, rest, next);
    }
  }

  /** A sequence placed from `next` is also placed from any earlier cursor. */
  lemma WellPlacedFromEarlier(c: Constraints, slots: seq<Slot>, cursor: nat, next: nat)
    requires WellPlaced(c, slots, next) && cursor <= next
    ensures WellPlaced(c, slots, cursor)
  {
  }

  /** A slot ending by `next`, in front of a sequence placed from `next`. */
  lemma PrependWellPlaced(c: Constraints, s: Slot, slots: seq<Slot>, next: nat)
    requires WellPlaced(c, slots, next)
    requires s.end == s.start + c.classDuration && s.start < Minutes(c.endTime)
    requires !TouchesLunch(c, s) && s.end <= next
    ensures WellPlaced(c, [s] + slots, s.start)
  {
    var r := [s] + slots;
    forall i, j | 0 <= i < j < |r|
      ensures r[i].end <= r[j].start
    {
      if i > 0 {
        assert r[i] == slots[i - 1];
      }
      assert r[j] == slots[j - 1];
    }
  }

  /** The generator's promises: each slot is one class long, starts before the end of
      the day, avoids lunch, and no two slots overlap. */
  lemma {:induction false} DaySlotsWellPlaced(c: Constraints)
    requires Terminates(c)
    ensures WellPlaced(c, DaySlots(c), Minutes(c.startTime))
    ensures StrictlyAscending(DaySlots(c))
  {
    SlotsFromWellPlaced(c, Minutes(c.startTime));
    SlotsFromAscending(c, Minutes(c.startTime));
  }

  /** Starts are strictly ascending even with zero-length classes, since the cursor
      moves forward every round. */
  lemma {:induction false} SlotsFromAscending(c: Constraints, cursor: nat)
    requires Terminates(c) && cursor >= Minutes(c.startTime)
    ensures StrictlyAscending(SlotsFrom(c, cursor))
    decreases Minutes(c.endTime) - cursor
  {
    if cursor < Minutes(c.endTime) {
      var next := Advance(c, cursor);
      SlotsFromAscending(c, next);
      SlotsFromWellPlaced(c, next);
      assert SlotsFrom(c, cursor) == Emitted(c, cursor) + SlotsFrom(c, next);
    }
  }

  /** Comparing (hour, minute) pairs field by field agrees with comparing minute counts
      when the minutes are below 60. */
  lemma ClockOrder(h1: nat, m1: nat, h2: nat, m2: nat)
    requires m1 < 60 && m2 < 60
    ensures (h1 < h2 || (h1 == h2 && m1 < m2)) <==> h1 * 60 + m1 < h2 * 60 + m2
  {
    if h1 < h2 {
      assert h1 * 60 + 60 <= h2 * 60;
    } else if h1 > h2 {
      assert h2 * 60 + 60 <= h1 * 60;
    }
  }

  /** One round of the generator: the slot emitted at `cursor`, then everything after
      the advanced cursor. */
  lemma SlotsFromStep(c: Constraints, cursor: nat)
    requires Terminates(c) && Minutes(c.startTime) <= cursor < Minutes(c.endTime)
    ensures SlotsFrom(c, cursor) == Emitted(c, cursor) + SlotsFrom(c, Advance(c, cursor))
  {
  }

  lemma AppendAssociates(a: seq<Slot>, b: seq<Slot>, c: seq<Slot>)
    ensures (a + b) + c == a + (b + c)
  {
  }

  /** Moves whole hours out of a minute counter of 60 or more; the time denoted is kept. */
  method CarryHours(hour: nat, minute: nat) returns (h: nat, m: nat)
    ensures h * 60 + m == hour * 60 + minute && m < 60
    ensures minute < 60 ==> h == hour && m == minute
  {
    h, m := hour, minute;
    if m >= 60 {
      h := h + m / 60;
      m := m % 60;
    }
  }

  /** One round of the source loop at clock (hour, minute): the slot it emits (if
      any) and the clock it moves to. */
  method LoopRound(c: Constraints, hour: nat, minute: nat) returns (emitted: seq<Slot>, nextHour: nat, nextMinute: nat)
    requires ValidClocks(c) && minute < 60
    ensures emitted == Emitted(c, hour * 60 + minute)
    ensures nextHour * 60 + nextMinute == Advance(c, hour * 60 + minute) && nextMinute < 60
  {
    var classDuration := c.classDuration;
    var breakDuration := if c.enableBreaks then c.breakDuration else 0;
    var lunchStart := Minutes(c.lunchBreakStart);
    var lunchEnd := Minutes(c.lunchBreakEnd);
    var slotStart := hour * 60 + minute;
    var endSlotHour, endSlotMinute := CarryHours(hour, minute + classDuration);
    var slotEnd := endSlotHour * 60 + endSlotMinute;
    if !(slotStart >= lunchStart && slotStart < lunchEnd)
       && !(slotEnd > lunchStart && slotEnd <= lunchEnd)
       && !(slotStart < lunchStart && slotEnd > lunchEnd)
    {
      emitted := [Slot(slotStart, slotEnd)];
    } else {
      emitted := [];
    }
    nextHour, nextMinute := CarryHours(endSlotHour, endSlotMinute + breakDuration);
    var currentTime := nextHour * 60 + nextMinute;
    if currentTime >= lunchStart && currentTime < lunchEnd {
      nextHour := c.lunchBreakEnd.hour;
      nextMinute := c.lunchBreakEnd.minute;
    }
  }

  /** The invariant of the generator's loop survives one round. */
  lemma GeneratorStep(c: Constraints, before: seq<Slot>, cursor: nat, all: seq<Slot>)
    requires Terminates(c) && Minutes(c.startTime) <= cursor < Minutes(c.endTime)
    requires before + SlotsFrom(c, cursor) == all
    ensures (before + Emitted(c, cursor)) + SlotsFrom(c, Advance(c, cursor)) == all
  {
    SlotsFromStep(c, cursor);
    AppendAssociates(before, Emitted(c, cursor), SlotsFrom(c, Advance(c, cursor)));
  }

  /** The loop of the source, over an hour and a minute counter. */
  method GenerateTimeSlots(c: Constraints) returns (slots: seq<Slot>)
    requires Terminates(c) && ValidClocks(c)
    ensures slots == DaySlots(c)
  {
    var currentHour: nat := c.startTime.hour;
    var currentMinute: nat := c.startTime.minute;
    slots := [];
    ghost var all := DaySlots(c);
    ghost var cursor: nat := Minutes(c.startTime);
    while currentHour < c.endTime.hour || (currentHour == c.endTime.hour && currentMinute < c.endTime.minute)
      invariant currentMinute < 60 && cursor == currentHour * 60 + currentMinute
      invariant cursor >= Minutes(c.startTime)
      invariant slots + SlotsFrom(c, cursor) == all
      decreases Minutes(c.endTime) - cursor
    {
      ClockOrder(currentHour, currentMinute, c.endTime.hour, c.endTime.minute);
      var emitted;
      emitted, currentHour, currentMinute := LoopRound(c, currentHour, currentMinute);
      GeneratorStep(c, slots, cursor, all);
      slots := slots + emitted;
      cursor := Advance(c, cursor);
    }
    ClockOrder(currentHour, currentMinute, c.endTime.hour, c.endTime.minute);
    assert SlotsFrom(c, cursor) == [];
    assert slots + [] == slots;
  }

  /** The worked example: 09:00 to 11:00, one-hour classes, no break, lunch at 13:00. */
  lemma ExampleMorning()
    ensures DaySlots(Constraints(6, Clock(9, 0), Clock(11, 0), Clock(13, 0), Clock(14, 0), 60, 0, false))
         == [Slot(540, 600), Slot(600, 660)]
  {
    var c := Constraints(6, Clock(9, 0), Clock(11, 0), Clock(13, 0), Clock(14, 0), 60, 0, false);
    assert SlotsFrom(c, 660) == [];
    assert SlotsFrom(c, 600) == [Slot(600, 660)];
  }
}
