/** The records the fallback timetable engine works on.
    Identifiers are strings, as in the source; times of day are minutes since midnight. */
module Types {

  type Id = string

  datatype Option<T> = None | Some(value: T)

  /** The five working days, iterated Monday to Friday. */
  datatype Day = Monday | Tuesday | Wednesday | Thursday | Friday

  const Days: seq<Day> := [Monday, Tuesday, Wednesday, Thursday, Friday]

  function DayIndex(d: Day): (i: nat)
    ensures i < |Days| && Days[i] == d
  {
    match d
    case Monday => 0
    case Tuesday => 1
    case Wednesday => 2
    case Thursday => 3
    case Friday => 4
  }

  /** A clock reading "HH:MM" as typed into a time field. */
  datatype Clock = Clock(hour: nat, minute: nat)

  predicate WellFormedClock(c: Clock) {
    c.hour < 24 && c.minute < 60
  }

  function Minutes(c: Clock): nat {
    c.hour * 60 + c.minute
  }

  /** A bookable interval "HH:MM-HH:MM", as minutes since midnight. */
  datatype Slot = Slot(start: nat, end: nat)

  /** Only the identifier of a classroom or a batch is read by the engine. */
  datatype Classroom = Classroom(id: Id)
  datatype Batch = Batch(id: Id)

  /** `duration` 0 stands for a missing (falsy) duration. */
  datatype Subject = Subject(id: Id, classesPerWeek: int, duration: int)

  /** `subjects` lists the subject ids this faculty member may teach. */
  datatype Faculty = Faculty(id: Id, subjects: seq<Id>)

  datatype Constraints = Constraints(
    maxClassesPerDay: int,
    startTime: Clock,
    endTime: Clock,
    lunchBreakStart: Clock,
    lunchBreakEnd: Clock,
    classDuration: nat,
    breakDuration: nat,
    enableBreaks: bool)

  /** One required occurrence of a subject for a batch. */
  datatype Instance = Instance(batch: Id, subject: Id, duration: int)

  /** One placed class; `id` n stands for the text "slot_n". */
  datatype Entry = Entry(
    id: nat,
    day: Day,
    slot: Slot,
    subject: Id,
    faculty: Id,
    room: Id,
    batch: Id,
    duration: int)

  function Max(a: int, b: int): int {
    if a < b then b else a
  }

  function Min(a: int, b: int): int {
    if a < b then a else b
  }
}
