/** The bookkeeping tables of the placement pass, per (batch, day), (faculty,
    day), (classroom, day) and (batch, subject), and what each one holds in
    terms of the timetable built so far. */
module Tables {
  import opened Types
  import opened Selection
  import opened Timetable

  function BatchIds(batches: seq<Batch>): seq<Id> {
    seq(|batches|, k requires 0 <= k < |batches| => batches[k].id)
  }

  function SubjectIds(subjects: seq<Subject>): seq<Id> {
    seq(|subjects|, k requires 0 <= k < |subjects| => subjects[k].id)
  }

  function FacultyIds(fs: seq<Faculty>): seq<Id> {
    seq(|fs|, k requires 0 <= k < |fs| => fs[k].id)
  }

  function RoomIds(classrooms: seq<Classroom>): seq<Id> {
    seq(|classrooms|, k requires 0 <= k < |classrooms| => classrooms[k].id)
  }

  /** `subjectToFaculty.get(sid) || []`. */
  function Lookup(m: map<Id, seq<Id>>, sid: Id): seq<Id> {
    if sid in m then m[sid] else []
  }

  /** How many entries of the timetable are for batch `b` and subject `s`. */
  function CountPlaced(tt: seq<Entry>, b: Id, s: Id): nat
    decreases |tt|
  {
    if tt == [] then 0
    else CountPlaced(tt[..|tt| - 1], b, s) + (if tt[|tt| - 1].batch == b && tt[|tt| - 1].subject == s then 1 else 0)
  }

  // ---- what each table holds ----

  /** Every day of the week is one of the five scheduled days. */
  lemma DayListed(d: Day)
    ensures d in Days
  {
  }

  /** batchDailySchedule: the classes of each batch on each day, in placement order. */
  function BatchDays(tt: seq<Entry>, bids: seq<Id>): map<(Id, Day), seq<Entry>> {
    map b, d | b in bids && d in Days :: (b, d) := EntriesOn(tt, b, d)
  }

  /** facultyDailySchedule: the slots each faculty member teaches in on each day. */
  function FacultyDays(tt: seq<Entry>, fids: seq<Id>): map<(Id, Day), set<Slot>> {
    map f, d | f in fids && d in Days :: (f, d) := FacultySlots(tt, f, d)
  }

  /** classroomDailySchedule: the slots each classroom is used in on each day. */
  function RoomDays(tt: seq<Entry>, rids: seq<Id>): map<(Id, Day), set<Slot>> {
    map r, d | r in rids && d in Days :: (r, d) := RoomSlots(tt, r, d)
  }

  /** batchSubjectProgress: the classes placed so far per batch and subject. */
  function Progress(tt: seq<Entry>, bids: seq<Id>, sids: seq<Id>): map<(Id, Id), nat> {
    map b, s | b in bids && s in sids :: (b, s) := CountPlaced(tt, b, s)
  }

  /** The four maps the placement pass keeps beside the timetable. */
  datatype Books = Books(
    batchDay: map<(Id, Day), seq<Entry>>,
    facultyDay: map<(Id, Day), set<Slot>>,
    roomDay: map<(Id, Day), set<Slot>>,
    progress: map<(Id, Id), nat>)

  /** The maps as the timetable `tt` determines them. */
  function BooksOf(tt: seq<Entry>, batches: seq<Batch>, subjects: seq<Subject>, faculties: seq<Faculty>, rooms: seq<Id>): Books {
    Books(BatchDays(tt, BatchIds(batches)), FacultyDays(tt, FacultyIds(faculties)),
          RoomDays(tt, rooms), Progress(tt, BatchIds(batches), SubjectIds(subjects)))
  }

  /** The tables agree with the timetable `tt` built so far. */
  ghost predicate Agrees(
    subjectToFaculty: map<Id, seq<Id>>, books: Books, tt: seq<Entry>, nextId: nat,
    batches: seq<Batch>, subjects: seq<Subject>, faculties: seq<Faculty>, rooms: seq<Id>)
  {
    && (forall sid :: Lookup(subjectToFaculty, sid) == QualifiedList(faculties, sid))
    && books == BooksOf(tt, batches, subjects, faculties, rooms)
    && nextId == |tt| + 1
  }

  /** One more class counted for key k. */
  function Bump(m: map<(Id, Id), nat>, k: (Id, Id)): map<(Id, Id), nat>
    requires k in m
  {
    m[k := m[k] + 1]
  }

  /** The updates after a placement: the entry joins its batch's day, its slot is
      taken for its faculty member and classroom, and its subject's count goes up. */
  function Recorded(b: Books, e: Entry): Books
    requires (e.batch, e.day) in b.batchDay && (e.faculty, e.day) in b.facultyDay
    requires (e.room, e.day) in b.roomDay && (e.batch, e.subject) in b.progress
  {
    Books(
      b.batchDay[(e.batch, e.day) := b.batchDay[(e.batch, e.day)] + [e]],
      b.facultyDay[(e.faculty, e.day) := b.facultyDay[(e.faculty, e.day)] + {e.slot}],
      b.roomDay[(e.room, e.day) := b.roomDay[(e.room, e.day)] + {e.slot}],
      Bump(b.progress, (e.batch, e.subject)))
  }

  lemma BatchDayAppend(tt: seq<Entry>, bids: seq<Id>, e: Entry, k: (Id, Day))
    requires k in BatchDays(tt + [e], bids)
    ensures k in BatchDays(tt, bids)
    ensures BatchDays(tt + [e], bids)[k] == BatchDays(tt, bids)[k] + (if k == (e.batch, e.day) then [e] else [])
  {
    EntriesOnAppend(tt, e, k.0, k.1);
  }

  /** Appending e to its batch's day list gives the batch table of the longer timetable. */
  lemma BatchDaysAppend(tt: seq<Entry>, bids: seq<Id>, e: Entry)
    requires e.batch in bids
    ensures (e.batch, e.day) in BatchDays(tt, bids)
    ensures BatchDays(tt + [e], bids)
         == BatchDays(tt, bids)[(e.batch, e.day) := BatchDays(tt, bids)[(e.batch, e.day)] + [e]]
  {
    DayListed(e.day);
    var before, after := BatchDays(tt, bids), BatchDays(tt + [e], bids);
    var updated := before[(e.batch, e.day) := before[(e.batch, e.day)] + [e]];
    forall k | k in after
      ensures k in updated && after[k] == updated[k]
    {
      BatchDayAppend(tt, bids, e, k);
    }
    assert after.Keys == updated.Keys;
  }

  lemma FacultySlotsAppend(tt: seq<Entry>, e: Entry, f: Id, d: Day)
    ensures FacultySlots(tt + [e], f, d) == FacultySlots(tt, f, d) + (if e.faculty == f && e.day == d then {e.slot} else {})
  {
    var now := FacultySlots(tt + [e], f, d);
    var was := FacultySlots(tt, f, d);
    forall s | s in now ensures s in was + (if e.faculty == f && e.day == d then {e.slot} else {}) {
      var x :| x in tt + [e] && x.faculty == f && x.day == d && x.slot == s;
      if x != e {
        assert x in tt;
      }
    }
  }

  lemma RoomSlotsAppend(tt: seq<Entry>, e: Entry, r: Id, d: Day)
    ensures RoomSlots(tt + [e], r, d) == RoomSlots(tt, r, d) + (if e.room == r && e.day == d then {e.slot} else {})
  {
    var now := RoomSlots(tt + [e], r, d);
    var was := RoomSlots(tt, r, d);
    forall s | s in now ensures s in was + (if e.room == r && e.day == d then {e.slot} else {}) {
      var x :| x in tt + [e] && x.room == r && x.day == d && x.slot == s;
      if x != e {
        assert x in tt;
      }
    }
  }

  /** Adding e's slot to its faculty member's day gives the faculty table of the
      longer timetable. */
  lemma FacultyDaysAppend(tt: seq<Entry>, fids: seq<Id>, e: Entry)
    requires e.faculty in fids
    ensures (e.faculty, e.day) in FacultyDays(tt, fids)
    ensures FacultyDays(tt + [e], fids)
         == FacultyDays(tt, fids)[(e.faculty, e.day) := FacultyDays(tt, fids)[(e.faculty, e.day)] + {e.slot}]
  {
    DayListed(e.day);
    var before, after := FacultyDays(tt, fids), FacultyDays(tt + [e], fids);
    var updated := before[(e.faculty, e.day) := before[(e.faculty, e.day)] + {e.slot}];
    forall k | k in after
      ensures k in updated && after[k] == updated[k]
    {
      FacultySlotsAppend(tt, e, k.0, k.1);
    }
    assert after.Keys == updated.Keys;
  }

  /** Adding e's slot to its classroom's day gives the classroom table of the
      longer timetable. */
  lemma RoomDaysAppend(tt: seq<Entry>, rids: seq<Id>, e: Entry)
    requires e.room in rids
    ensures (e.room, e.day) in RoomDays(tt, rids)
    ensures RoomDays(tt + [e], rids)
         == RoomDays(tt, rids)[(e.room, e.day) := RoomDays(tt, rids)[(e.room, e.day)] + {e.slot}]
  {
    DayListed(e.day);
    var before, after := RoomDays(tt, rids), RoomDays(tt + [e], rids);
    var updated := before[(e.room, e.day) := before[(e.room, e.day)] + {e.slot}];
    forall k | k in after
      ensures k in updated && after[k] == updated[k]
    {
      RoomSlotsAppend(tt, e, k.0, k.1);
    }
    assert after.Keys == updated.Keys;
  }

  /** Counting e for its batch and subject gives the progress table of the longer
      timetable. */
  lemma ProgressAppend(tt: seq<Entry>, bids: seq<Id>, sids: seq<Id>, e: Entry)
    requires e.batch in bids && e.subject in sids
    ensures (e.batch, e.subject) in Progress(tt, bids, sids)
    ensures Progress(tt + [e], bids, sids) == Bump(Progress(tt, bids, sids), (e.batch, e.subject))
  {
    var before, after := Progress(tt, bids, sids), Progress(tt + [e], bids, sids);
    var updated := Bump(before, (e.batch, e.subject));
    forall k | k in after
      ensures k in updated && after[k] == updated[k]
    {
      assert (tt + [e])[..|tt|] == tt;
    }
    assert after.Keys == updated.Keys;
  }

  /** The four updates after a placement turn the maps of a timetable into the
      maps of the timetable with the new entry appended. */
  lemma RecordedBooks(tt: seq<Entry>, batches: seq<Batch>, subjects: seq<Subject>, faculties: seq<Faculty>, rooms: seq<Id>, e: Entry)
    requires e.batch in BatchIds(batches) && e.subject in SubjectIds(subjects)
    requires e.faculty in FacultyIds(faculties) && e.room in rooms
    ensures var b := BooksOf(tt, batches, subjects, faculties, rooms);
      (e.batch, e.day) in b.batchDay && (e.faculty, e.day) in b.facultyDay
      && (e.room, e.day) in b.roomDay && (e.batch, e.subject) in b.progress
    ensures Recorded(BooksOf(tt, batches, subjects, faculties, rooms), e) == BooksOf(tt + [e], batches, subjects, faculties, rooms)
  {
    BatchDaysAppend(tt, BatchIds(batches), e);
    FacultyDaysAppend(tt, FacultyIds(faculties), e);
    RoomDaysAppend(tt, rooms, e);
    ProgressAppend(tt, BatchIds(batches), SubjectIds(subjects), e);
  }

  /** Recording entry e in every table, as the source does after a placement,
      keeps them in agreement with the extended timetable. */
  lemma RecordKeepsAgreement(
    subjectToFaculty: map<Id, seq<Id>>, books: Books, tt: seq<Entry>, nextId: nat,
    batches: seq<Batch>, subjects: seq<Subject>, faculties: seq<Faculty>, rooms: seq<Id>, e: Entry)
    requires Agrees(subjectToFaculty, books, tt, nextId, batches, subjects, faculties, rooms)
    requires e.batch in BatchIds(batches) && e.subject in SubjectIds(subjects)
    requires e.faculty in FacultyIds(faculties) && e.room in rooms
    ensures (e.batch, e.day) in books.batchDay && (e.faculty, e.day) in books.facultyDay
    ensures (e.room, e.day) in books.roomDay && (e.batch, e.subject) in books.progress
    ensures Agrees(subjectToFaculty, Recorded(books, e), tt + [e], nextId + 1, batches, subjects, faculties, rooms)
  {
    RecordedBooks(tt, batches, subjects, faculties, rooms, e);
  }
}
