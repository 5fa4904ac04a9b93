/** The placement pass as the source runs it: occupancy tables per (batch, day),
    (faculty, day) and (classroom, day) that are updated on every placement, an
    append-only timetable and a running entry counter. */
module Scheduling {
  import opened Types
  import opened Selection
  import opened Timetable
  import opened Tables

  // ---- building the tables ----

  /** `subjectToFaculty` after the first i faculty members and the first k subjects
      of faculty member i. */
  function PartialQualified(fs: seq<Faculty>, i: nat, k: nat, sid: Id): seq<Id>
    requires i < |fs| && k <= |fs[i].subjects|
  {
    QualifiedList(fs[..i], sid) + Repeat(fs[i].id, CountOf(fs[i].subjects[..k], sid))
  }

  lemma PartialQualifiedStep(fs: seq<Faculty>, i: nat, k: nat, sid: Id)
    requires i < |fs| && k < |fs[i].subjects|
    ensures PartialQualified(fs, i, k + 1, sid)
         == PartialQualified(fs, i, k, sid) + (if fs[i].subjects[k] == sid then [fs[i].id] else [])
  {
    var subs := fs[i].subjects;
    assert subs[..k + 1][..k] == subs[..k];
    var n := CountOf(subs[..k], sid);
    assert Repeat(fs[i].id, n + 1) == Repeat(fs[i].id, n) + [fs[i].id];
  }

  lemma PartialQualifiedDone(fs: seq<Faculty>, i: nat, sid: Id)
    requires i < |fs|
    ensures PartialQualified(fs, i, |fs[i].subjects|, sid) == QualifiedList(fs[..i + 1], sid)
  {
    assert fs[..i + 1][..i] == fs[..i];
    assert fs[i].subjects[..|fs[i].subjects|] == fs[i].subjects;
  }

  lemma PartialQualifiedStart(fs: seq<Faculty>, i: nat, sid: Id)
    requires i < |fs|
    ensures PartialQualified(fs, i, 0, sid) == QualifiedList(fs[..i], sid)
  {
    assert Repeat(fs[i].id, 0) == [];
  }

  /** `get(subjectId).push(id)`, after creating the list when it is missing. */
  lemma PushStep(m: map<Id, seq<Id>>, subjectId: Id, id: Id, sid: Id)
    ensures Lookup(m[subjectId := Lookup(m, subjectId) + [id]], sid)
         == Lookup(m, sid) + (if subjectId == sid then [id] else [])
  {
  }

  /** The inner loop: faculty member i is appended to the list of every subject
      it names. */
  method AddFaculty(fs: seq<Faculty>, i: nat, m0: map<Id, seq<Id>>) returns (m: map<Id, seq<Id>>)
    requires i < |fs|
    requires forall sid :: Lookup(m0, sid) == QualifiedList(fs[..i], sid)
    ensures forall sid :: Lookup(m, sid) == QualifiedList(fs[..i + 1], sid)
  {
    m := m0;
    forall sid ensures Lookup(m, sid) == PartialQualified(fs, i, 0, sid) {
      PartialQualifiedStart(fs, i, sid);
    }
    for k := 0 to |fs[i].subjects|
      invariant forall sid :: Lookup(m, sid) == PartialQualified(fs, i, k, sid)
    {
      var subjectId := fs[i].subjects[k];
      if subjectId !in m {
        m := m[subjectId := []];
      }
      ghost var before := m;
      assert m[subjectId] == Lookup(before, subjectId);
      m := m[subjectId := m[subjectId] + [fs[i].id]];
      forall sid ensures Lookup(m, sid) == PartialQualified(fs, i, k + 1, sid) {
        PushStep(before, subjectId, fs[i].id, sid);
        PartialQualifiedStep(fs, i, k, sid);
      }
    }
    forall sid ensures Lookup(m, sid) == QualifiedList(fs[..i + 1], sid) {
      PartialQualifiedDone(fs, i, sid);
    }
  }

  /** The loops that fill `subjectToFaculty`: each faculty member is appended to the
      list of every subject it names. */
  method BuildSubjectToFaculty(fs: seq<Faculty>) returns (m: map<Id, seq<Id>>)
    ensures forall sid :: Lookup(m, sid) == QualifiedList(fs, sid)
  {
    m := map[];
    for i := 0 to |fs|
      invariant forall sid :: Lookup(m, sid) == QualifiedList(fs[..i], sid)
    {
      m := AddFaculty(fs, i, m);
    }
    assert fs[..|fs|] == fs;
  }

  /** The per-faculty or per-classroom initialisation: an empty slot set for
      every id and day. */
  method EmptySlotTable(ids: seq<Id>) returns (t: map<(Id, Day), set<Slot>>)
    ensures forall k :: k in t <==> k.0 in ids && k.1 in Days
    ensures forall k :: k in t ==> t[k] == {}
  {
    t := map[];
    for i := 0 to |ids|
      invariant forall k :: k in t <==> k.0 in ids[..i] && k.1 in Days
      invariant forall k :: k in t ==> t[k] == {}
    {
      for j := 0 to |Days|
        invariant forall k :: k in t <==> (k.0 in ids[..i] && k.1 in Days) || (k.0 == ids[i] && k.1 in Days[..j])
        invariant forall k :: k in t ==> t[k] == {}
      {
        t := t[(ids[i], Days[j]) := {}];
        assert Days[..j + 1] == Days[..j] + [Days[j]];
      }
      assert Days[..|Days|] == Days;
      assert ids[..i + 1] == ids[..i] + [ids[i]];
    }
    assert ids[..|ids|] == ids;
  }

  /** The per-batch initialisation: an empty class list per day, and a zero
      progress counter per subject. */
  method EmptyBatchTables(bids: seq<Id>, sids: seq<Id>) returns (t: map<(Id, Day), seq<Entry>>, p: map<(Id, Id), nat>)
    ensures forall k :: k in t <==> k.0 in bids && k.1 in Days
    ensures forall k :: k in t ==> t[k] == []
    ensures forall k :: k in p <==> k.0 in bids && k.1 in sids
    ensures forall k :: k in p ==> p[k] == 0
  {
    t, p := map[], map[];
    for i := 0 to |bids|
      invariant forall k :: k in t <==> k.0 in bids[..i] && k.1 in Days
      invariant forall k :: k in t ==> t[k] == []
      invariant forall k :: k in p <==> k.0 in bids[..i] && k.1 in sids
      invariant forall k :: k in p ==> p[k] == 0
    {
      for j := 0 to |Days|
        invariant forall k :: k in t <==> (k.0 in bids[..i] && k.1 in Days) || (k.0 == bids[i] && k.1 in Days[..j])
        invariant forall k :: k in t ==> t[k] == []
      {
        t := t[(bids[i], Days[j]) := []];
        assert Days[..j + 1] == Days[..j] + [Days[j]];
      }
      for j := 0 to |sids|
        invariant forall k :: k in p <==> (k.0 in bids[..i] && k.1 in sids) || (k.0 == bids[i] && k.1 in sids[..j])
        invariant forall k :: k in p ==> p[k] == 0
      {
        p := p[(bids[i], sids[j]) := 0];
        assert sids[..j + 1] == sids[..j] + [sids[j]];
      }
      assert Days[..|Days|] == Days && sids[..|sids|] == sids;
      assert bids[..i + 1] == bids[..i] + [bids[i]];
    }
    assert bids[..|bids|] == bids;
  }

  /** The class lists built by the initialisation are those of the empty timetable. */
  lemma InitialBatchDays(t: map<(Id, Day), seq<Entry>>, bids: seq<Id>)
    requires forall k :: k in t <==> k.0 in bids && k.1 in Days
    requires forall k :: k in t ==> t[k] == []
    ensures t == BatchDays([], bids)
  {
    assert t.Keys == BatchDays([], bids).Keys;
  }

  /** The slot sets built by the initialisation are those of the empty timetable. */
  lemma InitialSlotDays(t: map<(Id, Day), set<Slot>>, ids: seq<Id>)
    requires forall k :: k in t <==> k.0 in ids && k.1 in Days
    requires forall k :: k in t ==> t[k] == {}
    ensures t == FacultyDays([], ids) && t == RoomDays([], ids)
  {
    forall k | k in t
      ensures k in FacultyDays([], ids) && FacultyDays([], ids)[k] == {}
      ensures k in RoomDays([], ids) && RoomDays([], ids)[k] == {}
    {
      assert FacultyDays([], ids)[k] == FacultySlots([], k.0, k.1);
      assert RoomDays([], ids)[k] == RoomSlots([], k.0, k.1);
    }
    assert t.Keys == FacultyDays([], ids).Keys;
    assert t.Keys == RoomDays([], ids).Keys;
  }

  /** The counters built by the initialisation are those of the empty timetable. */
  lemma InitialProgress(p: map<(Id, Id), nat>, bids: seq<Id>, sids: seq<Id>)
    requires forall k :: k in p <==> k.0 in bids && k.1 in sids
    requires forall k :: k in p ==> p[k] == 0
    ensures p == Progress([], bids, sids)
  {
    assert p.Keys == Progress([], bids, sids).Keys;
  }

  /** The search for the first id whose table entry for (day, slot) is free. */
  method FirstFreeIn(ids: seq<Id>, t: map<(Id, Day), set<Slot>>, day: Day, slot: Slot, ghost busy: set<Id>)
      returns (r: Option<Id>)
    requires forall id :: id in ids ==> (id, day) in t && (slot in t[(id, day)] <==> id in busy)
    ensures r == FirstFree(ids, busy)
  {
    var k := 0;
    while k < |ids|
      invariant k <= |ids|
      invariant FirstFreeFrom(ids, busy, k) == FirstFree(ids, busy)
    {
      if slot !in t[(ids[k], day)] {
        return Some(ids[k]);
      }
      k := k + 1;
    }
    return None;
  }

  /** What the placement pass reads and never changes: the slots, the daily cap
      and the classroom ids, and the batch, subject and faculty lists. */
  datatype Setting = Setting(ctx: Context, batches: seq<Batch>, subjects: seq<Subject>, faculties: seq<Faculty>)

  /** The four tables mirror the timetable built so far. */
  ghost predicate Mirrors(s: Setting, books: Books, tt: seq<Entry>) {
    books == BooksOf(tt, s.batches, s.subjects, s.faculties, s.ctx.rooms)
  }

  /** The state of the placement pass agrees with the timetable built so far. */
  ghost predicate Valid(s: Setting, subjectToFaculty: map<Id, seq<Id>>, books: Books, tt: seq<Entry>, nextId: nat) {
    Agrees(subjectToFaculty, books, tt, nextId, s.batches, s.subjects, s.faculties, s.ctx.rooms)
  }

  /** The set-up before the placement loop: `subjectToFaculty`, the four tables
      with every key present and nothing recorded, an empty timetable, and the id
      counter at 1. */
  method Initialize(slots: seq<Slot>, cap: int, classrooms: seq<Classroom>,
                    batches: seq<Batch>, subjects: seq<Subject>, faculties: seq<Faculty>)
      returns (s: Setting, subjectToFaculty: map<Id, seq<Id>>, books: Books, timetable: seq<Entry>, nextId: nat)
    ensures s == Setting(Context(slots, cap, RoomIds(classrooms)), batches, subjects, faculties)
    ensures Valid(s, subjectToFaculty, books, timetable, nextId) && timetable == []
  {
    s := Setting(Context(slots, cap, RoomIds(classrooms)), batches, subjects, faculties);
    subjectToFaculty := BuildSubjectToFaculty(faculties);
    var byBatch, counts := EmptyBatchTables(BatchIds(batches), SubjectIds(subjects));
    var byFaculty := EmptySlotTable(FacultyIds(faculties));
    var byRoom := EmptySlotTable(RoomIds(classrooms));
    InitialBatchDays(byBatch, BatchIds(batches));
    InitialSlotDays(byFaculty, FacultyIds(faculties));
    InitialSlotDays(byRoom, RoomIds(classrooms));
    InitialProgress(counts, BatchIds(batches), SubjectIds(subjects));
    books, timetable, nextId := Books(byBatch, byFaculty, byRoom, counts), [], 1;
  }

  /** Everybody `subjectToFaculty` lists is a faculty member with a table. */
  lemma QualifiedAreFaculty(fs: seq<Faculty>, sid: Id)
    ensures forall f :: f in QualifiedList(fs, sid) ==> f in FacultyIds(fs)
  {
    forall f | f in QualifiedList(fs, sid)
      ensures f in FacultyIds(fs)
    {
      QualifiedListMembers(fs, sid, f);
      var fac :| fac in fs && fac.id == f && sid in fac.subjects;
      var k :| 0 <= k < |fs| && fs[k] == fac;
      assert FacultyIds(fs)[k] == f;
    }
  }

  /** The faculty loop: the first qualified faculty member whose day does not
      have the slot yet. */
  method FreeFaculty(facultyDay: map<(Id, Day), set<Slot>>, tt: seq<Entry>, fids: seq<Id>,
                     qualified: seq<Id>, day: Day, slot: Slot) returns (r: Option<Id>)
    requires facultyDay == FacultyDays(tt, fids) && forall f :: f in qualified ==> f in fids
    ensures r == FirstFree(qualified, BusyFaculty(tt, day, slot))
  {
    DayListed(day);
    forall f | f in qualified
      ensures (f, day) in facultyDay && (slot in facultyDay[(f, day)] <==> f in BusyFaculty(tt, day, slot))
    {
      BusyFacultyIsFacultySlots(tt, day, slot, f);
    }
    r := FirstFreeIn(qualified, facultyDay, day, slot, BusyFaculty(tt, day, slot));
  }

  /** The classroom loop: the first classroom whose day does not have the slot yet. */
  method FreeRoom(roomDay: map<(Id, Day), set<Slot>>, tt: seq<Entry>, rooms: seq<Id>, day: Day, slot: Slot)
      returns (r: Option<Id>)
    requires roomDay == RoomDays(tt, rooms)
    ensures r == FirstFree(rooms, BusyRooms(tt, day, slot))
  {
    DayListed(day);
    forall room | room in rooms
      ensures (room, day) in roomDay && (slot in roomDay[(room, day)] <==> room in BusyRooms(tt, day, slot))
    {
      BusyRoomsIsRoomSlots(tt, day, slot, room);
    }
    r := FirstFreeIn(rooms, roomDay, day, slot, BusyRooms(tt, day, slot));
  }

  /** The batch's classes on a day, read from its table. */
  lemma BatchLookup(s: Setting, books: Books, tt: seq<Entry>, b: Id, day: Day)
    requires Mirrors(s, books, tt) && b in BatchIds(s.batches)
    ensures (b, day) in books.batchDay && books.batchDay[(b, day)] == EntriesOn(tt, b, day)
  {
    DayListed(day);
  }

  /** The body of the slot loop: the candidate at slot number si of `day`. */
  method Evaluate(s: Setting, books: Books, tt: seq<Entry>, inst: Instance, qualified: seq<Id>, day: Day, si: nat)
      returns (cand: Option<Scored>)
    requires Mirrors(s, books, tt) && inst.batch in BatchIds(s.batches) && si < |s.ctx.slots|
    requires forall f :: f in qualified ==> f in FacultyIds(s.faculties)
    ensures cand == Candidate(s.ctx, tt, inst, qualified, day, si)
  {
    var ctx := s.ctx;
    var slot := ctx.slots[si];
    BatchLookup(s, books, tt, inst.batch, day);
    var batchSchedule := books.batchDay[(inst.batch, day)];
    ghost var faculty' := FirstFree(qualified, BusyFaculty(tt, day, slot));
    ghost var room' := FirstFree(ctx.rooms, BusyRooms(tt, day, slot));
    assert Candidate(ctx, tt, inst, qualified, day, si) == Verdict(ctx, batchSchedule, inst, day, si, faculty', room');
    if Booked(batchSchedule, slot) {
      return None;
    }
    var faculty := FreeFaculty(books.facultyDay, tt, FacultyIds(s.faculties), qualified, day, slot);
    if faculty.None? || faculty.value == "" {
      return None;
    }
    var room := FreeRoom(books.roomDay, tt, ctx.rooms, day, slot);
    if room.None? || room.value == "" {
      return None;
    }
    var score := Adjacent(ctx.slots, batchSchedule, slot) * 10
      + (ctx.cap - |batchSchedule|) * 5
      - SameSubject(batchSchedule, inst.subject) * 20
      + (|ctx.slots| - si) * 2;
    cand := Some(Scored(score, Choice(day, slot, faculty.value, room.value)));
  }

  /** The slot loop of one day, continuing the scan from `b`. */
  method ScanDay(s: Setting, books: Books, tt: seq<Entry>, inst: Instance, qualified: seq<Id>, day: Day, b: Best)
      returns (best: Best)
    requires Mirrors(s, books, tt) && inst.batch in BatchIds(s.batches)
    requires forall f :: f in qualified ==> f in FacultyIds(s.faculties)
    requires |EntriesOn(tt, inst.batch, day)| < s.ctx.cap
    ensures best == FoldFrom(b, DayCandidates(s.ctx, tt, inst, qualified, day))
  {
    ghost var today := DayCandidates(s.ctx, tt, inst, qualified, day);
    var bestScore, bestSchedule := b.score, b.choice;
    for si := 0 to |s.ctx.slots|
      invariant Best(bestScore, bestSchedule) == FoldFrom(b, today[..si])
    {
      var cand := Evaluate(s, books, tt, inst, qualified, day, si);
      FoldFromStep(b, today, si);
      assert today[si] == cand;
      if cand.Some? && cand.value.score > bestScore {
        bestScore := cand.value.score;
        bestSchedule := Some(cand.value.choice);
      }
    }
    assert today[..|s.ctx.slots|] == today;
    best := Best(bestScore, bestSchedule);
  }

  lemma CandidatesOverStep(ctx: Context, tt: seq<Entry>, inst: Instance, qualified: seq<Id>, di: nat)
    requires di < |Days|
    ensures CandidatesOver(ctx, tt, inst, qualified, Days[..di + 1])
         == CandidatesOver(ctx, tt, inst, qualified, Days[..di]) + DayCandidates(ctx, tt, inst, qualified, Days[di])
  {
    assert Days[..di + 1][..di] == Days[..di];
  }

  /** The day and slot loops that track `bestScore` and `bestSchedule`, skipping
      days on which the batch is full. */
  method Select(s: Setting, books: Books, tt: seq<Entry>, inst: Instance, qualified: seq<Id>) returns (best: Best)
    requires Mirrors(s, books, tt) && inst.batch in BatchIds(s.batches)
    requires forall f :: f in qualified ==> f in FacultyIds(s.faculties)
    ensures best == Choose(s.ctx, tt, inst, qualified)
  {
    best := Best(-1, None);
    for di := 0 to |Days|
      invariant best == FoldFrom(Best(-1, None), CandidatesOver(s.ctx, tt, inst, qualified, Days[..di]))
    {
      var day := Days[di];
      ghost var before := CandidatesOver(s.ctx, tt, inst, qualified, Days[..di]);
      ghost var today := DayCandidates(s.ctx, tt, inst, qualified, day);
      CandidatesOverStep(s.ctx, tt, inst, qualified, di);
      FoldFromAppend(Best(-1, None), before, today);
      BatchLookup(s, books, tt, inst.batch, day);
      var batchSchedule := books.batchDay[(inst.batch, day)];
      if |batchSchedule| >= s.ctx.cap {
        assert today == [];
        continue;
      }
      best := ScanDay(s, books, tt, inst, qualified, day, best);
    }
    assert Days[..|Days|] == Days;
  }

  /** A choice the scan returns can be recorded: its faculty member and classroom
      have tables. */
  lemma ChoiceHasTables(s: Setting, tt: seq<Entry>, inst: Instance, ch: Choice)
    requires Choose(s.ctx, tt, inst, QualifiedList(s.faculties, inst.subject)).choice == Some(ch)
    ensures ch.faculty in FacultyIds(s.faculties) && ch.room in s.ctx.rooms
  {
    var q := QualifiedList(s.faculties, inst.subject);
    ChosenAdmissible(s.ctx, tt, inst, q);
    FirstFreeIsFree(q, BusyFaculty(tt, ch.day, ch.slot), ch.faculty);
    FirstFreeIsFree(s.ctx.rooms, BusyRooms(tt, ch.day, ch.slot), ch.room);
    QualifiedAreFaculty(s.faculties, inst.subject);
  }

  /** One iteration of the placement loop: look up the qualified faculty, skip
      the occurrence when there is none, otherwise scan, and record the best
      candidate if one was found (push the entry, update the four tables, move
      the id counter on). */
  method Place(s: Setting, subjectToFaculty: map<Id, seq<Id>>, books: Books, tt: seq<Entry>, nextId: nat, inst: Instance)
      returns (books': Books, tt': seq<Entry>, nextId': nat)
    requires Valid(s, subjectToFaculty, books, tt, nextId)
    requires inst.batch in BatchIds(s.batches) && inst.subject in SubjectIds(s.subjects)
    ensures Valid(s, subjectToFaculty, books', tt', nextId')
    ensures tt' == Timetable.Place(s.ctx, tt, inst, QualifiedList(s.faculties, inst.subject))
  {
    books', tt', nextId' := books, tt, nextId;
    var availableFaculties := Lookup(subjectToFaculty, inst.subject);
    assert availableFaculties == QualifiedList(s.faculties, inst.subject);
    if availableFaculties == [] {
      return;
    }
    QualifiedAreFaculty(s.faculties, inst.subject);
    var best := Select(s, books, tt, inst, availableFaculties);
    if best.choice.Some? {
      var ch := best.choice.value;
      ChoiceHasTables(s, tt, inst, ch);
      var entry := Entry(nextId, ch.day, ch.slot, inst.subject, ch.faculty, ch.room, inst.batch, inst.duration);
      assert entry == NewEntry(tt, inst, ch);
      RecordKeepsAgreement(subjectToFaculty, books, tt, nextId, s.batches, s.subjects, s.faculties, s.ctx.rooms, entry);
      books', tt', nextId' := Recorded(books, entry), tt + [entry], nextId + 1;
    }
  }

  /** The placement loop over the shuffled pool. */
  method PlacePool(s: Setting, subjectToFaculty: map<Id, seq<Id>>, books: Books, pool: array<Instance>)
      returns (timetable: seq<Entry>)
    requires Valid(s, subjectToFaculty, books, [], 1)
    requires forall x :: x in pool[..] ==> x.batch in BatchIds(s.batches) && x.subject in SubjectIds(s.subjects)
    ensures timetable == PlaceAll(s.ctx, s.faculties, pool[..])
  {
    var tables, nextId := books, 1;
    timetable := [];
    for i := 0 to pool.Length
      invariant Valid(s, subjectToFaculty, tables, timetable, nextId)
      invariant timetable == PlaceAll(s.ctx, s.faculties, pool[..i])
    {
      assert pool[..i + 1][..i] == pool[..i];
      assert pool[i] in pool[..];
      tables, timetable, nextId := Place(s, subjectToFaculty, tables, timetable, nextId, pool[i]);
    }
    assert pool[..pool.Length] == pool[..];
  }
}
