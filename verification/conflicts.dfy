/** The double-booking check run over a finished timetable: one pass for
    faculty members and one for classrooms, each reporting every entry whose
    (id, day, slot) key was already seen earlier in the timetable. */
module ConflictDetection {
  import opened Types
  import opened Timetable

  /** The two kinds of report, with the id, day and slot they name. */
  datatype Conflict =
    | FacultyConflict(faculty: Id, day: Day, slot: Slot)
    | ClassroomConflict(room: Id, day: Day, slot: Slot)

  /** The key `${facultyId}-${day}-${timeSlot}`: day names are fixed and a slot
      text has a fixed shape, so the text determines the triple and back. */
  function FacultyKey(e: Entry): (Id, Day, Slot) {
    (e.faculty, e.day, e.slot)
  }

  function RoomKey(e: Entry): (Id, Day, Slot) {
    (e.room, e.day, e.slot)
  }

  /** The keys the faculty pass has stored after reading `tt`. */
  function FacultyKeys(tt: seq<Entry>): set<(Id, Day, Slot)> {
    set e | e in tt :: FacultyKey(e)
  }

  function RoomKeys(tt: seq<Entry>): set<(Id, Day, Slot)> {
    set e | e in tt :: RoomKey(e)
  }

  /** The reports of the faculty pass, in timetable order. */
  function FacultyConflicts(tt: seq<Entry>): seq<Conflict>
    decreases |tt|
  {
    if tt == [] then []
    else
      var e := tt[|tt| - 1];
      FacultyConflicts(tt[..|tt| - 1])
        + (if FacultyKey(e) in FacultyKeys(tt[..|tt| - 1]) then [FacultyConflict(e.faculty, e.day, e.slot)] else [])
  }

  /** The reports of the classroom pass, in timetable order. */
  function RoomConflicts(tt: seq<Entry>): seq<Conflict>
    decreases |tt|
  {
    if tt == [] then []
    else
      var e := tt[|tt| - 1];
      RoomConflicts(tt[..|tt| - 1])
        + (if RoomKey(e) in RoomKeys(tt[..|tt| - 1]) then [ClassroomConflict(e.room, e.day, e.slot)] else [])
  }

  /** All reports: the faculty pass first, then the classroom pass. */
  function Conflicts(tt: seq<Entry>): seq<Conflict> {
    FacultyConflicts(tt) + RoomConflicts(tt)
  }

  lemma FacultyKeysAppend(tt: seq<Entry>, e: Entry)
    ensures FacultyKeys(tt + [e]) == FacultyKeys(tt) + {FacultyKey(e)}
  {
    assert forall x :: x in tt + [e] <==> x in tt || x == e;
  }

  lemma RoomKeysAppend(tt: seq<Entry>, e: Entry)
    ensures RoomKeys(tt + [e]) == RoomKeys(tt) + {RoomKey(e)}
  {
    assert forall x :: x in tt + [e] <==> x in tt || x == e;
  }

  /** One more entry: the faculty pass reports it exactly when its key was seen. */
  lemma FacultyStep(tt: seq<Entry>, e: Entry)
    ensures FacultyKeys(tt + [e]) == FacultyKeys(tt) + {FacultyKey(e)}
    ensures FacultyConflicts(tt + [e]) == FacultyConflicts(tt)
      + (if FacultyKey(e) in FacultyKeys(tt) then [FacultyConflict(e.faculty, e.day, e.slot)] else [])
  {
    FacultyKeysAppend(tt, e);
    assert (tt + [e])[..|tt|] == tt;
  }

  lemma RoomStep(tt: seq<Entry>, e: Entry)
    ensures RoomKeys(tt + [e]) == RoomKeys(tt) + {RoomKey(e)}
    ensures RoomConflicts(tt + [e]) == RoomConflicts(tt)
      + (if RoomKey(e) in RoomKeys(tt) then [ClassroomConflict(e.room, e.day, e.slot)] else [])
  {
    RoomKeysAppend(tt, e);
    assert (tt + [e])[..|tt|] == tt;
  }

  /** The faculty loop: a report for every entry whose key is already stored,
      otherwise the key is stored. */
  method FacultyPass(tt: seq<Entry>) returns (conflicts: seq<Conflict>)
    ensures conflicts == FacultyConflicts(tt)
  {
    conflicts := [];
    var facultyTimeSlots: set<(Id, Day, Slot)> := {};
    for i := 0 to |tt|
      invariant facultyTimeSlots == FacultyKeys(tt[..i])
      invariant conflicts == FacultyConflicts(tt[..i])
    {
      var e := tt[i];
      assert tt[..i + 1] == tt[..i] + [e];
      FacultyStep(tt[..i], e);
      if FacultyKey(e) in facultyTimeSlots {
        conflicts := conflicts + [FacultyConflict(e.faculty, e.day, e.slot)];
      } else {
        facultyTimeSlots := facultyTimeSlots + {FacultyKey(e)};
      }
    }
    assert tt[..|tt|] == tt;
  }

  /** The classroom loop, appending to the reports gathered so far. */
  method ClassroomPass(tt: seq<Entry>, reports: seq<Conflict>) returns (conflicts: seq<Conflict>)
    ensures conflicts == reports + RoomConflicts(tt)
  {
    conflicts := reports;
    var classroomTimeSlots: set<(Id, Day, Slot)> := {};
    for i := 0 to |tt|
      invariant classroomTimeSlots == RoomKeys(tt[..i])
      invariant conflicts == reports + RoomConflicts(tt[..i])
    {
      var e := tt[i];
      assert tt[..i + 1] == tt[..i] + [e];
      RoomStep(tt[..i], e);
      if RoomKey(e) in classroomTimeSlots {
        conflicts := conflicts + [ClassroomConflict(e.room, e.day, e.slot)];
      } else {
        classroomTimeSlots := classroomTimeSlots + {RoomKey(e)};
      }
    }
    assert tt[..|tt|] == tt;
  }

  /** Both passes over the timetable: faculty reports first, then classroom reports. */
  method DetectConflicts(tt: seq<Entry>) returns (conflicts: seq<Conflict>)
    ensures conflicts == Conflicts(tt)
  {
    conflicts := FacultyPass(tt);
    conflicts := ClassroomPass(tt, conflicts);
  }

  /** No faculty member teaches twice at the same day and slot. */
  ghost predicate FacultyUnique(tt: seq<Entry>) {
    forall i, j :: 0 <= i < j < |tt| ==> FacultyKey(tt[i]) != FacultyKey(tt[j])
  }

  /** No classroom is used twice at the same day and slot. */
  ghost predicate RoomUnique(tt: seq<Entry>) {
    forall i, j :: 0 <= i < j < |tt| ==> RoomKey(tt[i]) != RoomKey(tt[j])
  }

  lemma {:induction false} FacultyConflictsEmpty(tt: seq<Entry>)
    ensures FacultyConflicts(tt) == [] <==> FacultyUnique(tt)
    decreases |tt|
  {
    if tt != [] {
      var front, e := tt[..|tt| - 1], tt[|tt| - 1];
      FacultyConflictsEmpty(front);
      if FacultyKey(e) in FacultyKeys(front) {
        var x :| x in front && FacultyKey(x) == FacultyKey(e);
        var i :| 0 <= i < |front| && front[i] == x;
        assert tt[i] == x;
      } else if FacultyUnique(front) {
        forall i, j | 0 <= i < j < |tt|
          ensures FacultyKey(tt[i]) != FacultyKey(tt[j])
        {
          assert tt[i] == front[i];
          if j < |front| {
            assert tt[j] == front[j];
          } else {
            assert front[i] in front;
          }
        }
      } else {
        var i, j :| 0 <= i < j < |front| && FacultyKey(front[i]) == FacultyKey(front[j]);
        assert tt[i] == front[i] && tt[j] == front[j];
      }
    }
  }

  lemma {:induction false} RoomConflictsEmpty(tt: seq<Entry>)
    ensures RoomConflicts(tt) == [] <==> RoomUnique(tt)
    decreases |tt|
  {
    if tt != [] {
      var front, e := tt[..|tt| - 1], tt[|tt| - 1];
      RoomConflictsEmpty(front);
      if RoomKey(e) in RoomKeys(front) {
        var x :| x in front && RoomKey(x) == RoomKey(e);
        var i :| 0 <= i < |front| && front[i] == x;
        assert tt[i] == x;
      } else if RoomUnique(front) {
        forall i, j | 0 <= i < j < |tt|
          ensures RoomKey(tt[i]) != RoomKey(tt[j])
        {
          assert tt[i] == front[i];
          if j < |front| {
            assert tt[j] == front[j];
          } else {
            assert front[i] in front;
          }
        }
      } else {
        var i, j :| 0 <= i < j < |front| && RoomKey(front[i]) == RoomKey(front[j]);
        assert tt[i] == front[i] && tt[j] == front[j];
      }
    }
  }

  /** The check reports nothing exactly when no faculty member and no classroom
      is used twice at the same day and slot. */
  lemma NoConflictsIff(tt: seq<Entry>)
    ensures Conflicts(tt) == [] <==> FacultyUnique(tt) && RoomUnique(tt)
  {
    FacultyConflictsEmpty(tt);
    RoomConflictsEmpty(tt);
  }

  /** Each pass reports one message per entry whose key repeats an earlier one:
      the reports and the distinct keys add up to the number of entries. */
  lemma {:induction false} FacultyConflictsCount(tt: seq<Entry>)
    ensures |FacultyConflicts(tt)| + |FacultyKeys(tt)| == |tt|
    decreases |tt|
  {
    if tt == [] {
      assert FacultyKeys(tt) == {};
    } else {
      var front, e := tt[..|tt| - 1], tt[|tt| - 1];
      FacultyConflictsCount(front);
      assert tt == front + [e];
      FacultyStep(front, e);
      if FacultyKey(e) in FacultyKeys(front) {
        assert FacultyKeys(tt) == FacultyKeys(front);
      } else {
        assert |FacultyKeys(tt)| == |FacultyKeys(front)| + 1;
      }
    }
  }

  lemma {:induction false} RoomConflictsCount(tt: seq<Entry>)
    ensures |RoomConflicts(tt)| + |RoomKeys(tt)| == |tt|
    decreases |tt|
  {
    if tt == [] {
      assert RoomKeys(tt) == {};
    } else {
      var front, e := tt[..|tt| - 1], tt[|tt| - 1];
      RoomConflictsCount(front);
      assert tt == front + [e];
      RoomStep(front, e);
      if RoomKey(e) in RoomKeys(front) {
        assert RoomKeys(tt) == RoomKeys(front);
      } else {
        assert |RoomKeys(tt)| == |RoomKeys(front)| + 1;
      }
    }
  }

  /** A timetable built by the placement pass never has a conflict. */
  lemma SoundHasNoConflicts(ctx: Selection.Context, fs: seq<Faculty>, tt: seq<Entry>)
    requires Sound(ctx, fs, tt)
    ensures Conflicts(tt) == []
  {
    NoConflictsIff(tt);
  }
}
