/** createFallbackTimetable end to end, and the choice between the external
    service's answer and the fallback. */
module Fallback {
  import opened Types
  import opened TimeSlots
  import opened Pool
  import opened Selection
  import opened Timetable
  import opened Tables
  import opened Scheduling
  import opened ConflictDetection
  import opened Metrics
  import opened Scoring
  import opened Suggestions

  datatype Stats = Stats(classroomUtilization: Number, facultyWorkload: map<Id, int>, suggestions: seq<Suggestion>)

  /** The object the optimizer returns. */
  datatype Outcome = Outcome(timetable: seq<Entry>, utilizationStats: Stats, conflicts: seq<Conflict>, score: int)

  /** The placement context the fallback works in. */
  function FallbackContext(c: Constraints, classrooms: seq<Classroom>): Context
    requires Terminates(c)
  {
    Context(DaySlots(c), c.maxClassesPerDay, RoomIds(classrooms))
  }

  /** The timetable the fallback builds from the shuffled pool. */
  function FallbackTimetable(c: Constraints, classrooms: seq<Classroom>, batches: seq<Batch>,
                             subjects: seq<Subject>, faculties: seq<Faculty>, draws: seq<real>): seq<Entry>
    requires Terminates(c)
    requires ValidDraws(draws) && |RequiredClasses(batches, subjects, c.classDuration)| <= |draws| + 1
  {
    PlaceAll(FallbackContext(c, classrooms), faculties, Shuffled(RequiredClasses(batches, subjects, c.classDuration), draws))
  }

  /** The returned object for a timetable: its statistics, conflicts and score. */
  function Report(tt: seq<Entry>, classrooms: seq<Classroom>, faculties: seq<Faculty>, slotCount: nat, c: Constraints): Outcome {
    var utilization := ClassroomUtilization(tt, classrooms, slotCount);
    Outcome(tt,
            Stats(utilization, FacultyWorkload(tt, faculties), Advice(utilization, WorkloadValues(tt, faculties), |Conflicts(tt)|)),
            Conflicts(tt),
            ScoreOf(tt, classrooms, faculties, slotCount, c))
  }

  /** What the fallback returns for its inputs. */
  function Fallback(c: Constraints, classrooms: seq<Classroom>, batches: seq<Batch>,
                    subjects: seq<Subject>, faculties: seq<Faculty>, draws: seq<real>): Outcome
    requires Terminates(c)
    requires ValidDraws(draws) && |RequiredClasses(batches, subjects, c.classDuration)| <= |draws| + 1
  {
    Report(FallbackTimetable(c, classrooms, batches, subjects, faculties, draws), classrooms, faculties, |DaySlots(c)|, c)
  }

  lemma IdsListed(batches: seq<Batch>, subjects: seq<Subject>, b: Batch, s: Subject)
    requires b in batches && s in subjects
    ensures b.id in BatchIds(batches) && s.id in SubjectIds(subjects)
  {
    var i :| 0 <= i < |batches| && batches[i] == b;
    var k :| 0 <= k < |subjects| && subjects[k] == s;
    assert BatchIds(batches)[i] == b.id;
    assert SubjectIds(subjects)[k] == s.id;
  }

  /** Every pool occurrence names a listed batch and a listed subject. */
  lemma PoolIdsListed(batches: seq<Batch>, subjects: seq<Subject>, cd: nat, x: Instance)
    requires x in RequiredClasses(batches, subjects, cd)
    ensures x.batch in BatchIds(batches) && x.subject in SubjectIds(subjects)
  {
    RequiredClassesMembers(batches, subjects, cd, x);
    var b, s :| b in batches && s in subjects && s.classesPerWeek > 0 && x == InstanceOf(b, s, cd);
    IdsListed(batches, subjects, b, s);
  }

  /** Slots, pool, shuffle, placement, then the statistics of the result. */
  method CreateFallbackTimetable(c: Constraints, classrooms: seq<Classroom>, batches: seq<Batch>,
                                 subjects: seq<Subject>, faculties: seq<Faculty>, draws: seq<real>)
      returns (r: Outcome)
    requires Terminates(c) && ValidClocks(c)
    requires ValidDraws(draws) && |RequiredClasses(batches, subjects, c.classDuration)| <= |draws| + 1
    ensures r == Fallback(c, classrooms, batches, subjects, faculties, draws)
  {
    var timeSlots := GenerateTimeSlots(c);
    var requiredClasses := BuildPool(batches, subjects, c.classDuration);
    var pool := new Instance[|requiredClasses|](i requires 0 <= i < |requiredClasses| => requiredClasses[i]);
    assert pool[..] == requiredClasses;
    Shuffle(pool, draws);
    var s, subjectToFaculty, books, empty, nextId :=
      Initialize(timeSlots, c.maxClassesPerDay, classrooms, batches, subjects, faculties);
    forall x | x in pool[..]
      ensures x.batch in BatchIds(batches) && x.subject in SubjectIds(subjects)
    {
      assert x in multiset(pool[..]);
      PoolIdsListed(batches, subjects, c.classDuration, x);
    }
    var timetable := PlacePool(s, subjectToFaculty, books, pool);
    var conflicts := DetectConflicts(timetable);
    var score := CalculateOptimizationScore(timetable, classrooms, faculties, |timeSlots|, c);
    var suggestions := GenerateSuggestions(timetable, classrooms, faculties, |timeSlots|);
    var utilization := ClassroomUtilization(timetable, classrooms, |timeSlots|);
    r := Outcome(timetable, Stats(utilization, FacultyWorkload(timetable, faculties), suggestions), conflicts, score);
  }

  /** The fallback's timetable is sound, conflict free and drawn from the pool;
      its utilization lies in [0, 100] (NaN without classrooms or slots), its
      score in [60, 100], and it is never told to resolve conflicts. */
  lemma FallbackGuarantees(c: Constraints, classrooms: seq<Classroom>, batches: seq<Batch>,
                           subjects: seq<Subject>, faculties: seq<Faculty>, draws: seq<real>)
    requires Terminates(c)
    requires ValidDraws(draws) && |RequiredClasses(batches, subjects, c.classDuration)| <= |draws| + 1
    ensures var r := Fallback(c, classrooms, batches, subjects, faculties, draws);
      && Sound(FallbackContext(c, classrooms), faculties, r.timetable)
      && multiset(Placed(r.timetable)) <= multiset(RequiredClasses(batches, subjects, c.classDuration))
      && r.conflicts == []
      && ResolveConflicts !in r.utilizationStats.suggestions
      && 60 <= r.score <= 100
      && var u := r.utilizationStats.classroomUtilization;
         if |classrooms| * |DaySlots(c)| == 0 then u == NaN && r.timetable == []
         else u.Finite? && 0 <= u.value <= 100
  {
    var ctx := FallbackContext(c, classrooms);
    var pool := RequiredClasses(batches, subjects, c.classDuration);
    var shuffled := Shuffled(pool, draws);
    var tt := FallbackTimetable(c, classrooms, batches, subjects, faculties, draws);
    PlaceAllSound(ctx, faculties, shuffled);
    PlaceAllFromPool(ctx, faculties, shuffled);
    ShuffledPermutes(pool, draws);
    SoundHasNoConflicts(ctx, faculties, tt);
    SoundNeedsNoConflictAdvice(ctx, faculties, tt, ClassroomUtilization(tt, classrooms, |DaySlots(c)|), WorkloadValues(tt, faculties));
    ScoreBounds(tt, classrooms, faculties, |DaySlots(c)|, c);
    UtilizationBounds(ctx, faculties, tt, classrooms);
  }

  /** The external service's reply: a parsed answer, or any of the failures that
      send the optimizer to the fallback (a network error, a response that is not
      OK, a missing content field, content that is not JSON). */
  datatype Reply = Parsed(answer: Outcome) | Failed

  /** optimizeTimetable: the parsed answer when there is one, the fallback otherwise. */
  method OptimizeTimetable(reply: Reply, c: Constraints, classrooms: seq<Classroom>, batches: seq<Batch>,
                           subjects: seq<Subject>, faculties: seq<Faculty>, draws: seq<real>)
      returns (r: Outcome)
    requires reply.Failed? ==> Terminates(c) && ValidClocks(c)
    requires reply.Failed? ==> ValidDraws(draws) && |RequiredClasses(batches, subjects, c.classDuration)| <= |draws| + 1
    ensures reply.Parsed? ==> r == reply.answer
    ensures reply.Failed? ==> r == Fallback(c, classrooms, batches, subjects, faculties, draws)
  {
    match reply
    case Parsed(answer) =>
      r := answer;
    case Failed =>
      r := CreateFallbackTimetable(c, classrooms, batches, subjects, faculties, draws);
  }
}
