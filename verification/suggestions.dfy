/** generateSuggestions: four checks in a fixed order, each adding one piece of
    advice, and an affirmative message when none of them fires. */
module Suggestions {
  import opened Types
  import opened Metrics
  import opened ConflictDetection
  import Selection
  import Timetable

  /** The five messages, in the order the checks run. */
  datatype Suggestion =
    | ImproveUtilization   // utilization below 70 %
    | RebalanceWorkload    // busiest and idlest faculty more than 10 hours apart
    | AddTeaching          // average workload below 15 hours
    | ResolveConflicts     // the timetable has a conflict
    | WellOptimized        // none of the above

  function Rank(s: Suggestion): nat {
    match s
    case ImproveUtilization => 0
    case RebalanceWorkload => 1
    case AddTeaching => 2
    case ResolveConflicts => 3
    case WellOptimized => 4
  }

  /** The workload spread test: Math.max / Math.min of no values are -Infinity and
      +Infinity, so it never fires without faculty. */
  predicate Unbalanced(workloads: seq<int>) {
    workloads != [] && MaxOf(workloads) - MinOf(workloads) > 10
  }

  /** The light-workload test: the average of no values is NaN, so it never
      fires without faculty. */
  predicate Light(workloads: seq<int>) {
    workloads != [] && Mean(workloads) < 15.0
  }

  /** One check: its message is appended when it fires. */
  function Then(s: seq<Suggestion>, fires: bool, message: Suggestion): seq<Suggestion> {
    if fires then s + [message] else s
  }

  /** The messages for the outcomes of the four checks, in check order. */
  function Messages(lowUtilization: bool, unbalanced: bool, light: bool, conflicted: bool): seq<Suggestion> {
    var fired :=
      Then(Then(Then(Then([], lowUtilization, ImproveUtilization),
        unbalanced, RebalanceWorkload), light, AddTeaching), conflicted, ResolveConflicts);
    if fired == [] then [WellOptimized] else fired
  }

  /** The advice for a utilization figure, the workload values and the number of
      conflict reports. */
  function Advice(utilization: Number, workloads: seq<int>, conflicts: nat): seq<Suggestion> {
    Messages(Below(utilization, 70), Unbalanced(workloads), Light(workloads), conflicts > 0)
  }

  ghost predicate InCheckOrder(s: seq<Suggestion>) {
    forall i, j :: 0 <= i < j < |s| ==> Rank(s[i]) < Rank(s[j])
  }

  lemma ThenMeaning(s: seq<Suggestion>, fires: bool, message: Suggestion)
    requires InCheckOrder(s) && forall x :: x in s ==> Rank(x) < Rank(message)
    ensures InCheckOrder(Then(s, fires, message))
    ensures forall x :: x in Then(s, fires, message) <==> x in s || (fires && x == message)
  {
  }

  /** Each message appears exactly when its check fires, in check order and at
      most once; the affirmative message appears exactly when no check fired,
      and then alone. */
  lemma MessagesMeaning(lowUtilization: bool, unbalanced: bool, light: bool, conflicted: bool)
    ensures var r := Messages(lowUtilization, unbalanced, light, conflicted);
      && r != []
      && (ImproveUtilization in r <==> lowUtilization)
      && (RebalanceWorkload in r <==> unbalanced)
      && (AddTeaching in r <==> light)
      && (ResolveConflicts in r <==> conflicted)
      && (WellOptimized in r <==> !lowUtilization && !unbalanced && !light && !conflicted)
      && (WellOptimized in r ==> r == [WellOptimized])
      && InCheckOrder(r)
  {
    var s1 := Then([], lowUtilization, ImproveUtilization);
    ThenMeaning([], lowUtilization, ImproveUtilization);
    var s2 := Then(s1, unbalanced, RebalanceWorkload);
    ThenMeaning(s1, unbalanced, RebalanceWorkload);
    var s3 := Then(s2, light, AddTeaching);
    ThenMeaning(s2, light, AddTeaching);
    var s4 := Then(s3, conflicted, ResolveConflicts);
    ThenMeaning(s3, conflicted, ResolveConflicts);
    if s4 != [] {
      assert s4[0] in s4;
    }
  }

  /** Without faculty neither workload message is given. */
  lemma NoFacultyNoWorkloadAdvice(tt: seq<Entry>, utilization: Number, conflicts: nat)
    ensures var r := Advice(utilization, WorkloadValues(tt, []), conflicts);
      RebalanceWorkload !in r && AddTeaching !in r
  {
    WorkloadValuesMeaning(tt, []);
    assert (set fac: Faculty | fac in [] :: fac.id) == {};
    var ws := WorkloadValues(tt, []);
    MessagesMeaning(Below(utilization, 70), Unbalanced(ws), Light(ws), conflicts > 0);
  }

  /** A timetable the placement pass could build is never told to resolve conflicts. */
  lemma SoundNeedsNoConflictAdvice(ctx: Selection.Context, fs: seq<Faculty>, tt: seq<Entry>, utilization: Number, workloads: seq<int>)
    requires Timetable.Sound(ctx, fs, tt)
    ensures ResolveConflicts !in Advice(utilization, workloads, |Conflicts(tt)|)
  {
    SoundHasNoConflicts(ctx, fs, tt);
    MessagesMeaning(Below(utilization, 70), Unbalanced(workloads), Light(workloads), false);
  }

  /** The source's sequence of checks and pushes. */
  method GenerateSuggestions(tt: seq<Entry>, classrooms: seq<Classroom>, faculties: seq<Faculty>,
                             totalTimeSlots: nat) returns (suggestions: seq<Suggestion>)
    ensures suggestions == Advice(ClassroomUtilization(tt, classrooms, totalTimeSlots),
                                  WorkloadValues(tt, faculties), |Conflicts(tt)|)
  {
    suggestions := [];
    var utilization := ClassroomUtilization(tt, classrooms, totalTimeSlots);
    if Below(utilization, 70) {
      suggestions := suggestions + [ImproveUtilization];
    }
    var workloads := WorkloadValues(tt, faculties);
    if Unbalanced(workloads) {
      suggestions := suggestions + [RebalanceWorkload];
    }
    if Light(workloads) {
      suggestions := suggestions + [AddTeaching];
    }
    var conflicts := DetectConflicts(tt);
    if |conflicts| > 0 {
      suggestions := suggestions + [ResolveConflicts];
    }
    if |suggestions| == 0 {
      suggestions := suggestions + [WellOptimized];
    }
  }
}
