/** calculateOptimizationScore: 100 minus penalties for low utilization,
    unbalanced workloads, too many free periods and conflicts, rounded and
    never below 60. */
module Scoring {
  import opened Types
  import opened Metrics
  import opened ConflictDetection
  import opened FreePeriods

  function RMin(a: real, b: real): real {
    if a < b then a else b
  }

  /** 15 points below 60 % utilization, 8 points below 80 %; none for NaN or Infinity. */
  function UtilizationPenalty(u: Number): real {
    if Below(u, 60) then 15.0 else if Below(u, 80) then 8.0 else 0.0
  }

  /** With two or more workloads: 10 points for a variance above 25, 5 above 10. */
  function BalancePenalty(workloads: seq<int>): real {
    if |workloads| > 1 then
      (if Variance(workloads) > 25.0 then 10.0 else if Variance(workloads) > 10.0 then 5.0 else 0.0)
    else 0.0
  }

  /** Free periods beyond a tenth of the classes cost two points each, 15 at most. */
  function FreePeriodPenalty(free: nat, classes: nat): real {
    var allowed := classes as real * 0.1;
    if free as real > allowed then RMin(15.0, (free as real - allowed) * 2.0) else 0.0
  }

  /** Five points per conflict report. */
  function ConflictPenalty(reports: nat): real {
    reports as real * 5.0
  }

  /** Everything the score loses, read off the timetable; the free-period test
      uses the configured break even when breaks are disabled. */
  function Deductions(tt: seq<Entry>, classrooms: seq<Classroom>, faculties: seq<Faculty>,
                      totalTimeSlots: nat, c: Constraints): real {
    UtilizationPenalty(ClassroomUtilization(tt, classrooms, totalTimeSlots))
      + BalancePenalty(WorkloadValues(tt, faculties))
      + FreePeriodPenalty(TotalFreePeriods(tt, c.breakDuration), |tt|)
      + ConflictPenalty(|Conflicts(tt)|)
  }

  function ScoreOf(tt: seq<Entry>, classrooms: seq<Classroom>, faculties: seq<Faculty>,
                   totalTimeSlots: nat, c: Constraints): int {
    Max(Round(100.0 - Deductions(tt, classrooms, faculties, totalTimeSlots, c)), 60)
  }

  lemma PenaltiesNonNegative(tt: seq<Entry>, classrooms: seq<Classroom>, faculties: seq<Faculty>,
                             totalTimeSlots: nat, c: Constraints)
    ensures Deductions(tt, classrooms, faculties, totalTimeSlots, c) >= 0.0
  {
  }

  /** The score is a percentage between 60 and 100. */
  lemma ScoreBounds(tt: seq<Entry>, classrooms: seq<Classroom>, faculties: seq<Faculty>,
                    totalTimeSlots: nat, c: Constraints)
    ensures 60 <= ScoreOf(tt, classrooms, faculties, totalTimeSlots, c) <= 100
  {
  }

  /** The score is 100 exactly when the penalties add up to at most half a point. */
  lemma PerfectScore(tt: seq<Entry>, classrooms: seq<Classroom>, faculties: seq<Faculty>,
                     totalTimeSlots: nat, c: Constraints)
    ensures ScoreOf(tt, classrooms, faculties, totalTimeSlots, c) == 100
        <==> Deductions(tt, classrooms, faculties, totalTimeSlots, c) <= 0.5
  {
  }

  /** Each conflict report costs five points until the floor of 60 is reached. */
  lemma ConflictsLowerScore(tt: seq<Entry>, classrooms: seq<Classroom>, faculties: seq<Faculty>,
                            totalTimeSlots: nat, c: Constraints)
    ensures ScoreOf(tt, classrooms, faculties, totalTimeSlots, c) <= Max(100 - 5 * |Conflicts(tt)|, 60)
  {
  }

  /** The source's sequence of `score -=` steps. */
  method CalculateOptimizationScore(tt: seq<Entry>, classrooms: seq<Classroom>, faculties: seq<Faculty>,
                                    totalTimeSlots: nat, c: Constraints) returns (result: int)
    ensures result == ScoreOf(tt, classrooms, faculties, totalTimeSlots, c)
  {
    var score := 100.0;
    var utilizationRate := ClassroomUtilization(tt, classrooms, totalTimeSlots);
    if Below(utilizationRate, 60) {
      score := score - 15.0;
    } else if Below(utilizationRate, 80) {
      score := score - 8.0;
    }
    assert score == 100.0 - UtilizationPenalty(utilizationRate);
    var workloads := WorkloadValues(tt, faculties);
    if |workloads| > 1 {
      var avgWorkload := Sum(workloads) as real / |workloads| as real;
      var workloadVariance := SquaredDeviations(workloads, avgWorkload) / |workloads| as real;
      if workloadVariance > 25.0 {
        score := score - 10.0;
      } else if workloadVariance > 10.0 {
        score := score - 5.0;
      }
    }
    assert score == 100.0 - UtilizationPenalty(utilizationRate) - BalancePenalty(workloads);
    var totalFreePeriods := CountFreePeriods(tt, c.breakDuration);
    var maxAllowedFreePeriods := |tt| as real * 0.1;
    if totalFreePeriods as real > maxAllowedFreePeriods {
      score := score - RMin(15.0, (totalFreePeriods as real - maxAllowedFreePeriods) * 2.0);
    }
    assert score == 100.0 - UtilizationPenalty(utilizationRate) - BalancePenalty(workloads)
                    - FreePeriodPenalty(totalFreePeriods, |tt|);
    var conflicts := DetectConflicts(tt);
    score := score - |conflicts| as real * 5.0;
    result := Max(Round(score), 60);
  }
}
