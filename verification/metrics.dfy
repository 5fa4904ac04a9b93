/** The statistics reported with a timetable: classroom utilization and
    faculty workload, with the arithmetic the score and the suggestions read. */
module Metrics {
  import opened Types
  import opened Timetable
  import opened ConflictDetection
  import Tables
  import Selection

  /** A number as JavaScript produces it here: finite, NaN (0 / 0) or +Infinity (n / 0). */
  datatype Number = Finite(value: int) | NaN | Infinity

  /** `x < k` for a JavaScript number: false for NaN and for +Infinity. */
  predicate Below(x: Number, k: int) {
    x.Finite? && x.value < k
  }

  /** Math.round: the nearest integer, halves rounded up. */
  function Round(x: real): (n: int)
    ensures n as real - 0.5 <= x < n as real + 0.5
  {
    (x + 0.5).Floor
  }

  /** calculateClassroomUtilization: placed classes as a percentage of
      classrooms x slots x 5 days, rounded. */
  function ClassroomUtilization(tt: seq<Entry>, classrooms: seq<Classroom>, totalTimeSlots: nat): Number {
    var totalPossibleSlots := |classrooms| * totalTimeSlots * 5;
    if totalPossibleSlots == 0 then (if tt == [] then NaN else Infinity)
    else Finite(Round(|tt| as real / totalPossibleSlots as real * 100.0))
  }

  // ---- every classroom, day and slot: the grid a sound timetable fits in ----

  /** The five cells of one classroom and slot, Monday to Friday. */
  function Week(r: Id, s: Slot): seq<(Id, Day, Slot)> {
    [(r, Monday, s), (r, Tuesday, s), (r, Wednesday, s), (r, Thursday, s), (r, Friday, s)]
  }

  function Row(r: Id, slots: seq<Slot>): seq<(Id, Day, Slot)>
    decreases |slots|
  {
    if slots == [] then [] else Row(r, slots[..|slots| - 1]) + Week(r, slots[|slots| - 1])
  }

  function Grid(rooms: seq<Id>, slots: seq<Slot>): seq<(Id, Day, Slot)>
    decreases |rooms|
  {
    if rooms == [] then [] else Grid(rooms[..|rooms| - 1], slots) + Row(rooms[|rooms| - 1], slots)
  }

  lemma {:induction false} RowCovers(r: Id, slots: seq<Slot>)
    ensures |Row(r, slots)| == |slots| * 5
    ensures forall d, s :: s in slots ==> (r, d, s) in Row(r, slots)
    decreases |slots|
  {
    if slots != [] {
      var front, last := slots[..|slots| - 1], slots[|slots| - 1];
      RowCovers(r, front);
      forall d, s | s in slots
        ensures (r, d, s) in Row(r, slots)
      {
        if s == last {
          assert (r, d, s) in Week(r, s) by {
            assert Week(r, s)[DayIndex(d)] == (r, d, s);
          }
        } else {
          assert s in front by {
            var k :| 0 <= k < |slots| && slots[k] == s;
            assert front[k] == s;
          }
        }
      }
    }
  }

  lemma MultiplyStep(n: nat, m: nat)
    ensures (n + 1) * m == n * m + m
  {
  }

  lemma {:induction false} GridSize(rooms: seq<Id>, slots: seq<Slot>)
    ensures |Grid(rooms, slots)| == |rooms| * |slots| * 5
    decreases |rooms|
  {
    if rooms != [] {
      var n, m := |rooms| - 1, |slots|;
      GridSize(rooms[..n], slots);
      RowCovers(rooms[n], slots);
      assert |Grid(rooms, slots)| == n * m * 5 + m * 5;
      MultiplyStep(n, m);
      assert (n + 1) * m * 5 == (n * m + m) * 5;
    }
  }

  lemma {:induction false} GridCovers(rooms: seq<Id>, slots: seq<Slot>, r: Id, d: Day, s: Slot)
    requires r in rooms && s in slots
    ensures (r, d, s) in Grid(rooms, slots)
    decreases |rooms|
  {
    var front, last := rooms[..|rooms| - 1], rooms[|rooms| - 1];
    assert Grid(rooms, slots) == Grid(front, slots) + Row(last, slots);
    if r == last {
      RowCovers(last, slots);
      assert (r, d, s) in Row(last, slots);
    } else {
      var k :| 0 <= k < |rooms| && rooms[k] == r;
      assert front[k] == r;
      GridCovers(front, slots, r, d, s);
    }
  }

  lemma {:induction false} ElementsBound<T>(xs: seq<T>)
    ensures |set x | x in xs| <= |xs|
    decreases |xs|
  {
    if xs != [] {
      var front := xs[..|xs| - 1];
      ElementsBound(front);
      assert xs == front + [xs[|xs| - 1]];
      assert (set x | x in xs) == (set x | x in front) + {xs[|xs| - 1]};
    }
  }

  lemma SubsetBound<T>(a: set<T>, b: set<T>)
    requires a <= b
    ensures |a| <= |b|
  {
    assert b == a + (b - a);
  }

  /** A sound timetable never holds more classes than there are classroom,
      day and slot cells: no classroom is used twice in one cell. */
  lemma SoundFitsGrid(ctx: Selection.Context, fs: seq<Faculty>, tt: seq<Entry>)
    requires Sound(ctx, fs, tt)
    ensures |tt| <= |ctx.rooms| * |ctx.slots| * 5
  {
    SoundHasNoConflicts(ctx, fs, tt);
    RoomConflictsCount(tt);
    GridSize(ctx.rooms, ctx.slots);
    var cells := set x | x in Grid(ctx.rooms, ctx.slots);
    forall k | k in RoomKeys(tt)
      ensures k in cells
    {
      var e :| e in tt && RoomKey(e) == k;
      GridCovers(ctx.rooms, ctx.slots, e.room, e.day, e.slot);
    }
    SubsetBound(RoomKeys(tt), cells);
    ElementsBound(Grid(ctx.rooms, ctx.slots));
  }

  lemma PercentBound(used: nat, total: nat)
    requires 0 < total && used <= total
    ensures 0 <= Round(used as real / total as real * 100.0) <= 100
  {
    var q := used as real / total as real;
    assert q * total as real == used as real;
    assert 0.0 <= q <= 1.0;
  }

  /** For a timetable the placement pass could build, utilization is a
      percentage between 0 and 100, or NaN when there is no classroom or no
      slot (and then no class either). */
  lemma UtilizationBounds(ctx: Selection.Context, fs: seq<Faculty>, tt: seq<Entry>, classrooms: seq<Classroom>)
    requires Sound(ctx, fs, tt) && ctx.rooms == Tables.RoomIds(classrooms)
    ensures var u := ClassroomUtilization(tt, classrooms, |ctx.slots|);
      if |classrooms| * |ctx.slots| == 0 then u == NaN && tt == []
      else u.Finite? && 0 <= u.value <= 100
  {
    SoundFitsGrid(ctx, fs, tt);
    var total := |classrooms| * |ctx.slots| * 5;
    if total > 0 {
      PercentBound(|tt|, total);
    }
  }

  // ---- faculty workload ----

  /** The sum of `duration / 60` over the classes of faculty member `f`, in
      timetable order. */
  function HoursOf(tt: seq<Entry>, f: Id): real
    decreases |tt|
  {
    if tt == [] then 0.0
    else
      var e := tt[|tt| - 1];
      HoursOf(tt[..|tt| - 1], f) + (if e.faculty == f then e.duration as real / 60.0 else 0.0)
  }

  /** The minutes `f` teaches. */
  function MinutesOf(tt: seq<Entry>, f: Id): int
    decreases |tt|
  {
    if tt == [] then 0
    else
      var e := tt[|tt| - 1];
      MinutesOf(tt[..|tt| - 1], f) + (if e.faculty == f then e.duration else 0)
  }

  /** Adding up each class's fraction of an hour gives the total minutes in hours. */
  lemma {:induction false} HoursAreMinutes(tt: seq<Entry>, f: Id)
    ensures HoursOf(tt, f) == MinutesOf(tt, f) as real / 60.0
    decreases |tt|
  {
    if tt != [] {
      HoursAreMinutes(tt[..|tt| - 1], f);
    }
  }

  /** calculateFacultyWorkload: one key per faculty id, holding the rounded hours. */
  function FacultyWorkload(tt: seq<Entry>, faculties: seq<Faculty>): map<Id, int> {
    map f | f in Tables.FacultyIds(faculties) :: Round(HoursOf(tt, f))
  }

  /** Every faculty member has a workload, including those with no class; each
      is the whole number of hours nearest their teaching minutes. */
  lemma WorkloadMeaning(tt: seq<Entry>, faculties: seq<Faculty>)
    ensures FacultyWorkload(tt, faculties).Keys == set fac | fac in faculties :: fac.id
    ensures forall f :: f in FacultyWorkload(tt, faculties) ==>
      var w := FacultyWorkload(tt, faculties)[f];
      w as real - 0.5 <= MinutesOf(tt, f) as real / 60.0 < w as real + 0.5
  {
    forall f | f in FacultyWorkload(tt, faculties)
      ensures var w := FacultyWorkload(tt, faculties)[f];
        w as real - 0.5 <= MinutesOf(tt, f) as real / 60.0 < w as real + 0.5
    {
      HoursAreMinutes(tt, f);
    }
    forall f | f in set fac | fac in faculties :: fac.id
      ensures f in Tables.FacultyIds(faculties)
    {
      var fac :| fac in faculties && fac.id == f;
      var k :| 0 <= k < |faculties| && faculties[k] == fac;
      assert Tables.FacultyIds(faculties)[k] == f;
    }
  }

  lemma {:induction false} IdleHours(tt: seq<Entry>, f: Id)
    requires forall e :: e in tt ==> e.faculty != f
    ensures HoursOf(tt, f) == 0.0
    decreases |tt|
  {
    if tt != [] {
      assert tt[|tt| - 1] in tt;
      IdleHours(tt[..|tt| - 1], f);
    }
  }

  /** A faculty member without classes has workload 0. */
  lemma IdleFacultyHasZero(tt: seq<Entry>, faculties: seq<Faculty>, f: Id)
    requires f in Tables.FacultyIds(faculties)
    requires forall e :: e in tt ==> e.faculty != f
    ensures f in FacultyWorkload(tt, faculties) && FacultyWorkload(tt, faculties)[f] == 0
  {
    IdleHours(tt, f);
  }

  /** The ids of `ids` in order of first occurrence: the key order of the
      workload object, one key per distinct id. */
  function Distinct(ids: seq<Id>): (r: seq<Id>)
    decreases |ids|
  {
    if ids == [] then []
    else
      var front := Distinct(ids[..|ids| - 1]);
      if ids[|ids| - 1] in front then front else front + [ids[|ids| - 1]]
  }

  lemma {:induction false} DistinctMeaning(ids: seq<Id>)
    ensures forall x :: x in Distinct(ids) <==> x in ids
    ensures forall i, j :: 0 <= i < j < |Distinct(ids)| ==> Distinct(ids)[i] != Distinct(ids)[j]
    decreases |ids|
  {
    if ids != [] {
      var front := ids[..|ids| - 1];
      DistinctMeaning(front);
      assert ids == front + [ids[|ids| - 1]];
    }
  }

  /** Object.values of the workload object: one value per distinct faculty id. */
  function WorkloadValues(tt: seq<Entry>, faculties: seq<Faculty>): seq<int> {
    var ids := Distinct(Tables.FacultyIds(faculties));
    DistinctMeaning(Tables.FacultyIds(faculties));
    seq(|ids|, k requires 0 <= k < |ids| => FacultyWorkload(tt, faculties)[ids[k]])
  }

  /** There are as many values as distinct faculty ids, each a member's workload. */
  lemma WorkloadValuesMeaning(tt: seq<Entry>, faculties: seq<Faculty>)
    ensures |WorkloadValues(tt, faculties)| == |set fac | fac in faculties :: fac.id|
    ensures forall w :: w in WorkloadValues(tt, faculties) ==>
      exists f :: f in FacultyWorkload(tt, faculties) && FacultyWorkload(tt, faculties)[f] == w
  {
    var ids := Distinct(Tables.FacultyIds(faculties));
    DistinctMeaning(Tables.FacultyIds(faculties));
    WorkloadMeaning(tt, faculties);
    DistinctCard(ids);
    assert (set x | x in ids) == FacultyWorkload(tt, faculties).Keys;
    forall w | w in WorkloadValues(tt, faculties)
      ensures exists f :: f in FacultyWorkload(tt, faculties) && FacultyWorkload(tt, faculties)[f] == w
    {
      var k :| 0 <= k < |ids| && WorkloadValues(tt, faculties)[k] == w;
      assert ids[k] in FacultyWorkload(tt, faculties);
    }
  }

  lemma {:induction false} DistinctCard(xs: seq<Id>)
    requires forall i, j :: 0 <= i < j < |xs| ==> xs[i] != xs[j]
    ensures |set x | x in xs| == |xs|
    decreases |xs|
  {
    if xs != [] {
      var front, last := xs[..|xs| - 1], xs[|xs| - 1];
      DistinctCard(front);
      assert xs == front + [last];
      assert (set x | x in xs) == (set x | x in front) + {last};
      forall i | 0 <= i < |front|
        ensures front[i] != last
      {
        assert front[i] == xs[i];
      }
    }
  }

  // ---- arithmetic over the workload values ----

  function Sum(xs: seq<int>): int
    decreases |xs|
  {
    if xs == [] then 0 else Sum(xs[..|xs| - 1]) + xs[|xs| - 1]
  }

  function Mean(xs: seq<int>): real
    requires xs != []
  {
    Sum(xs) as real / |xs| as real
  }

  function Square(x: real): real {
    x * x
  }

  function SquaredDeviations(xs: seq<int>, m: real): real
    decreases |xs|
  {
    if xs == [] then 0.0 else SquaredDeviations(xs[..|xs| - 1], m) + Square(xs[|xs| - 1] as real - m)
  }

  /** The population variance of the workloads. */
  function Variance(xs: seq<int>): real
    requires xs != []
  {
    SquaredDeviations(xs, Mean(xs)) / |xs| as real
  }

  function MaxOf(xs: seq<int>): (m: int)
    requires xs != []
    ensures m in xs && forall x :: x in xs ==> x <= m
    decreases |xs|
  {
    if |xs| == 1 then xs[0]
    else
      var front := xs[..|xs| - 1];
      assert xs == front + [xs[|xs| - 1]];
      Max(MaxOf(front), xs[|xs| - 1])
  }

  function MinOf(xs: seq<int>): (m: int)
    requires xs != []
    ensures m in xs && forall x :: x in xs ==> m <= x
    decreases |xs|
  {
    if |xs| == 1 then xs[0]
    else
      var front := xs[..|xs| - 1];
      assert xs == front + [xs[|xs| - 1]];
      Min(MinOf(front), xs[|xs| - 1])
  }

  lemma {:induction false} SquaresNonNegative(xs: seq<int>, m: real)
    ensures SquaredDeviations(xs, m) >= 0.0
    decreases |xs|
  {
    if xs != [] {
      SquaresNonNegative(xs[..|xs| - 1], m);
      var d := xs[|xs| - 1] as real - m;
      assert Square(d) >= 0.0;
    }
  }

  lemma {:induction false} SumOfConstant(xs: seq<int>, c: int)
    requires forall x :: x in xs ==> x == c
    ensures Sum(xs) == |xs| * c
    ensures SquaredDeviations(xs, c as real) == 0.0
    decreases |xs|
  {
    if xs != [] {
      var front := xs[..|xs| - 1];
      assert xs == front + [xs[|xs| - 1]];
      assert forall x :: x in front ==> x in xs;
      SumOfConstant(front, c);
      assert xs[|xs| - 1] in xs;
      assert Sum(xs) == |front| * c + c;
    }
  }

  /** Deviations from a value every element equals add up to nothing. */
  lemma {:induction false} NoDeviation(xs: seq<int>, c: int)
    requires forall x :: x in xs ==> x == c
    ensures SquaredDeviations(xs, c as real) == 0.0
    decreases |xs|
  {
    if xs != [] {
      var front := xs[..|xs| - 1];
      assert forall x :: x in front ==> x in xs;
      NoDeviation(front, c);
      assert xs[|xs| - 1] in xs;
    }
  }

  /** The mean of copies of one value is that value. */
  lemma MeanOfConstant(xs: seq<int>, c: int)
    requires xs != [] && forall x :: x in xs ==> x == c
    ensures Mean(xs) == c as real
  {
    SumOfConstant(xs, c);
    var n := |xs| as real;
    assert Sum(xs) as real == n * c as real;
    assert n * c as real / n == c as real;
  }

  /** The variance is never negative, and it is zero when every workload is the same. */
  lemma VarianceMeaning(xs: seq<int>)
    requires xs != []
    ensures Variance(xs) >= 0.0
    ensures (forall x :: x in xs ==> x == xs[0]) ==> Variance(xs) == 0.0
  {
    SquaresNonNegative(xs, Mean(xs));
    if forall x :: x in xs ==> x == xs[0] {
      MeanOfConstant(xs, xs[0]);
      NoDeviation(xs, xs[0]);
    }
  }
}
