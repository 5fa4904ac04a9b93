/** The pool of class occurrences that must be placed, and the Fisher-Yates
    shuffle that puts it in a random order before placement. */
module Pool {
  import opened Types

  /** `subject.duration || classDuration`: a zero (falsy) duration falls back to
      the configured class length. */
  function DurationOf(s: Subject, classDuration: nat): int {
    if s.duration != 0 then s.duration else classDuration
  }

  /** How many times a subject is required per week; a count that is not positive
      makes the source's counting loop run zero times. */
  function WeeklyCount(s: Subject): nat {
    if s.classesPerWeek > 0 then s.classesPerWeek else 0
  }

  /** The occurrence of subject `s` for batch `b`. */
  function InstanceOf(b: Batch, s: Subject, classDuration: nat): Instance {
    Instance(b.id, s.id, DurationOf(s, classDuration))
  }

  /** The first `n` weekly copies of subject `s` for batch `b`. */
  function Copies(b: Batch, s: Subject, classDuration: nat, n: nat): seq<Instance> {
    seq(n, _ => InstanceOf(b, s, classDuration))
  }

  /** The occurrences one batch needs, subject by subject. */
  function BatchInstances(b: Batch, subjects: seq<Subject>, classDuration: nat): seq<Instance>
    decreases |subjects|
  {
    if subjects == [] then []
    else
      var s := subjects[|subjects| - 1];
      BatchInstances(b, subjects[..|subjects| - 1], classDuration) + Copies(b, s, classDuration, WeeklyCount(s))
  }

  /** The whole pool: batches in order, then subjects in order, then weekly copies. */
  function RequiredClasses(batches: seq<Batch>, subjects: seq<Subject>, classDuration: nat): seq<Instance>
    decreases |batches|
  {
    if batches == [] then []
    else RequiredClasses(batches[..|batches| - 1], subjects, classDuration)
         + BatchInstances(batches[|batches| - 1], subjects, classDuration)
  }

  /** The three nested loops that fill the pool. */
  method BuildPool(batches: seq<Batch>, subjects: seq<Subject>, classDuration: nat) returns (pool: seq<Instance>)
    ensures pool == RequiredClasses(batches, subjects, classDuration)
  {
    pool := [];
    for i := 0 to |batches|
      invariant pool == RequiredClasses(batches[..i], subjects, classDuration)
    {
      assert batches[..i + 1][..i] == batches[..i];
      for k := 0 to |subjects|
        invariant pool == RequiredClasses(batches[..i], subjects, classDuration)
                          + BatchInstances(batches[i], subjects[..k], classDuration)
      {
        assert subjects[..k + 1][..k] == subjects[..k];
        ghost var before := pool;
        var week := 0;
        while week < subjects[k].classesPerWeek
          invariant 0 <= week <= WeeklyCount(subjects[k])
          invariant pool == before + Copies(batches[i], subjects[k], classDuration, week)
        {
          pool := pool + [Instance(batches[i].id, subjects[k].id, DurationOf(subjects[k], classDuration))];
          week := week + 1;
        }
      }
      assert subjects[..|subjects|] == subjects;
    }
    assert batches[..|batches|] == batches;
  }

  /** Number of occurrences in `pool` for batch `bid` and subject `sid`. */
  function CountFor(pool: seq<Instance>, bid: Id, sid: Id): nat
    decreases |pool|
  {
    if pool == [] then 0
    else CountFor(pool[..|pool| - 1], bid, sid)
         + (if pool[|pool| - 1].batch == bid && pool[|pool| - 1].subject == sid then 1 else 0)
  }

  /** How many batches carry the id `bid`. */
  function BatchOccurrences(batches: seq<Batch>, bid: Id): nat
    decreases |batches|
  {
    if batches == [] then 0
    else BatchOccurrences(batches[..|batches| - 1], bid) + (if batches[|batches| - 1].id == bid then 1 else 0)
  }

  /** The weekly demand for subject id `sid`, over every subject carrying it. */
  function Demand(subjects: seq<Subject>, sid: Id): nat
    decreases |subjects|
  {
    if subjects == [] then 0
    else Demand(subjects[..|subjects| - 1], sid)
         + (if subjects[|subjects| - 1].id == sid then WeeklyCount(subjects[|subjects| - 1]) else 0)
  }

  lemma {:induction false} CountForAppend(a: seq<Instance>, b: seq<Instance>, bid: Id, sid: Id)
    ensures CountFor(a + b, bid, sid) == CountFor(a, bid, sid) + CountFor(b, bid, sid)
    decreases |b|
  {
    if b == [] {
      assert a + b == a;
    } else {
      var b' := b[..|b| - 1];
      assert (a + b)[..|a + b| - 1] == a + b';
      CountForAppend(a, b', bid, sid);
    }
  }

  lemma {:induction false} CountForCopies(b: Batch, s: Subject, cd: nat, n: nat, bid: Id, sid: Id)
    ensures CountFor(Copies(b, s, cd, n), bid, sid) == if b.id == bid && s.id == sid then n else 0
  {
    if n > 0 {
      assert Copies(b, s, cd, n)[..n - 1] == Copies(b, s, cd, n - 1);
      CountForCopies(b, s, cd, n - 1, bid, sid);
    }
  }

  lemma {:induction false} CountForBatch(b: Batch, subjects: seq<Subject>, cd: nat, bid: Id, sid: Id)
    ensures CountFor(BatchInstances(b, subjects, cd), bid, sid) == if b.id == bid then Demand(subjects, sid) else 0
    decreases |subjects|
  {
    if subjects != [] {
      var s := subjects[|subjects| - 1];
      CountForBatch(b, subjects[..|subjects| - 1], cd, bid, sid);
      CountForAppend(BatchInstances(b, subjects[..|subjects| - 1], cd), Copies(b, s, cd, WeeklyCount(s)), bid, sid);
      CountForCopies(b, s, cd, WeeklyCount(s), bid, sid);
    }
  }

  /** Every (batch, subject) pair is required as often as the subject's weekly
      count, once per batch carrying the id. */
  lemma {:induction false} RequiredClassesCount(batches: seq<Batch>, subjects: seq<Subject>, cd: nat, bid: Id, sid: Id)
    ensures CountFor(RequiredClasses(batches, subjects, cd), bid, sid)
         == BatchOccurrences(batches, bid) * Demand(subjects, sid)
    decreases |batches|
  {
    if batches != [] {
      var last := batches[|batches| - 1];
      var front := batches[..|batches| - 1];
      RequiredClassesCount(front, subjects, cd, bid, sid);
      CountForAppend(RequiredClasses(front, subjects, cd), BatchInstances(last, subjects, cd), bid, sid);
      CountForBatch(last, subjects, cd, bid, sid);
      var o := BatchOccurrences(front, bid);
      var d := Demand(subjects, sid);
      assert RequiredClasses(batches, subjects, cd)
          == RequiredClasses(front, subjects, cd) + BatchInstances(last, subjects, cd);
      var extra := if last.id == bid then 1 else 0;
      assert BatchOccurrences(batches, bid) == o + extra;
      assert CountFor(BatchInstances(last, subjects, cd), bid, sid) == extra * d;
      MultiplyOut(o, extra, d);
    }
  }

  lemma MultiplyOut(o: nat, extra: nat, d: nat)
    ensures (o + extra) * d == o * d + extra * d
  {
  }

  predicate DistinctBatchIds(batches: seq<Batch>) {
    forall i, j :: 0 <= i < j < |batches| ==> batches[i].id != batches[j].id
  }

  predicate DistinctSubjectIds(subjects: seq<Subject>) {
    forall i, j :: 0 <= i < j < |subjects| ==> subjects[i].id != subjects[j].id
  }

  lemma {:induction false} SingleBatch(batches: seq<Batch>, i: nat)
    requires i < |batches| && DistinctBatchIds(batches)
    ensures BatchOccurrences(batches, batches[i].id) == 1
    decreases |batches|
  {
    var front, last := batches[..|batches| - 1], batches[|batches| - 1];
    if i < |front| {
      SingleBatch(front, i);
      assert last.id != batches[i].id;
    } else {
      NoBatch(front, batches[i].id);
    }
  }

  lemma {:induction false} NoBatch(batches: seq<Batch>, bid: Id)
    requires forall k :: 0 <= k < |batches| ==> batches[k].id != bid
    ensures BatchOccurrences(batches, bid) == 0
    decreases |batches|
  {
    if batches != [] {
      NoBatch(batches[..|batches| - 1], bid);
    }
  }

  lemma {:induction false} SingleSubject(subjects: seq<Subject>, i: nat)
    requires i < |subjects| && DistinctSubjectIds(subjects)
    ensures Demand(subjects, subjects[i].id) == WeeklyCount(subjects[i])
    decreases |subjects|
  {
    var front, last := subjects[..|subjects| - 1], subjects[|subjects| - 1];
    if i < |front| {
      SingleSubject(front, i);
      assert last.id != subjects[i].id;
    } else {
      NoSubject(front, subjects[i].id);
    }
  }

  lemma {:induction false} NoSubject(subjects: seq<Subject>, sid: Id)
    requires forall k :: 0 <= k < |subjects| ==> subjects[k].id != sid
    ensures Demand(subjects, sid) == 0
    decreases |subjects|
  {
    if subjects != [] {
      NoSubject(subjects[..|subjects| - 1], sid);
    }
  }

  /** With distinct batch ids and distinct subject ids, the pool holds exactly
      `classesPerWeek` occurrences of every (batch, subject) pair. */
  lemma PoolHoldsWeeklyCount(batches: seq<Batch>, subjects: seq<Subject>, cd: nat, i: nat, k: nat)
    requires i < |batches| && DistinctBatchIds(batches)
    requires k < |subjects| && DistinctSubjectIds(subjects)
    ensures CountFor(RequiredClasses(batches, subjects, cd), batches[i].id, subjects[k].id) == WeeklyCount(subjects[k])
  {
    RequiredClassesCount(batches, subjects, cd, batches[i].id, subjects[k].id);
    SingleBatch(batches, i);
    SingleSubject(subjects, k);
  }

  /** Each pool entry is some batch's occurrence of some subject with a positive
      weekly count, carrying that subject's duration (or the class length). */
  lemma {:induction false} RequiredClassesMembers(batches: seq<Batch>, subjects: seq<Subject>, cd: nat, x: Instance)
    ensures x in RequiredClasses(batches, subjects, cd)
        <==> exists b, s :: b in batches && s in subjects && s.classesPerWeek > 0 && x == InstanceOf(b, s, cd)
    decreases |batches|
  {
    if batches != [] {
      var front, last := batches[..|batches| - 1], batches[|batches| - 1];
      RequiredClassesMembers(front, subjects, cd, x);
      BatchInstancesMembers(last, subjects, cd, x);
      assert batches == front + [last];
    }
  }

  lemma {:induction false} BatchInstancesMembers(b: Batch, subjects: seq<Subject>, cd: nat, x: Instance)
    ensures x in BatchInstances(b, subjects, cd)
        <==> exists s :: s in subjects && s.classesPerWeek > 0 && x == InstanceOf(b, s, cd)
    decreases |subjects|
  {
    if subjects != [] {
      var front, last := subjects[..|subjects| - 1], subjects[|subjects| - 1];
      BatchInstancesMembers(b, front, cd, x);
      assert subjects == front + [last];
      var copies := Copies(b, last, cd, WeeklyCount(last));
      assert x in copies <==> last.classesPerWeek > 0 && x == InstanceOf(b, last, cd) by {
        if last.classesPerWeek > 0 && x == InstanceOf(b, last, cd) {
          assert copies[0] == x;
        }
      }
    }
  }

  // ---- the shuffle ----

  predicate ValidDraws(draws: seq<real>) {
    forall k :: 0 <= k < |draws| ==> 0.0 <= draws[k] < 1.0
  }

  /** `Math.floor(r * (i + 1))` for a draw r in [0, 1): an index between 0 and i. */
  function Pick(r: real, i: nat): (j: nat)
    requires 0.0 <= r < 1.0
    ensures j <= i
  {
    var n := (i + 1) as real;
    assert (1.0 - r) * n > 0.0;
    (r * n).Floor
  }

  function Swap(s: seq<Instance>, i: nat, j: nat): seq<Instance>
    requires i < |s| && j < |s|
  {
    s[i := s[j]][j := s[i]]
  }

  /** The rounds of the shuffle for positions i, i - 1, ..., 1; the round at
      position i consumes draw number |s| - 1 - i. */
  function ShuffleDown(s: seq<Instance>, i: nat, draws: seq<real>): seq<Instance>
    requires i < |s| <= |draws| + 1 && ValidDraws(draws)
    decreases i
  {
    if i == 0 then s
    else ShuffleDown(Swap(s, i, Pick(draws[|s| - 1 - i], i)), i - 1, draws)
  }

  /** The order the pool is placed in, given the values `Math.random` returns. */
  function Shuffled(s: seq<Instance>, draws: seq<real>): seq<Instance>
    requires |s| <= |draws| + 1 && ValidDraws(draws)
  {
    if s == [] then s else ShuffleDown(s, |s| - 1, draws)
  }

  lemma SwapPermutes(s: seq<Instance>, i: nat, j: nat)
    requires i < |s| && j < |s|
    ensures multiset(Swap(s, i, j)) == multiset(s) && |Swap(s, i, j)| == |s|
  {
    var t := s[i := s[j]];
    assert multiset(t) == multiset(s) - multiset{s[i]} + multiset{s[j]};
    assert multiset(t[j := s[i]]) == multiset(t) - multiset{t[j]} + multiset{s[i]};
  }

  lemma {:induction false} ShuffleDownPermutes(s: seq<Instance>, i: nat, draws: seq<real>)
    requires i < |s| <= |draws| + 1 && ValidDraws(draws)
    ensures multiset(ShuffleDown(s, i, draws)) == multiset(s) && |ShuffleDown(s, i, draws)| == |s|
    decreases i
  {
    if i > 0 {
      var j := Pick(draws[|s| - 1 - i], i);
      SwapPermutes(s, i, j);
      ShuffleDownPermutes(Swap(s, i, j), i - 1, draws);
    }
  }

  /** The shuffle only reorders: every occurrence is kept, as often as before. */
  lemma ShuffledPermutes(s: seq<Instance>, draws: seq<real>)
    requires |s| <= |draws| + 1 && ValidDraws(draws)
    ensures multiset(Shuffled(s, draws)) == multiset(s) && |Shuffled(s, draws)| == |s|
  {
    if s != [] {
      ShuffleDownPermutes(s, |s| - 1, draws);
    }
  }

  /** The in-place swap loop, counting down from the last position to 1. */
  method Shuffle(a: array<Instance>, draws: seq<real>)
    requires a.Length <= |draws| + 1 && ValidDraws(draws)
    modifies a
    ensures a[..] == Shuffled(old(a[..]), draws)
    ensures multiset(a[..]) == multiset(old(a[..]))
  {
    ghost var target := Shuffled(a[..], draws);
    ShuffledPermutes(a[..], draws);
    if a.Length == 0 {
      return;
    }
    var i := a.Length - 1;
    while i > 0
      invariant 0 <= i < a.Length
      invariant ShuffleDown(a[..], i, draws) == target
    {
      var j := Pick(draws[a.Length - 1 - i], i);
      ghost var before := a[..];
      var t := a[i];
      a[i] := a[j];
      a[j] := t;
      assert a[..] == Swap(before, i, j);
      i := i - 1;
    }
  }
}
