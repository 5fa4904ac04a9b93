/** The free-period count of the optimization score: classes are grouped by
    batch and day, each group is sorted by slot text, and every gap between
    consecutive classes longer than the configured break counts once. */
module FreePeriods {
  import opened Types
  import opened Selection
  import Timetable

  /** The key `${batchId}-${day}` of a class's group. */
  function GroupKey(e: Entry): (Id, Day) {
    (e.batch, e.day)
  }

  /** The keys of the grouping map in insertion order: each (batch, day) once,
      where its first class appears. */
  function GroupKeys(tt: seq<Entry>): seq<(Id, Day)>
    decreases |tt|
  {
    if tt == [] then []
    else
      var ks := GroupKeys(tt[..|tt| - 1]);
      var k := GroupKey(tt[|tt| - 1]);
      if k in ks then ks else ks + [k]
  }

  ghost predicate NoRepeats(ks: seq<(Id, Day)>) {
    forall i, j :: 0 <= i < j < |ks| ==> ks[i] != ks[j]
  }

  /** The groups are exactly the (batch, day) pairs that have a class, each once. */
  lemma {:induction false} GroupKeysMeaning(tt: seq<Entry>)
    ensures forall k :: k in GroupKeys(tt) <==> exists e :: e in tt && GroupKey(e) == k
    ensures NoRepeats(GroupKeys(tt))
    decreases |tt|
  {
    if tt != [] {
      var front := tt[..|tt| - 1];
      GroupKeysMeaning(front);
      assert tt == front + [tt[|tt| - 1]];
      forall k | exists e :: e in tt && GroupKey(e) == k
        ensures k in GroupKeys(tt)
      {
        var e :| e in tt && GroupKey(e) == k;
        if e != tt[|tt| - 1] {
          assert e in front;
        }
      }
    }
  }

  // ---- sorting a group by slot text ----

  /** The order of slot texts "HH:MM-HH:MM": by start, then by end. */
  predicate SlotLe(p: Slot, q: Slot) {
    p.start < q.start || (p.start == q.start && p.end <= q.end)
  }

  ghost predicate Ascending(xs: seq<Slot>) {
    forall i, j :: 0 <= i < j < |xs| ==> SlotLe(xs[i], xs[j])
  }

  function Insert(x: Slot, xs: seq<Slot>): (r: seq<Slot>)
    ensures |r| == |xs| + 1
    decreases |xs|
  {
    if xs == [] then [x]
    else if SlotLe(x, xs[0]) then [x] + xs
    else [xs[0]] + Insert(x, xs[1..])
  }

  /** The slots of a group in sorted order. */
  function SortSlots(xs: seq<Slot>): (r: seq<Slot>)
    ensures |r| == |xs|
    decreases |xs|
  {
    if xs == [] then [] else Insert(xs[|xs| - 1], SortSlots(xs[..|xs| - 1]))
  }

  lemma {:induction false} InsertMultiset(x: Slot, xs: seq<Slot>)
    ensures multiset(Insert(x, xs)) == multiset(xs) + multiset{x}
    decreases |xs|
  {
    if xs != [] && !SlotLe(x, xs[0]) {
      InsertMultiset(x, xs[1..]);
      assert xs == [xs[0]] + xs[1..];
    }
  }

  lemma SlotLeTransitive(p: Slot, q: Slot, r: Slot)
    requires SlotLe(p, q) && SlotLe(q, r)
    ensures SlotLe(p, r)
  {
  }

  /** A slot no later than the head of an ascending sequence can go in front. */
  lemma ConsAscending(x: Slot, xs: seq<Slot>)
    requires Ascending(xs) && (xs == [] || SlotLe(x, xs[0]))
    ensures Ascending([x] + xs)
  {
    var r := [x] + xs;
    forall i, j | 0 <= i < j < |r|
      ensures SlotLe(r[i], r[j])
    {
      if i == 0 {
        if j > 1 {
          SlotLeTransitive(x, xs[0], xs[j - 1]);
        }
      } else {
        assert r[i] == xs[i - 1] && r[j] == xs[j - 1];
      }
    }
  }

  /** A slot no later than every slot of an ascending sequence can go in front. */
  lemma ConsBelowAll(y: Slot, ys: seq<Slot>)
    requires Ascending(ys) && forall z :: z in multiset(ys) ==> SlotLe(y, z)
    ensures Ascending([y] + ys)
  {
    if ys != [] {
      assert ys[0] in multiset(ys);
    }
    ConsAscending(y, ys);
  }

  lemma {:induction false} InsertAscending(x: Slot, xs: seq<Slot>)
    requires Ascending(xs)
    ensures Ascending(Insert(x, xs))
    decreases |xs|
  {
    if xs == [] {
    } else if SlotLe(x, xs[0]) {
      ConsAscending(x, xs);
    } else {
      AscendingTail(xs);
      var rest := xs[1..];
      InsertAscending(x, rest);
      InsertMultiset(x, rest);
      ConsBelowAll(xs[0], Insert(x, rest));
    }
  }

  /** Sorting yields an ascending arrangement of the same slots. */
  lemma {:induction false} SortSlotsMeaning(xs: seq<Slot>)
    ensures Ascending(SortSlots(xs))
    ensures multiset(SortSlots(xs)) == multiset(xs)
    decreases |xs|
  {
    if xs != [] {
      var front := xs[..|xs| - 1];
      SortSlotsMeaning(front);
      InsertAscending(xs[|xs| - 1], SortSlots(front));
      InsertMultiset(xs[|xs| - 1], SortSlots(front));
      assert xs == front + [xs[|xs| - 1]];
    }
  }

  lemma AscendingTail(a: seq<Slot>)
    requires a != [] && Ascending(a)
    ensures Ascending(a[1..])
    ensures forall y :: y in multiset(a) ==> SlotLe(a[0], y)
    ensures multiset(a) == multiset{a[0]} + multiset(a[1..])
  {
    assert a == [a[0]] + a[1..];
    forall y | y in multiset(a)
      ensures SlotLe(a[0], y)
    {
      var k :| 0 <= k < |a| && a[k] == y;
    }
  }

  /** Removing a common element from two equal multisets leaves equal multisets. */
  lemma CancelOne(x: Slot, p: multiset<Slot>, q: multiset<Slot>)
    requires multiset{x} + p == multiset{x} + q
    ensures p == q
  {
    assert p == (multiset{x} + p) - multiset{x};
    assert q == (multiset{x} + q) - multiset{x};
  }

  /** Two ascending arrangements of the same slots start with the same slot, and
      the rest holds the same slots. */
  lemma SameHead(a: seq<Slot>, b: seq<Slot>)
    requires a != [] && Ascending(a) && Ascending(b) && multiset(a) == multiset(b)
    ensures b != [] && a[0] == b[0]
    ensures Ascending(a[1..]) && Ascending(b[1..]) && multiset(a[1..]) == multiset(b[1..])
  {
    assert |multiset(a)| == |a| && |multiset(b)| == |b|;
    AscendingTail(a);
    AscendingTail(b);
    assert a[0] in multiset(a) && b[0] in multiset(b);
    assert SlotLe(a[0], b[0]) && SlotLe(b[0], a[0]);
    CancelOne(a[0], multiset(a[1..]), multiset(b[1..]));
  }

  /** Two ascending arrangements of the same slots are the same sequence. */
  lemma {:induction false} AscendingUnique(a: seq<Slot>, b: seq<Slot>)
    requires Ascending(a) && Ascending(b) && multiset(a) == multiset(b)
    ensures a == b
    decreases |a|
  {
    if a == [] {
      assert |multiset(b)| == |b|;
    } else {
      SameHead(a, b);
      AscendingUnique(a[1..], b[1..]);
      assert a == [a[0]] + a[1..] && b == [b[0]] + b[1..];
    }
  }

  /** The sorted group depends only on which slots the group holds, not on the
      order the classes were placed in. */
  lemma SortIgnoresOrder(xs: seq<Slot>, ys: seq<Slot>)
    requires multiset(xs) == multiset(ys)
    ensures SortSlots(xs) == SortSlots(ys)
  {
    SortSlotsMeaning(xs);
    SortSlotsMeaning(ys);
    AscendingUnique(SortSlots(xs), SortSlots(ys));
  }

  // ---- counting gaps ----

  /** getTimeDifference on minute counts. */
  function Gap(a: nat, b: nat): nat {
    if b >= a then b - a else a - b
  }

  /** The positions 1 .. |xs| - 1 whose gap after the previous class exceeds the break. */
  function FreeIn(xs: seq<Slot>, breakDuration: nat): nat
    decreases |xs|
  {
    if |xs| <= 1 then 0
    else
      FreeIn(xs[..|xs| - 1], breakDuration)
        + (if Gap(xs[|xs| - 2].end, xs[|xs| - 1].start) > breakDuration then 1 else 0)
  }

  /** A group of n classes has at most n - 1 free periods. */
  lemma {:induction false} FreeInBound(xs: seq<Slot>, breakDuration: nat)
    ensures FreeIn(xs, breakDuration) <= if xs == [] then 0 else |xs| - 1
    decreases |xs|
  {
    if |xs| > 1 {
      FreeInBound(xs[..|xs| - 1], breakDuration);
    }
  }

  function SlotsOf(es: seq<Entry>): seq<Slot> {
    seq(|es|, k requires 0 <= k < |es| => es[k].slot)
  }

  /** The free periods of one group; a group of one class is skipped. */
  function GroupFree(tt: seq<Entry>, k: (Id, Day), breakDuration: nat): nat {
    var g := EntriesOn(tt, k.0, k.1);
    if |g| > 1 then FreeIn(SortSlots(SlotsOf(g)), breakDuration) else 0
  }

  function SumFree(tt: seq<Entry>, ks: seq<(Id, Day)>, breakDuration: nat): nat
    decreases |ks|
  {
    if ks == [] then 0
    else SumFree(tt, ks[..|ks| - 1], breakDuration) + GroupFree(tt, ks[|ks| - 1], breakDuration)
  }

  /** `totalFreePeriods` over all groups. */
  function TotalFreePeriods(tt: seq<Entry>, breakDuration: nat): nat {
    SumFree(tt, GroupKeys(tt), breakDuration)
  }

  lemma {:induction false} NoEntriesOutsideGroups(tt: seq<Entry>, k: (Id, Day))
    requires k !in GroupKeys(tt)
    ensures EntriesOn(tt, k.0, k.1) == []
    decreases |tt|
  {
    if tt != [] {
      NoEntriesOutsideGroups(tt[..|tt| - 1], k);
    }
  }

  /** `m` and `keys` hold the grouping of `tt`: the keys in insertion order, each
      mapped to its classes in timetable order. */
  ghost predicate Grouped(tt: seq<Entry>, m: map<(Id, Day), seq<Entry>>, keys: seq<(Id, Day)>) {
    && keys == GroupKeys(tt)
    && (forall k :: k in m <==> k in keys)
    && (forall k :: k in m ==> m[k] == EntriesOn(tt, k.0, k.1))
  }

  /** One step of the grouping loop: a new key is appended to the keys, and the
      class is appended to its key's list. */
  lemma GroupStepOn(front: seq<Entry>, e: Entry, m: map<(Id, Day), seq<Entry>>, keys: seq<(Id, Day)>,
                    list: seq<Entry>, keys': seq<(Id, Day)>)
    requires Grouped(front, m, keys)
    requires list == if GroupKey(e) in m then m[GroupKey(e)] else []
    requires keys' == if GroupKey(e) in m then keys else keys + [GroupKey(e)]
    ensures Grouped(front + [e], m[GroupKey(e) := list + [e]], keys')
  {
    var key := GroupKey(e);
    assert (front + [e])[..|front + [e]| - 1] == front;
    assert keys' == GroupKeys(front + [e]);
    if key !in m {
      NoEntriesOutsideGroups(front, key);
    }
    var m' := m[key := list + [e]];
    forall k | k in m'
      ensures m'[k] == EntriesOn(front + [e], k.0, k.1)
    {
      Timetable.EntriesOnAppend(front, e, k.0, k.1);
    }
  }

  lemma PrefixStep(tt: seq<Entry>, i: nat)
    requires i < |tt|
    ensures tt[..i] + [tt[i]] == tt[..i + 1]
  {
  }

  /** The grouping loop: `batchDaySlots` maps each key, in insertion order
      `keys`, to its classes in timetable order. */
  method GroupByBatchDay(tt: seq<Entry>) returns (batchDaySlots: map<(Id, Day), seq<Entry>>, keys: seq<(Id, Day)>)
    ensures keys == GroupKeys(tt)
    ensures forall k :: k in batchDaySlots <==> k in keys
    ensures forall k :: k in batchDaySlots ==> batchDaySlots[k] == EntriesOn(tt, k.0, k.1)
  {
    batchDaySlots := map[];
    keys := [];
    ghost var done: seq<Entry> := [];
    for i := 0 to |tt|
      invariant done == tt[..i] && Grouped(done, batchDaySlots, keys)
    {
      var key := GroupKey(tt[i]);
      var list := if key in batchDaySlots then batchDaySlots[key] else [];
      var keys' := if key in batchDaySlots then keys else keys + [key];
      GroupStepOn(done, tt[i], batchDaySlots, keys, list, keys');
      batchDaySlots, keys := batchDaySlots[key := list + [tt[i]]], keys';
      PrefixStep(tt, i);
      done := done + [tt[i]];
    }
    assert tt[..|tt|] == tt;
  }

  /** The inner loop over one sorted group of two or more classes, adding its
      long gaps to the total. */
  method AddGaps(total: nat, sortedSlots: seq<Slot>, breakDuration: nat) returns (totalFreePeriods: nat)
    requires |sortedSlots| > 1
    ensures totalFreePeriods == total + FreeIn(sortedSlots, breakDuration)
  {
    totalFreePeriods := total;
    for i := 1 to |sortedSlots|
      invariant totalFreePeriods == total + FreeIn(sortedSlots[..i], breakDuration)
    {
      assert sortedSlots[..i + 1][..i] == sortedSlots[..i];
      if Gap(sortedSlots[i - 1].end, sortedSlots[i].start) > breakDuration {
        totalFreePeriods := totalFreePeriods + 1;
      }
    }
    assert sortedSlots[..|sortedSlots|] == sortedSlots;
  }

  /** Group the classes, then walk each sorted group counting the long gaps. */
  method CountFreePeriods(tt: seq<Entry>, breakDuration: nat) returns (totalFreePeriods: nat)
    ensures totalFreePeriods == TotalFreePeriods(tt, breakDuration)
  {
    var batchDaySlots, keys := GroupByBatchDay(tt);
    totalFreePeriods := 0;
    for j := 0 to |keys|
      invariant totalFreePeriods == SumFree(tt, keys[..j], breakDuration)
    {
      SumFreeStep(tt, keys, j, breakDuration);
      assert keys[j] in batchDaySlots;
      var slots := batchDaySlots[keys[j]];
      assert slots == EntriesOn(tt, keys[j].0, keys[j].1);
      if |slots| > 1 {
        totalFreePeriods := AddGaps(totalFreePeriods, SortSlots(SlotsOf(slots)), breakDuration);
      }
    }
    assert keys[..|keys|] == keys;
  }

  /** Adding group j to the groups before it. */
  lemma SumFreeStep(tt: seq<Entry>, keys: seq<(Id, Day)>, j: nat, breakDuration: nat)
    requires j < |keys|
    ensures SumFree(tt, keys[..j + 1], breakDuration) == SumFree(tt, keys[..j], breakDuration) + GroupFree(tt, keys[j], breakDuration)
  {
    assert keys[..j + 1][..j] == keys[..j];
  }

  // ---- the count is bounded by the number of classes ----

  /** The number of classes in the groups `ks`. */
  function GroupSizes(tt: seq<Entry>, ks: seq<(Id, Day)>): nat
    decreases |ks|
  {
    if ks == [] then 0 else GroupSizes(tt, ks[..|ks| - 1]) + |EntriesOn(tt, ks[|ks| - 1].0, ks[|ks| - 1].1)|
  }

  lemma NoRepeatsFront(ks: seq<(Id, Day)>)
    requires ks != [] && NoRepeats(ks)
    ensures NoRepeats(ks[..|ks| - 1]) && ks[|ks| - 1] !in ks[..|ks| - 1]
  {
    var front := ks[..|ks| - 1];
    forall i | 0 <= i < |front|
      ensures front[i] != ks[|ks| - 1]
    {
      assert front[i] == ks[i];
    }
  }

  lemma {:induction false} GroupSizesAppend(tt: seq<Entry>, e: Entry, ks: seq<(Id, Day)>)
    requires NoRepeats(ks)
    ensures GroupSizes(tt + [e], ks) == GroupSizes(tt, ks) + (if GroupKey(e) in ks then 1 else 0)
    decreases |ks|
  {
    if ks != [] {
      var front, k := ks[..|ks| - 1], ks[|ks| - 1];
      NoRepeatsFront(ks);
      GroupSizesAppend(tt, e, front);
      Timetable.EntriesOnAppend(tt, e, k.0, k.1);
      assert ks == front + [k];
      assert GroupKey(e) in ks <==> GroupKey(e) in front || GroupKey(e) == k;
      assert |EntriesOn(tt + [e], k.0, k.1)| == |EntriesOn(tt, k.0, k.1)| + (if GroupKey(e) == k then 1 else 0);
    }
  }

  /** The groups split the timetable: their sizes add up to the number of classes. */
  lemma {:induction false} GroupsPartition(tt: seq<Entry>)
    ensures GroupSizes(tt, GroupKeys(tt)) == |tt|
    decreases |tt|
  {
    if tt != [] {
      var front, e := tt[..|tt| - 1], tt[|tt| - 1];
      var ks := GroupKeys(front);
      GroupsPartition(front);
      GroupKeysMeaning(front);
      assert tt == front + [e];
      GroupSizesAppend(front, e, ks);
      if GroupKey(e) !in ks {
        NoEntriesOutsideGroups(front, GroupKey(e));
        Timetable.EntriesOnAppend(front, e, e.batch, e.day);
        assert (ks + [GroupKey(e)])[..|ks|] == ks;
      }
    }
  }

  lemma {:induction false} SumFreeBound(tt: seq<Entry>, ks: seq<(Id, Day)>, breakDuration: nat)
    ensures SumFree(tt, ks, breakDuration) <= GroupSizes(tt, ks)
    decreases |ks|
  {
    if ks != [] {
      var k := ks[|ks| - 1];
      SumFreeBound(tt, ks[..|ks| - 1], breakDuration);
      var g := EntriesOn(tt, k.0, k.1);
      if |g| > 1 {
        FreeInBound(SortSlots(SlotsOf(g)), breakDuration);
      }
    }
  }

  /** There are never more free periods than classes. */
  lemma FreePeriodsBound(tt: seq<Entry>, breakDuration: nat)
    ensures TotalFreePeriods(tt, breakDuration) <= |tt|
  {
    SumFreeBound(tt, GroupKeys(tt), breakDuration);
    GroupsPartition(tt);
  }
}
