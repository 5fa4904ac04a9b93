/** The placement pass over the whole shuffled pool, as a function, and the
    invariant it keeps: no double booking, qualified faculty, known classrooms
    and slots, the daily cap, and consecutive entry numbers. */
module Timetable {
  import opened Types
  import opened Selection

  /** How many times `sid` occurs in a faculty member's subject list. */
  function CountOf(ids: seq<Id>, sid: Id): nat
    decreases |ids|
  {
    if ids == [] then 0 else CountOf(ids[..|ids| - 1], sid) + (if ids[|ids| - 1] == sid then 1 else 0)
  }

  function Repeat(f: Id, n: nat): seq<Id> {
    seq(n, _ => f)
  }

  /** The faculty list `subjectToFaculty` holds for a subject: faculty members in
      input order, each once per time it lists the subject. */
  function QualifiedList(fs: seq<Faculty>, sid: Id): seq<Id>
    decreases |fs|
  {
    if fs == [] then []
    else
      var f := fs[|fs| - 1];
      QualifiedList(fs[..|fs| - 1], sid) + Repeat(f.id, CountOf(f.subjects, sid))
  }

  lemma {:induction false} CountOfPositive(ids: seq<Id>, sid: Id)
    ensures CountOf(ids, sid) > 0 <==> sid in ids
    decreases |ids|
  {
    if ids != [] {
      CountOfPositive(ids[..|ids| - 1], sid);
      assert ids == ids[..|ids| - 1] + [ids[|ids| - 1]];
    }
  }

  /** A faculty id is listed for a subject exactly when some faculty member with
      that id lists the subject. */
  lemma {:induction false} QualifiedListMembers(fs: seq<Faculty>, sid: Id, f: Id)
    ensures f in QualifiedList(fs, sid) <==> exists fac :: fac in fs && fac.id == f && sid in fac.subjects
    decreases |fs|
  {
    if fs != [] {
      var front, last := fs[..|fs| - 1], fs[|fs| - 1];
      QualifiedListMembers(front, sid, f);
      CountOfPositive(last.subjects, sid);
      assert fs == front + [last];
      var r := Repeat(last.id, CountOf(last.subjects, sid));
      if CountOf(last.subjects, sid) > 0 {
        assert r[0] == last.id;
      }
    }
  }

  /** The entry recorded for a choice: numbered after the entries before it. */
  function NewEntry(tt: seq<Entry>, inst: Instance, ch: Choice): Entry {
    Entry(|tt| + 1, ch.day, ch.slot, inst.subject, ch.faculty, ch.room, inst.batch, inst.duration)
  }

  /** One occurrence: skipped when nobody is qualified, otherwise placed at the
      chosen candidate, or dropped when there is none. */
  function Place(ctx: Context, tt: seq<Entry>, inst: Instance, qualified: seq<Id>): seq<Entry> {
    if qualified == [] then tt
    else match Choose(ctx, tt, inst, qualified).choice
      case None => tt
      case Some(ch) => tt + [NewEntry(tt, inst, ch)]
  }

  /** The timetable after placing the pool in order. */
  function PlaceAll(ctx: Context, fs: seq<Faculty>, pool: seq<Instance>): seq<Entry>
    decreases |pool|
  {
    if pool == [] then []
    else
      var inst := pool[|pool| - 1];
      Place(ctx, PlaceAll(ctx, fs, pool[..|pool| - 1]), inst, QualifiedList(fs, inst.subject))
  }

  /** No batch, faculty member or classroom is used twice at the same day and slot. */
  ghost predicate NoDoubleBooking(tt: seq<Entry>) {
    forall i, j :: 0 <= i < j < |tt| && tt[i].day == tt[j].day && tt[i].slot == tt[j].slot ==>
      tt[i].batch != tt[j].batch && tt[i].faculty != tt[j].faculty && tt[i].room != tt[j].room
  }

  /** Every entry uses a qualified faculty member, a listed classroom and a listed
      slot, none with an empty id. */
  ghost predicate WellAssigned(ctx: Context, fs: seq<Faculty>, tt: seq<Entry>) {
    forall e :: e in tt ==>
      e.faculty in QualifiedList(fs, e.subject) && e.faculty != ""
      && e.room in ctx.rooms && e.room != "" && e.slot in ctx.slots
  }

  /** No batch has more than `maxClassesPerDay` classes on a day. */
  ghost predicate WithinCap(ctx: Context, tt: seq<Entry>) {
    forall b, d :: |EntriesOn(tt, b, d)| <= Max(ctx.cap, 0)
  }

  /** Entries are numbered 1, 2, 3, ... in placement order. */
  ghost predicate Numbered(tt: seq<Entry>) {
    forall k :: 0 <= k < |tt| ==> tt[k].id == k + 1
  }

  ghost predicate Sound(ctx: Context, fs: seq<Faculty>, tt: seq<Entry>) {
    NoDoubleBooking(tt) && WellAssigned(ctx, fs, tt) && WithinCap(ctx, tt) && Numbered(tt)
  }

  lemma EntriesOnAppend(tt: seq<Entry>, e: Entry, b: Id, d: Day)
    ensures EntriesOn(tt + [e], b, d) == EntriesOn(tt, b, d) + (if e.batch == b && e.day == d then [e] else [])
  {
    assert (tt + [e])[..|tt|] == tt;
  }

  lemma FirstFreeIsFree(ids: seq<Id>, busy: set<Id>, f: Id)
    requires FirstFree(ids, busy) == Some(f)
    ensures f in ids && f !in busy
  {
  }

  /** Placing one occurrence keeps the invariant. */
  lemma PlacePreservesSound(ctx: Context, fs: seq<Faculty>, tt: seq<Entry>, inst: Instance)
    requires Sound(ctx, fs, tt)
    ensures Sound(ctx, fs, Place(ctx, tt, inst, QualifiedList(fs, inst.subject)))
  {
    var q := QualifiedList(fs, inst.subject);
    if q != [] {
      var b := Choose(ctx, tt, inst, q);
      ChosenAdmissible(ctx, tt, inst, q);
      if b.choice.Some? {
        var ch := b.choice.value;
        var e := NewEntry(tt, inst, ch);
        var tt' := tt + [e];
        FirstFreeIsFree(q, BusyFaculty(tt, ch.day, ch.slot), ch.faculty);
        FirstFreeIsFree(ctx.rooms, BusyRooms(tt, ch.day, ch.slot), ch.room);
        forall i | 0 <= i < |tt| && tt[i].day == e.day && tt[i].slot == e.slot
          ensures tt[i].batch != e.batch && tt[i].faculty != e.faculty && tt[i].room != e.room
        {
          assert tt[i] in tt;
        }
        assert NoDoubleBooking(tt');
        forall bid, d
          ensures |EntriesOn(tt', bid, d)| <= Max(ctx.cap, 0)
        {
          EntriesOnAppend(tt, e, bid, d);
        }
      }
    }
  }

  /** The invariant holds of every timetable the pass builds. */
  lemma {:induction false} PlaceAllSound(ctx: Context, fs: seq<Faculty>, pool: seq<Instance>)
    ensures Sound(ctx, fs, PlaceAll(ctx, fs, pool))
    decreases |pool|
  {
    if pool != [] {
      PlaceAllSound(ctx, fs, pool[..|pool| - 1]);
      PlacePreservesSound(ctx, fs, PlaceAll(ctx, fs, pool[..|pool| - 1]), pool[|pool| - 1]);
    }
  }

  /** The occurrence an entry stands for. */
  function InstanceOfEntry(e: Entry): Instance {
    Instance(e.batch, e.subject, e.duration)
  }

  function Placed(tt: seq<Entry>): seq<Instance> {
    seq(|tt|, k requires 0 <= k < |tt| => InstanceOfEntry(tt[k]))
  }

  /** Placing one occurrence leaves the timetable alone or appends one entry for it. */
  lemma PlaceShape(ctx: Context, tt: seq<Entry>, inst: Instance, qualified: seq<Id>)
    ensures var tt' := Place(ctx, tt, inst, qualified);
      tt' == tt || exists ch :: tt' == tt + [NewEntry(tt, inst, ch)]
  {
  }

  lemma PlacedAppend(tt: seq<Entry>, e: Entry)
    ensures Placed(tt + [e]) == Placed(tt) + [InstanceOfEntry(e)]
  {
  }

  /** Every entry stands for an occurrence of the pool, and each occurrence is
      placed at most once. */
  lemma {:induction false} PlaceAllFromPool(ctx: Context, fs: seq<Faculty>, pool: seq<Instance>)
    ensures multiset(Placed(PlaceAll(ctx, fs, pool))) <= multiset(pool)
    decreases |pool|
  {
    if pool != [] {
      var front, inst := pool[..|pool| - 1], pool[|pool| - 1];
      PlaceAllFromPool(ctx, fs, front);
      var tt := PlaceAll(ctx, fs, front);
      var tt' := PlaceAll(ctx, fs, pool);
      assert tt' == Place(ctx, tt, inst, QualifiedList(fs, inst.subject));
      assert pool == front + [inst];
      PlaceShape(ctx, tt, inst, QualifiedList(fs, inst.subject));
      if tt' != tt {
        var ch :| tt' == tt + [NewEntry(tt, inst, ch)];
        PlacedAppend(tt, NewEntry(tt, inst, ch));
      }
    }
  }

  /** A subject nobody is qualified for never appears in the timetable. */
  lemma UnqualifiedNeverPlaced(ctx: Context, fs: seq<Faculty>, pool: seq<Instance>, sid: Id)
    requires forall fac :: fac in fs ==> sid !in fac.subjects
    ensures forall e :: e in PlaceAll(ctx, fs, pool) ==> e.subject != sid
  {
    PlaceAllSound(ctx, fs, pool);
    forall e | e in PlaceAll(ctx, fs, pool)
      ensures e.subject != sid
    {
      QualifiedListMembers(fs, e.subject, e.faculty);
    }
  }

  /** One occurrence placed into an empty week becomes the only entry, numbered 1,
      on Monday's first slot, with the first qualified faculty member and the
      first classroom. */
  lemma SinglePlacement(ctx: Context, fs: seq<Faculty>, inst: Instance)
    requires ctx.slots != [] && ctx.cap >= 1 && ctx.rooms != [] && ctx.rooms[0] != ""
    requires QualifiedList(fs, inst.subject) != [] && QualifiedList(fs, inst.subject)[0] != ""
    ensures PlaceAll(ctx, fs, [inst])
      == [Entry(1, Monday, ctx.slots[0], inst.subject, QualifiedList(fs, inst.subject)[0], ctx.rooms[0], inst.batch, inst.duration)]
  {
    assert [inst][..0] == [];
    EmptyWeekChoice(ctx, inst, QualifiedList(fs, inst.subject));
  }

  /** Placing a second occurrence of the subject a batch has on Monday appends an
      entry on another day. */
  lemma RepeatPlaced(ctx: Context, first: Entry, inst: Instance, qualified: seq<Id>)
    requires ctx.slots != [] && ctx.cap >= 1 && qualified != [] && qualified[0] != ""
    requires ctx.rooms != [] && ctx.rooms[0] != ""
    requires first.day == Monday && first.batch == inst.batch && first.subject == inst.subject
    ensures var tt := Place(ctx, [first], inst, qualified);
      |tt| == 2 && tt[0] == first && tt[1].day != Monday && tt[1].batch == inst.batch && tt[1].subject == inst.subject
  {
    RepeatChoice(ctx, first, inst, qualified);
  }

  /** Two occurrences of one subject for one batch land on two different days:
      the first on Monday, the second elsewhere, because the same-subject penalty
      outweighs what Monday can offer against a free day. */
  lemma RepeatOnAnotherDay(ctx: Context, fs: seq<Faculty>, first: Instance, second: Instance)
    requires ctx.slots != [] && ctx.cap >= 1 && ctx.rooms != [] && ctx.rooms[0] != ""
    requires QualifiedList(fs, first.subject) != [] && QualifiedList(fs, first.subject)[0] != ""
    requires second.batch == first.batch && second.subject == first.subject
    ensures var tt := PlaceAll(ctx, fs, [first, second]);
      |tt| == 2 && tt[0].day == Monday && tt[1].day != Monday
      && tt[1].batch == first.batch && tt[1].subject == first.subject
  {
    var q := QualifiedList(fs, first.subject);
    SinglePlacement(ctx, fs, first);
    var tt1 := PlaceAll(ctx, fs, [first]);
    assert tt1 == [tt1[0]];
    assert [first, second][..1] == [first];
    assert PlaceAll(ctx, fs, [first, second]) == Place(ctx, tt1, second, q);
    RepeatPlaced(ctx, tt1[0], second, q);
  }
}
