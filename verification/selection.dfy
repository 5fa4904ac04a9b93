/** How the placement pass judges and picks a (day, slot, faculty, classroom)
    candidate for one class occurrence, as functions of the timetable built so
    far. */
module Selection {
  import opened Types

  /** What the placement pass reads besides the timetable: the day's slots, the
      daily cap and the classroom ids in input order. */
  datatype Context = Context(slots: seq<Slot>, cap: int, rooms: seq<Id>)

  datatype Choice = Choice(day: Day, slot: Slot, faculty: Id, room: Id)

  /** A valid candidate with its score. */
  datatype Scored = Scored(score: int, choice: Choice)

  /** `bestScore` and `bestSchedule` while scanning. */
  datatype Best = Best(score: int, choice: Option<Choice>)

  /** A batch's classes on one day, in placement order. */
  function EntriesOn(tt: seq<Entry>, batch: Id, day: Day): (r: seq<Entry>)
    ensures forall e :: e in r <==> e in tt && e.batch == batch && e.day == day
    ensures |r| <= |tt|
    decreases |tt|
  {
    if tt == [] then []
    else
      var e := tt[|tt| - 1];
      assert tt == tt[..|tt| - 1] + [e];
      EntriesOn(tt[..|tt| - 1], batch, day) + (if e.batch == batch && e.day == day then [e] else [])
  }

  /** The slots a faculty member teaches on a day. */
  function FacultySlots(tt: seq<Entry>, f: Id, day: Day): set<Slot> {
    set e | e in tt && e.faculty == f && e.day == day :: e.slot
  }

  /** The slots a classroom is used in on a day. */
  function RoomSlots(tt: seq<Entry>, r: Id, day: Day): set<Slot> {
    set e | e in tt && e.room == r && e.day == day :: e.slot
  }

  /** The faculty members teaching at a given day and slot. */
  function BusyFaculty(tt: seq<Entry>, day: Day, slot: Slot): set<Id> {
    set e | e in tt && e.day == day && e.slot == slot :: e.faculty
  }

  /** The classrooms in use at a given day and slot. */
  function BusyRooms(tt: seq<Entry>, day: Day, slot: Slot): set<Id> {
    set e | e in tt && e.day == day && e.slot == slot :: e.room
  }

  lemma BusyFacultyIsFacultySlots(tt: seq<Entry>, day: Day, slot: Slot, f: Id)
    ensures f in BusyFaculty(tt, day, slot) <==> slot in FacultySlots(tt, f, day)
  {
  }

  lemma BusyRoomsIsRoomSlots(tt: seq<Entry>, day: Day, slot: Slot, r: Id)
    ensures r in BusyRooms(tt, day, slot) <==> slot in RoomSlots(tt, r, day)
  {
  }

  /** The search `for (id of ids) if (free) { found = id; break; }` from position k:
      the first id at or after k that is not busy. */
  function FirstFreeFrom(ids: seq<Id>, busy: set<Id>, k: nat): (r: Option<Id>)
    requires k <= |ids|
    ensures r.None? <==> forall i :: k <= i < |ids| ==> ids[i] in busy
    ensures r.Some? ==> exists j :: k <= j < |ids| && ids[j] == r.value && r.value !in busy
                                    && forall i :: k <= i < j ==> ids[i] in busy
    decreases |ids| - k
  {
    if k == |ids| then None
    else if ids[k] !in busy then
      assert exists j :: k <= j < |ids| && ids[j] == ids[k] && forall i :: k <= i < j ==> ids[i] in busy;
      Some(ids[k])
    else FirstFreeFrom(ids, busy, k + 1)
  }

  function FirstFree(ids: seq<Id>, busy: set<Id>): Option<Id> {
    FirstFreeFrom(ids, busy, 0)
  }

  /** `batchSchedule.some(s => s.timeSlot === timeSlot)`. */
  predicate Booked(today: seq<Entry>, slot: Slot) {
    exists e :: e in today && e.slot == slot
  }

  /** `timeSlots.indexOf(s)`: the first position of s, or -1. */
  function IndexOf(slots: seq<Slot>, s: Slot): (r: int)
    ensures r == -1 <==> s !in slots
    ensures r != -1 ==> 0 <= r < |slots| && slots[r] == s && forall i :: 0 <= i < r ==> slots[i] != s
    decreases |slots|
  {
    if slots == [] then -1
    else if slots[0] == s then 0
    else
      var r := IndexOf(slots[1..], s);
      assert forall i :: 1 <= i < |slots| ==> slots[i] == slots[1..][i - 1];
      if r == -1 then -1 else r + 1
  }

  /** How many of the day's classes sit in a slot next to `slot`. */
  function Adjacent(slots: seq<Slot>, today: seq<Entry>, slot: Slot): nat
    decreases |today|
  {
    if today == [] then 0
    else
      var d := IndexOf(slots, slot) - IndexOf(slots, today[|today| - 1].slot);
      Adjacent(slots, today[..|today| - 1], slot) + (if d == 1 || d == -1 then 1 else 0)
  }

  /** How many of the day's classes are of subject `sid`. */
  function SameSubject(today: seq<Entry>, sid: Id): nat
    decreases |today|
  {
    if today == [] then 0
    else SameSubject(today[..|today| - 1], sid) + (if today[|today| - 1].subject == sid then 1 else 0)
  }

  /** The preference for slot number si on a day holding `today`. */
  function Score(ctx: Context, today: seq<Entry>, inst: Instance, si: nat): int
    requires si < |ctx.slots|
  {
    Adjacent(ctx.slots, today, ctx.slots[si]) * 10
    + (ctx.cap - |today|) * 5
    - SameSubject(today, inst.subject) * 20
    + (|ctx.slots| - si) * 2
  }

  /** The slot loop's verdict on slot number si, given the batch's classes that day
      and the results of the faculty and classroom searches: none when the batch
      already has a class then, or when a search found nothing or an empty (falsy)
      id. */
  function Verdict(ctx: Context, today: seq<Entry>, inst: Instance, day: Day, si: nat,
                   faculty: Option<Id>, room: Option<Id>): Option<Scored>
    requires si < |ctx.slots|
  {
    if Booked(today, ctx.slots[si]) then None
    else if faculty.None? || faculty.value == "" then None
    else if room.None? || room.value == "" then None
    else Some(Scored(Score(ctx, today, inst, si), Choice(day, ctx.slots[si], faculty.value, room.value)))
  }

  /** The candidate at slot number si of `day`. */
  function Candidate(ctx: Context, tt: seq<Entry>, inst: Instance, qualified: seq<Id>, day: Day, si: nat): Option<Scored>
    requires si < |ctx.slots|
  {
    var slot := ctx.slots[si];
    Verdict(ctx, EntriesOn(tt, inst.batch, day), inst, day, si,
            FirstFree(qualified, BusyFaculty(tt, day, slot)), FirstFree(ctx.rooms, BusyRooms(tt, day, slot)))
  }

  /** A day's candidates in slot order; none when the batch's day is full. */
  function DayCandidates(ctx: Context, tt: seq<Entry>, inst: Instance, qualified: seq<Id>, day: Day): seq<Option<Scored>> {
    if |EntriesOn(tt, inst.batch, day)| >= ctx.cap then []
    else seq(|ctx.slots|, si requires 0 <= si < |ctx.slots| => Candidate(ctx, tt, inst, qualified, day, si))
  }

  /** The candidates of the given days, in scan order. */
  function CandidatesOver(ctx: Context, tt: seq<Entry>, inst: Instance, qualified: seq<Id>, days: seq<Day>): seq<Option<Scored>>
    decreases |days|
  {
    if days == [] then []
    else CandidatesOver(ctx, tt, inst, qualified, days[..|days| - 1])
         + DayCandidates(ctx, tt, inst, qualified, days[|days| - 1])
  }

  /** Every candidate in scan order: Monday to Friday, slots in order within a day. */
  function Candidates(ctx: Context, tt: seq<Entry>, inst: Instance, qualified: seq<Id>): seq<Option<Scored>> {
    CandidatesOver(ctx, tt, inst, qualified, Days)
  }

  /** `if (score > bestScore)`: a candidate replaces the best only when strictly better. */
  function Keep(b: Best, c: Option<Scored>): Best {
    if c.Some? && c.value.score > b.score then Best(c.value.score, Some(c.value.choice)) else b
  }

  /** The scan over a candidate list, starting from `b`. */
  function FoldFrom(b: Best, cs: seq<Option<Scored>>): Best
    decreases |cs|
  {
    if cs == [] then b else Keep(FoldFrom(b, cs[..|cs| - 1]), cs[|cs| - 1])
  }

  /** The scan over a candidate list, starting from `bestScore = -1`. */
  function Fold(cs: seq<Option<Scored>>): Best {
    FoldFrom(Best(-1, None), cs)
  }

  /** Scanning one more candidate. */
  lemma FoldFromStep(b: Best, cs: seq<Option<Scored>>, i: nat)
    requires i < |cs|
    ensures FoldFrom(b, cs[..i + 1]) == Keep(FoldFrom(b, cs[..i]), cs[i])
  {
    assert cs[..i + 1][..i] == cs[..i];
  }

  /** Scanning two lists in a row is scanning their concatenation. */
  lemma {:induction false} FoldFromAppend(b: Best, xs: seq<Option<Scored>>, ys: seq<Option<Scored>>)
    ensures FoldFrom(b, xs + ys) == FoldFrom(FoldFrom(b, xs), ys)
    decreases |ys|
  {
    if ys == [] {
      assert xs + ys == xs;
    } else {
      var ys' := ys[..|ys| - 1];
      assert (xs + ys)[..|xs + ys| - 1] == xs + ys';
      FoldFromAppend(b, xs, ys');
    }
  }

  /** The choice made for one class occurrence. */
  function Choose(ctx: Context, tt: seq<Entry>, inst: Instance, qualified: seq<Id>): Best {
    Fold(Candidates(ctx, tt, inst, qualified))
  }

  /** Everything the placement pass checks before it may use a choice: the batch's
      day is below the cap, the slot is one of the day's slots and free for the
      batch, the faculty member is the first free qualified one and the classroom
      the first free one, neither with an empty id. */
  ghost predicate Admissible(ctx: Context, tt: seq<Entry>, inst: Instance, qualified: seq<Id>, ch: Choice) {
    && |EntriesOn(tt, inst.batch, ch.day)| < ctx.cap
    && ch.slot in ctx.slots
    && !Booked(EntriesOn(tt, inst.batch, ch.day), ch.slot)
    && FirstFree(qualified, BusyFaculty(tt, ch.day, ch.slot)) == Some(ch.faculty) && ch.faculty != ""
    && FirstFree(ctx.rooms, BusyRooms(tt, ch.day, ch.slot)) == Some(ch.room) && ch.room != ""
  }

  /** The scan keeps the first candidate of highest score, and only one scoring at
      least 0: the result bounds every candidate's score, is a candidate that no
      earlier candidate matches, and is empty exactly when no candidate scores 0
      or more. */
  lemma {:induction false} FoldIsFirstStrictMax(cs: seq<Option<Scored>>)
    ensures Fold(cs).score >= -1
    ensures forall c :: c in cs && c.Some? ==> c.value.score <= Fold(cs).score
    ensures Fold(cs).choice.None? <==> forall c :: c in cs && c.Some? ==> c.value.score < 0
    ensures Fold(cs).choice.None? ==> Fold(cs).score == -1
    ensures Fold(cs).choice.Some? ==>
      exists k :: 0 <= k < |cs| && cs[k] == Some(Scored(Fold(cs).score, Fold(cs).choice.value))
        && forall j :: 0 <= j < k ==> cs[j].None? || cs[j].value.score < Fold(cs).score
    decreases |cs|
  {
    if cs != [] {
      var front, last := cs[..|cs| - 1], cs[|cs| - 1];
      FoldIsFirstStrictMax(front);
      assert cs == front + [last];
      var b := Fold(front);
      if last.Some? && last.value.score > b.score {
        assert cs[|cs| - 1] == Some(Scored(Fold(cs).score, Fold(cs).choice.value));
        assert forall j :: 0 <= j < |cs| - 1 ==> cs[j] == front[j];
        assert forall j :: 0 <= j < |front| ==> front[j] in front;
      } else if b.choice.Some? {
        var k :| 0 <= k < |front| && front[k] == Some(Scored(b.score, b.choice.value))
          && forall j :: 0 <= j < k ==> front[j].None? || front[j].value.score < b.score;
        assert cs[k] == front[k];
      }
    }
  }

  /** Slot number si of `day` is scanned: it exists and the batch's day is below the cap. */
  predicate Scanned(ctx: Context, tt: seq<Entry>, inst: Instance, day: Day, si: nat) {
    si < |ctx.slots| && |EntriesOn(tt, inst.batch, day)| < ctx.cap
  }

  /** Every listed candidate comes from a scanned (day, slot number). */
  lemma {:induction false} CandidateOrigin(ctx: Context, tt: seq<Entry>, inst: Instance, qualified: seq<Id>, days: seq<Day>, c: Option<Scored>)
      returns (day: Day, si: nat)
    requires c in CandidatesOver(ctx, tt, inst, qualified, days)
    ensures Scanned(ctx, tt, inst, day, si) && Candidate(ctx, tt, inst, qualified, day, si) == c
    decreases |days|
  {
    var front := days[..|days| - 1];
    day := days[|days| - 1];
    var dc := DayCandidates(ctx, tt, inst, qualified, day);
    if c in CandidatesOver(ctx, tt, inst, qualified, front) {
      day, si := CandidateOrigin(ctx, tt, inst, qualified, front, c);
    } else {
      assert c in dc;
      var k :| 0 <= k < |dc| && dc[k] == c;
      si := k;
    }
  }

  lemma CandidateAdmissible(ctx: Context, tt: seq<Entry>, inst: Instance, qualified: seq<Id>, day: Day, si: nat)
    requires Scanned(ctx, tt, inst, day, si) && Candidate(ctx, tt, inst, qualified, day, si).Some?
    ensures Admissible(ctx, tt, inst, qualified, Candidate(ctx, tt, inst, qualified, day, si).value.choice)
  {
  }

  /** A slot of a day below the cap is among that day's candidates. */
  lemma InDayCandidates(ctx: Context, tt: seq<Entry>, inst: Instance, qualified: seq<Id>, day: Day, si: nat)
    requires si < |ctx.slots| && |EntriesOn(tt, inst.batch, day)| < ctx.cap
    ensures Candidate(ctx, tt, inst, qualified, day, si) in DayCandidates(ctx, tt, inst, qualified, day)
  {
    var dc := DayCandidates(ctx, tt, inst, qualified, day);
    assert dc[si] == Candidate(ctx, tt, inst, qualified, day, si);
  }

  /** A day's candidates are among those of any day list holding that day. */
  lemma {:induction false} DayListedOver(ctx: Context, tt: seq<Entry>, inst: Instance, qualified: seq<Id>, days: seq<Day>, k: nat, x: Option<Scored>)
    requires k < |days| && x in DayCandidates(ctx, tt, inst, qualified, days[k])
    ensures x in CandidatesOver(ctx, tt, inst, qualified, days)
    decreases |days|
  {
    var last := |days| - 1;
    var front := days[..last];
    var earlier := CandidatesOver(ctx, tt, inst, qualified, front);
    var dc := DayCandidates(ctx, tt, inst, qualified, days[last]);
    assert CandidatesOver(ctx, tt, inst, qualified, days) == earlier + dc;
    if k == last {
      InAppend(x, earlier, dc);
    } else {
      assert front[k] == days[k];
      DayListedOver(ctx, tt, inst, qualified, front, k, x);
      InAppend(x, earlier, dc);
    }
  }

  lemma InAppend(x: Option<Scored>, a: seq<Option<Scored>>, b: seq<Option<Scored>>)
    ensures x in a + b <==> x in a || x in b
  {
  }

  lemma CandidateListedOver(ctx: Context, tt: seq<Entry>, inst: Instance, qualified: seq<Id>, days: seq<Day>, k: nat, si: nat)
    requires k < |days| && si < |ctx.slots|
    requires |EntriesOn(tt, inst.batch, days[k])| < ctx.cap
    ensures Candidate(ctx, tt, inst, qualified, days[k], si) in CandidatesOver(ctx, tt, inst, qualified, days)
  {
    InDayCandidates(ctx, tt, inst, qualified, days[k], si);
    DayListedOver(ctx, tt, inst, qualified, days, k, Candidate(ctx, tt, inst, qualified, days[k], si));
  }

  /** Every scanned candidate is missing or scores below 0. */
  ghost predicate NothingWorthPlacing(ctx: Context, tt: seq<Entry>, inst: Instance, qualified: seq<Id>) {
    forall day, si: nat :: Scanned(ctx, tt, inst, day, si) ==>
      var c := Candidate(ctx, tt, inst, qualified, day, si);
      c.None? || c.value.score < 0
  }

  lemma CandidateListed(ctx: Context, tt: seq<Entry>, inst: Instance, qualified: seq<Id>, day: Day, si: nat)
    requires Scanned(ctx, tt, inst, day, si)
    ensures Candidate(ctx, tt, inst, qualified, day, si) in Candidates(ctx, tt, inst, qualified)
  {
    CandidateListedOver(ctx, tt, inst, qualified, Days, DayIndex(day), si);
  }

  /** A choice, when made, passed every check of the placement pass and scores at
      least 0. */
  lemma ChosenAdmissible(ctx: Context, tt: seq<Entry>, inst: Instance, qualified: seq<Id>)
    ensures var b := Choose(ctx, tt, inst, qualified);
      b.choice.Some? ==> b.score >= 0 && Admissible(ctx, tt, inst, qualified, b.choice.value)
  {
    var cs := Candidates(ctx, tt, inst, qualified);
    var b := Fold(cs);
    FoldIsFirstStrictMax(cs);
    if b.choice.Some? {
      var k :| 0 <= k < |cs| && cs[k] == Some(Scored(b.score, b.choice.value));
      assert cs[k] in cs;
      var day, si := CandidateOrigin(ctx, tt, inst, qualified, Days, cs[k]);
      CandidateAdmissible(ctx, tt, inst, qualified, day, si);
    }
  }

  /** No scanned candidate scores more than the choice. */
  lemma ChosenIsMax(ctx: Context, tt: seq<Entry>, inst: Instance, qualified: seq<Id>, day: Day, si: nat)
    requires Scanned(ctx, tt, inst, day, si) && Candidate(ctx, tt, inst, qualified, day, si).Some?
    ensures Candidate(ctx, tt, inst, qualified, day, si).value.score <= Choose(ctx, tt, inst, qualified).score
  {
    FoldIsFirstStrictMax(Candidates(ctx, tt, inst, qualified));
    CandidateListed(ctx, tt, inst, qualified, day, si);
  }

  /** No choice is made exactly when no scanned candidate scores 0 or more: a class
      whose candidates all score below 0 is dropped. */
  lemma NothingChosen(ctx: Context, tt: seq<Entry>, inst: Instance, qualified: seq<Id>)
    ensures Choose(ctx, tt, inst, qualified).choice.None? <==> NothingWorthPlacing(ctx, tt, inst, qualified)
  {
    var cs := Candidates(ctx, tt, inst, qualified);
    var b := Fold(cs);
    FoldIsFirstStrictMax(cs);
    if b.choice.None? {
      forall day, si: nat | Scanned(ctx, tt, inst, day, si)
        ensures var c := Candidate(ctx, tt, inst, qualified, day, si); c.None? || c.value.score < 0
      {
        CandidateListed(ctx, tt, inst, qualified, day, si);
      }
    } else {
      var k :| 0 <= k < |cs| && cs[k] == Some(Scored(b.score, b.choice.value));
      assert cs[k] in cs;
      var day, si := CandidateOrigin(ctx, tt, inst, qualified, Days, cs[k]);
      assert Candidate(ctx, tt, inst, qualified, day, si).value.score >= 0;
    }
  }

  // ---- an empty week, and a second occurrence of the same subject ----

  /** With nothing of the batch's on `day` and nobody busy at the slot, the
      candidate at slot number si takes the first qualified faculty member and the
      first classroom, and scores the cap's slack plus the earlier-slot bonus. */
  lemma FreshCandidate(ctx: Context, tt: seq<Entry>, inst: Instance, qualified: seq<Id>, day: Day, si: nat)
    requires si < |ctx.slots| && qualified != [] && qualified[0] != "" && ctx.rooms != [] && ctx.rooms[0] != ""
    requires EntriesOn(tt, inst.batch, day) == []
    requires BusyFaculty(tt, day, ctx.slots[si]) == {} && BusyRooms(tt, day, ctx.slots[si]) == {}
    ensures Candidate(ctx, tt, inst, qualified, day, si)
      == Some(Scored(ctx.cap * 5 + (|ctx.slots| - si) * 2, Choice(day, ctx.slots[si], qualified[0], ctx.rooms[0])))
  {
  }

  /** The scan starts with the first slot of the first day when that day is scanned. */
  lemma {:induction false} CandidatesOverFirst(ctx: Context, tt: seq<Entry>, inst: Instance, qualified: seq<Id>, days: seq<Day>)
    requires days != [] && Scanned(ctx, tt, inst, days[0], 0)
    ensures |CandidatesOver(ctx, tt, inst, qualified, days)| > 0
    ensures CandidatesOver(ctx, tt, inst, qualified, days)[0] == Candidate(ctx, tt, inst, qualified, days[0], 0)
    decreases |days|
  {
    var front := days[..|days| - 1];
    var dc := DayCandidates(ctx, tt, inst, qualified, days[|days| - 1]);
    if front == [] {
      assert CandidatesOver(ctx, tt, inst, qualified, days) == dc;
      assert dc[0] == Candidate(ctx, tt, inst, qualified, days[0], 0);
    } else {
      assert front[0] == days[0];
      CandidatesOverFirst(ctx, tt, inst, qualified, front);
      assert CandidatesOver(ctx, tt, inst, qualified, days) == CandidatesOver(ctx, tt, inst, qualified, front) + dc;
    }
  }

  /** On a week with no classes at all, the choice is Monday's first slot with the
      first qualified faculty member and the first classroom: every candidate
      ties except for the earlier-slot bonus, and the scan keeps the first best. */
  lemma EmptyWeekChoice(ctx: Context, inst: Instance, qualified: seq<Id>)
    requires ctx.slots != [] && ctx.cap >= 1 && qualified != [] && qualified[0] != ""
    requires ctx.rooms != [] && ctx.rooms[0] != ""
    ensures Choose(ctx, [], inst, qualified).choice == Some(Choice(Monday, ctx.slots[0], qualified[0], ctx.rooms[0]))
  {
    var cs := Candidates(ctx, [], inst, qualified);
    var b := Fold(cs);
    FoldIsFirstStrictMax(cs);
    FreshCandidate(ctx, [], inst, qualified, Monday, 0);
    CandidatesOverFirst(ctx, [], inst, qualified, Days);
    assert cs[0] in cs;
    var k :| 0 <= k < |cs| && cs[k] == Some(Scored(b.score, b.choice.value))
      && forall j :: 0 <= j < k ==> cs[j].None? || cs[j].value.score < b.score;
    assert cs[k] in cs;
    var day, si := CandidateOrigin(ctx, [], inst, qualified, Days, cs[k]);
    FreshCandidate(ctx, [], inst, qualified, day, si);
    assert k == 0;
  }

  /** After one class of the batch's subject on Monday, any Monday candidate for
      another occurrence of that subject scores at least 15 below the best a free
      day offers: at most one adjacent class (+10), one class less of slack (-5)
      and the same-subject penalty (-20). */
  lemma RepeatScore(ctx: Context, first: Entry, inst: Instance, qualified: seq<Id>, si: nat)
    requires si < |ctx.slots| && first.day == Monday && first.batch == inst.batch && first.subject == inst.subject
    requires Candidate(ctx, [first], inst, qualified, Monday, si).Some?
    ensures Candidate(ctx, [first], inst, qualified, Monday, si).value.score <= ctx.cap * 5 + |ctx.slots| * 2 - 15
  {
    assert [first][..0] == [];
    var today := EntriesOn([first], inst.batch, Monday);
    assert today == [first];
    assert today[..0] == [];
    assert Adjacent(ctx.slots, today, ctx.slots[si]) <= 1;
    assert SameSubject(today, inst.subject) == 1;
  }

  /** With the batch's only class on Monday, Tuesday's first slot is free for it
      and scores the most any candidate can. */
  lemma FreeTuesday(ctx: Context, first: Entry, inst: Instance, qualified: seq<Id>)
    requires ctx.slots != [] && qualified != [] && qualified[0] != "" && ctx.rooms != [] && ctx.rooms[0] != ""
    requires first.day == Monday
    ensures Candidate(ctx, [first], inst, qualified, Tuesday, 0)
      == Some(Scored(ctx.cap * 5 + |ctx.slots| * 2, Choice(Tuesday, ctx.slots[0], qualified[0], ctx.rooms[0])))
  {
    var tt := [first];
    assert tt[..0] == [];
    assert EntriesOn(tt, inst.batch, Tuesday) == [];
    assert BusyFaculty(tt, Tuesday, ctx.slots[0]) == {};
    assert BusyRooms(tt, Tuesday, ctx.slots[0]) == {};
    FreshCandidate(ctx, tt, inst, qualified, Tuesday, 0);
  }

  /** A candidate is for the day it was computed for. */
  lemma CandidateDay(ctx: Context, tt: seq<Entry>, inst: Instance, qualified: seq<Id>, day: Day, si: nat)
    requires si < |ctx.slots| && Candidate(ctx, tt, inst, qualified, day, si).Some?
    ensures Candidate(ctx, tt, inst, qualified, day, si).value.choice.day == day
  {
  }

  /** A second occurrence of the subject a batch already has on Monday is placed,
      and on another day: Tuesday's first slot outscores every Monday candidate. */
  lemma RepeatChoice(ctx: Context, first: Entry, inst: Instance, qualified: seq<Id>)
    requires ctx.slots != [] && ctx.cap >= 1 && qualified != [] && qualified[0] != ""
    requires ctx.rooms != [] && ctx.rooms[0] != ""
    requires first.day == Monday && first.batch == inst.batch && first.subject == inst.subject
    ensures var b := Choose(ctx, [first], inst, qualified);
      b.choice.Some? && b.choice.value.day != Monday
  {
    var tt := [first];
    var cs := Candidates(ctx, tt, inst, qualified);
    var b := Fold(cs);
    FreeTuesday(ctx, first, inst, qualified);
    ChosenIsMax(ctx, tt, inst, qualified, Tuesday, 0);
    FoldIsFirstStrictMax(cs);
    var k :| 0 <= k < |cs| && cs[k] == Some(Scored(b.score, b.choice.value));
    assert cs[k] in cs;
    var day, si := CandidateOrigin(ctx, tt, inst, qualified, Days, cs[k]);
    CandidateDay(ctx, tt, inst, qualified, day, si);
    if day == Monday {
      RepeatScore(ctx, first, inst, qualified, si);
    }
  }
}
