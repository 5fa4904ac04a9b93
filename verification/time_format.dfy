/** The "HH:MM" and "HH:MM-HH:MM" texts the engine stores times in, the string
    helpers that take them apart, and why comparing them as text agrees with
    comparing minute counts. */
module TimeFormat {
  import opened Types

  function Digit(n: nat): char
    requires n < 10
  {
    ('0' as int + n) as char
  }

  /** `n.toString().padStart(2, "0")` for n below 100. */
  function Pad2(n: nat): (r: string)
    requires n < 100
  {
    [Digit(n / 10), Digit(n % 10)]
  }

  /** The "HH:MM" text of a time of day given in minutes (hours below 100). */
  function ClockText(t: nat): (r: string)
    requires t < 6000
    ensures |r| == 5 && r[2] == ':' && '-' !in r
  {
    Pad2(t / 60) + [':'] + Pad2(t % 60)
  }

  /** The "HH:MM-HH:MM" text of a slot. */
  function SlotText(s: Slot): string
    requires s.start < 6000 && s.end < 6000
  {
    ClockText(s.start) + ['-'] + ClockText(s.end)
  }

  /** JavaScript's `text.split(sep)` for a one-character separator. */
  function Split(text: string, sep: char): (parts: seq<string>)
    ensures |parts| >= 1
    decreases |text|
  {
    if text == [] then [[]]
    else
      var rest := Split(text[1..], sep);
      if text[0] == sep then [[]] + rest else [[text[0]] + rest[0]] + rest[1..]
  }

  /** getSlotStartTime: the part before the first '-'. */
  function SlotStartTime(text: string): string {
    Split(text, '-')[0]
  }

  /** getSlotEndTime: the part after the first '-', undefined when there is none. */
  function SlotEndTime(text: string): Option<string> {
    var parts := Split(text, '-');
    if |parts| > 1 then Some(parts[1]) else None
  }

  predicate IsDigit(ch: char) {
    '0' <= ch <= '9'
  }

  /** `Number(s)` on a string of decimal digits (the empty string reads as 0);
      anything else is NaN, here None. */
  function ParseNumber(s: string): Option<nat>
    decreases |s|
  {
    if s == [] then Some(0)
    else if !IsDigit(s[|s| - 1]) then None
    else match ParseNumber(s[..|s| - 1])
      case None => None
      case Some(v) => Some(v * 10 + (s[|s| - 1] as int - '0' as int))
  }

  /** `time.split(":").map(Number)` turned into minutes; None stands for NaN. */
  function ParseClock(text: string): Option<nat> {
    var parts := Split(text, ':');
    if |parts| < 2 then None
    else match (ParseNumber(parts[0]), ParseNumber(parts[1]))
      case (Some(h), Some(m)) => Some(h * 60 + m)
      case _ => None
  }

  /** getTimeDifference: the absolute distance in minutes; None stands for NaN. */
  function TimeDifference(time1: string, time2: string): Option<nat> {
    match (ParseClock(time1), ParseClock(time2))
    case (Some(m1), Some(m2)) => Some(if m2 >= m1 then m2 - m1 else m1 - m2)
    case _ => None
  }

  /** JavaScript's `<` on strings: lexicographic on character codes. */
  predicate Less(a: string, b: string)
    decreases |a|
  {
    if a == [] then b != []
    else if b == [] then false
    else a[0] < b[0] || (a[0] == b[0] && Less(a[1..], b[1..]))
  }

  // ---- splitting ----

  lemma {:induction false} SplitWithoutSeparator(a: string, sep: char)
    requires sep !in a
    ensures Split(a, sep) == [a]
    decreases |a|
  {
    if a != [] {
      SplitWithoutSeparator(a[1..], sep);
      assert [a[0]] + a[1..] == a;
    }
  }

  lemma {:induction false} SplitAtFirst(a: string, sep: char, b: string)
    requires sep !in a
    ensures Split(a + [sep] + b, sep) == [a] + Split(b, sep)
    decreases |a|
  {
    var t := a + [sep] + b;
    if a == [] {
      assert t[1..] == b;
    } else {
      assert t[1..] == a[1..] + [sep] + b;
      SplitAtFirst(a[1..], sep, b);
      assert [a[0]] + a[1..] == a;
    }
  }

  /** The two halves of a slot's text are the texts of its two times. */
  lemma SlotTextSplits(s: Slot)
    requires s.start < 6000 && s.end < 6000
    ensures SlotStartTime(SlotText(s)) == ClockText(s.start)
    ensures SlotEndTime(SlotText(s)) == Some(ClockText(s.end))
  {
    SplitAtFirst(ClockText(s.start), '-', ClockText(s.end));
    SplitWithoutSeparator(ClockText(s.end), '-');
  }

  // ---- parsing ----

  lemma PadParses(n: nat)
    requires n < 100
    ensures ParseNumber(Pad2(n)) == Some(n)
  {
    var p := Pad2(n);
    assert p[..1] == [Digit(n / 10)];
    assert p[..1][..0] == [];
    assert ParseNumber(p[..1]) == Some(n / 10);
    assert p[1] as int - '0' as int == n % 10;
  }

  /** Reading "HH:MM" back gives the minutes it was written from. */
  lemma ClockTextParses(t: nat)
    requires t < 6000
    ensures ParseClock(ClockText(t)) == Some(t)
  {
    var h, m := Pad2(t / 60), Pad2(t % 60);
    assert ':' !in h;
    assert ':' !in m;
    SplitAtFirst(h, ':', m);
    SplitWithoutSeparator(m, ':');
    PadParses(t / 60);
    PadParses(t % 60);
  }

  /** The free-period test of the score reads, from two slot texts, exactly the
      distance between the end of the first and the start of the second. */
  lemma GapOfTexts(earlier: Slot, later: Slot)
    requires earlier.start < 6000 && earlier.end < 6000
    requires later.start < 6000 && later.end < 6000
    ensures SlotEndTime(SlotText(earlier)).Some?
    ensures TimeDifference(SlotEndTime(SlotText(earlier)).value, SlotStartTime(SlotText(later)))
         == Some(if later.start >= earlier.end then later.start - earlier.end else earlier.end - later.start)
  {
    SlotTextSplits(earlier);
    SlotTextSplits(later);
    ClockTextParses(earlier.end);
    ClockTextParses(later.start);
  }

  /** Different slots never share a text. */
  lemma SlotTextInjective(p: Slot, q: Slot)
    requires p.start < 6000 && p.end < 6000 && q.start < 6000 && q.end < 6000
    requires SlotText(p) == SlotText(q)
    ensures p == q
  {
    SlotTextSplits(p);
    SlotTextSplits(q);
    ClockTextParses(p.start);
    ClockTextParses(q.start);
    ClockTextParses(p.end);
    ClockTextParses(q.end);
  }

  // ---- ordering ----

  /** Comparing x * k + r with y * k + s, remainders below k, is comparing (x, r)
      with (y, s) lexicographically; stated for the three radices of "HH:MM". */
  lemma RadixOrder600(x: int, r: int, y: int, s: int)
    requires 0 <= r < 600 && 0 <= s < 600
    ensures x * 600 + r < y * 600 + s <==> x < y || (x == y && r < s)
  {
    if x < y {
      assert x * 600 + 600 <= y * 600;
    } else if y < x {
      assert y * 600 + 600 <= x * 600;
    }
  }

  lemma RadixOrder60(x: int, r: int, y: int, s: int)
    requires 0 <= r < 60 && 0 <= s < 60
    ensures x * 60 + r < y * 60 + s <==> x < y || (x == y && r < s)
  {
    if x < y {
      assert x * 60 + 60 <= y * 60;
    } else if y < x {
      assert y * 60 + 60 <= x * 60;
    }
  }

  lemma RadixOrder10(x: int, r: int, y: int, s: int)
    requires 0 <= r < 10 && 0 <= s < 10
    ensures x * 10 + r < y * 10 + s <==> x < y || (x == y && r < s)
  {
    if x < y {
      assert x * 10 + 10 <= y * 10;
    } else if y < x {
      assert y * 10 + 10 <= x * 10;
    }
  }

  /** The four digits of "HH:MM", as numbers. */
  function ClockDigits(t: nat): (d: (nat, nat, nat, nat))
    requires t < 6000
    ensures d.0 < 10 && d.1 < 10 && d.2 < 6 && d.3 < 10
    ensures t == d.0 * 600 + d.1 * 60 + d.2 * 10 + d.3
  {
    ((t / 60) / 10, (t / 60) % 10, (t % 60) / 10, (t % 60) % 10)
  }

  lemma DigitsOrder(a: nat, b: nat)
    requires a < 6000 && b < 6000
    ensures var (a0, a1, a2, a3) := ClockDigits(a);
      var (b0, b1, b2, b3) := ClockDigits(b);
      a < b <==> a0 < b0 || (a0 == b0 && (a1 < b1 || (a1 == b1 && (a2 < b2 || (a2 == b2 && a3 < b3)))))
  {
    var (a0, a1, a2, a3) := ClockDigits(a);
    var (b0, b1, b2, b3) := ClockDigits(b);
    RadixOrder600(a0, a1 * 60 + a2 * 10 + a3, b0, b1 * 60 + b2 * 10 + b3);
    RadixOrder60(a1, a2 * 10 + a3, b1, b2 * 10 + b3);
    RadixOrder10(a2, a3, b2, b3);
  }

  lemma ClockTextShape(t: nat)
    requires t < 6000
    ensures var d := ClockDigits(t);
      ClockText(t) == [Digit(d.0), Digit(d.1), ':', Digit(d.2), Digit(d.3)]
  {
  }

  lemma LessCons(a: char, r: string, b: char, t: string)
    ensures Less([a] + r, [b] + t) <==> a < b || (a == b && Less(r, t))
  {
    assert ([a] + r)[1..] == r && ([b] + t)[1..] == t;
  }

  /** Comparing two "HH:MM" texts as strings, as the generator and the free-period
      sort do, is comparing the times they denote. */
  lemma ClockTextOrder(a: nat, b: nat)
    requires a < 6000 && b < 6000
    ensures Less(ClockText(a), ClockText(b)) <==> a < b
  {
    ClockTextShape(a);
    ClockTextShape(b);
    DigitsOrder(a, b);
    var da, db := ClockDigits(a), ClockDigits(b);
    var a0, a1, a3, a4 := Digit(da.0), Digit(da.1), Digit(da.2), Digit(da.3);
    var b0, b1, b3, b4 := Digit(db.0), Digit(db.1), Digit(db.2), Digit(db.3);
    LessCons(a4, [], b4, []);
    LessCons(a3, [a4], b3, [b4]);
    LessCons(':', [a3, a4], ':', [b3, b4]);
    LessCons(a1, [':', a3, a4], b1, [':', b3, b4]);
    LessCons(a0, [a1, ':', a3, a4], b0, [b1, ':', b3, b4]);
    assert [a4] == [a4] + [] && [b4] == [b4] + [];
    assert [a3, a4] == [a3] + [a4] && [b3, b4] == [b3] + [b4];
    assert [':', a3, a4] == [':'] + [a3, a4] && [':', b3, b4] == [':'] + [b3, b4];
    assert [a1, ':', a3, a4] == [a1] + [':', a3, a4] && [b1, ':', b3, b4] == [b1] + [':', b3, b4];
    assert ClockText(a) == [a0] + [a1, ':', a3, a4] && ClockText(b) == [b0] + [b1, ':', b3, b4];
  }

  lemma {:induction false} LessOfEqualLengthPrefix(a: string, b: string, c: string, d: string)
    requires |a| == |b|
    ensures Less(a + c, b + d) <==> Less(a, b) || (a == b && Less(c, d))
    decreases |a|
  {
    if a != [] {
      assert (a + c)[1..] == a[1..] + c;
      assert (b + d)[1..] == b[1..] + d;
      LessOfEqualLengthPrefix(a[1..], b[1..], c, d);
      if a[0] == b[0] && a[1..] == b[1..] {
        assert a == [a[0]] + a[1..] && b == [b[0]] + b[1..];
      }
    } else {
      assert a + c == c && b + d == d;
    }
  }

  lemma {:induction false} LessIrreflexive(a: string)
    ensures !Less(a, a)
    decreases |a|
  {
    if a != [] {
      LessIrreflexive(a[1..]);
    }
  }

  /** Sorting slot texts with a string comparison orders slots by start, then end. */
  lemma SlotTextOrder(p: Slot, q: Slot)
    requires p.start < 6000 && p.end < 6000 && q.start < 6000 && q.end < 6000
    ensures Less(SlotText(p), SlotText(q)) <==> p.start < q.start || (p.start == q.start && p.end < q.end)
  {
    var ps, qs := ClockText(p.start) + ['-'], ClockText(q.start) + ['-'];
    assert SlotText(p) == ps + ClockText(p.end);
    assert SlotText(q) == qs + ClockText(q.end);
    LessOfEqualLengthPrefix(ps, qs, ClockText(p.end), ClockText(q.end));
    LessOfEqualLengthPrefix(ClockText(p.start), ClockText(q.start), ['-'], ['-']);
    LessIrreflexive(['-']);
    ClockTextOrder(p.start, q.start);
    ClockTextOrder(p.end, q.end);
    if ps == qs {
      assert ClockText(p.start) == ps[..5] == qs[..5] == ClockText(q.start);
      ClockTextParses(p.start);
      ClockTextParses(q.start);
    }
  }
}
