/** Cycles: time buckets of a frequency (taipy/core/cycle/_cycle_manager.py).
    The bucket of an instant starts at midnight of its day, of the Monday of
    its week, of the first of its month or of January 1 of its year; the
    bucket ends one microsecond before the next bucket starts.  The cycle
    manager stores one Cycle per bucket and reuses it. */
module Cycles {
  import opened Common
  import opened Calendar

  datatype Frequency = Daily | Weekly | Monthly | Yearly

  /** Stepping back `(o + 6) % 7` days from day `o` lands on a day whose
      weekday number is 0, and never before day 1. */
  lemma BackToMonday(o: int, w: int)
    requires o >= 1 && w == (o + 6) % 7
    ensures 0 <= w < o && (o - w + 6) % 7 == 0
  {
  }

  /** Within the seven days from a Monday, the weekday number counts the
      days since that Monday. */
  lemma DaysAfterMonday(monday: int, o: int)
    requires (monday + 6) % 7 == 0 && monday <= o <= monday + 6
    ensures (o + 6) % 7 == o - monday
  {
  }

  lemma WeekdayAfterMonday(monday: Date, d: Date)
    requires ValidDate(monday) && ValidDate(d) && Weekday(monday) == 0
    requires Ordinal(monday) <= Ordinal(d) < Ordinal(monday) + 7
    ensures Weekday(d) == Ordinal(d) - Ordinal(monday)
  {
    DaysAfterMonday(Ordinal(monday), Ordinal(d));
  }

  /** A week after a Monday is a Monday. */
  lemma NextMonday(monday: int, next: int)
    requires (monday + 6) % 7 == 0 && next == monday + 7
    ensures (next + 6) % 7 == 0
  {
  }

  /** The Monday of the week of `d` (`d - timedelta(days=d.weekday())`). */
  function WeekStart(d: Date): (r: Date)
    requires ValidDate(d)
    ensures ValidDate(r) && Weekday(r) == 0
    ensures Ordinal(d) - 6 <= Ordinal(r) <= Ordinal(d)
  {
    var w := Weekday(d);
    BackToMonday(Ordinal(d), w);
    SubDays(d, w)
  }

  /** `_get_start_date_of_cycle`: midnight of the first day of the bucket. */
  function StartOfCycle(f: Frequency, t: DateTime): (s: DateTime)
    requires ValidDateTime(t)
    ensures ValidDateTime(s) && s.micro == 0
    ensures Timestamp(s) <= Timestamp(t)
    ensures f == Daily ==> s.date == t.date
    ensures f == Weekly ==> Weekday(s.date) == 0 && Ordinal(t.date) - 6 <= Ordinal(s.date) <= Ordinal(t.date)
    ensures f == Monthly ==> s.date == Date(t.date.year, t.date.month, 1)
    ensures f == Yearly ==> s.date == Date(t.date.year, 1, 1)
  {
    var d := t.date;
    var start := match f
      case Daily => d
      case Weekly => WeekStart(d)
      case Monthly => d.(day := 1)
      case Yearly => d.(month := 1, day := 1);
    DateTime(start, 0)
  }

  /** Whole days from `d` to the first day of the next bucket, counted
      with calendar arithmetic only. */
  function DaysToNextBucket(f: Frequency, d: Date): (n: int)
    requires ValidDate(d)
    ensures 1 <= n
    ensures f == Daily ==> n == 1
    ensures f == Weekly ==> n <= 7
    ensures f == Monthly ==> n <= DaysInMonth(d.year, d.month)
    ensures f == Yearly ==> n <= DaysInYear(d.year)
  {
    OrdinalInYear(d);
    match f
    case Daily => 1
    case Weekly => 7 - Weekday(d)
    case Monthly => DaysInMonth(d.year, d.month) - d.day + 1
    case Yearly => DaysInYear(d.year) - DaysBeforeMonth(d.year, d.month) - d.day + 1
  }

  /** The date that `_get_end_date_of_cycle` reaches before it steps back
      one microsecond: one day on, to the next Monday, past the last day
      of the month (`calendar.monthrange`), past December 31. */
  function NextBucketDate(f: Frequency, d: Date): (r: Date)
    requires ValidDate(d)
    ensures ValidDate(r) && Ordinal(r) == Ordinal(d) + DaysToNextBucket(f, d)
  {
    match f
    case Daily => AddDays(d, 1)
    case Weekly => AddDays(d, 7 - Weekday(d))
    case Monthly => AddDays(d.(day := DaysInMonth(d.year, d.month)), 1)
    case Yearly =>
      LastMonthStep(d.year);
      AddDays(d.(month := 12, day := 31), 1)
  }

  /** `_get_end_date_of_cycle`: one microsecond before the next bucket. */
  function EndOfCycle(f: Frequency, s: DateTime): (e: DateTime)
    requires ValidDateTime(s)
    ensures ValidDateTime(e)
    ensures Timestamp(e) + 1 == Timestamp(s) + DaysToNextBucket(f, s.date) * MicrosPerDay
  {
    MicroBefore(DateTime(NextBucketDate(f, s.date), s.micro))
  }

  /** The length of a bucket in days: 1, 7, the real length of the month,
      the real length of the year. */
  lemma BucketLength(f: Frequency, t: DateTime)
    requires ValidDateTime(t)
    ensures var s := StartOfCycle(f, t);
      DaysToNextBucket(f, s.date) == match f
        case Daily => 1
        case Weekly => 7
        case Monthly => DaysInMonth(t.date.year, t.date.month)
        case Yearly => DaysInYear(t.date.year)
  {
  }

  /** The bucket start is a fixed point. */
  lemma StartIdempotent(f: Frequency, t: DateTime)
    requires ValidDateTime(t)
    ensures StartOfCycle(f, StartOfCycle(f, t)) == StartOfCycle(f, t)
  {
  }

  /** Every instant lies between the start and the end of its bucket. */
  lemma InstantInBucket(f: Frequency, t: DateTime)
    requires ValidDateTime(t)
    ensures var s := StartOfCycle(f, t);
      Timestamp(s) <= Timestamp(t) <= Timestamp(EndOfCycle(f, s))
  {
    var s := StartOfCycle(f, t);
    BucketLength(f, t);
    if f == Yearly {
      OrdinalInYear(t.date);
    }
    assert Ordinal(t.date) <= Ordinal(s.date) + DaysToNextBucket(f, s.date) - 1;
  }

  /** From a midnight, the end is the last microsecond of the day before
      the next bucket's first day. */
  lemma EndAtLastMicro(f: Frequency, s: DateTime)
    requires ValidDateTime(s) && s.micro == 0
    ensures var e := EndOfCycle(f, s);
      e.micro == MicrosPerDay - 1 && Ordinal(e.date) + 1 == Ordinal(s.date) + DaysToNextBucket(f, s.date)
  {
  }

  /** An instant between the start and the end of a bucket lies on one of
      the bucket's days. */
  lemma DaysOfBucket(f: Frequency, t: DateTime, u: DateTime)
    requires ValidDateTime(t) && ValidDateTime(u)
    requires var s := StartOfCycle(f, t);
      Timestamp(s) <= Timestamp(u) <= Timestamp(EndOfCycle(f, s))
    ensures var s := StartOfCycle(f, t);
      Ordinal(s.date) <= Ordinal(u.date) < Ordinal(s.date) + DaysToNextBucket(f, s.date)
  {
    var s := StartOfCycle(f, t);
    EndAtLastMicro(f, s);
    TimestampDayOrder(s, u);
    TimestampDayOrder(u, EndOfCycle(f, s));
  }

  lemma WeeklySameStart(t: DateTime, u: DateTime)
    requires ValidDateTime(t) && ValidDateTime(u)
    requires var s := StartOfCycle(Weekly, t);
      Ordinal(s.date) <= Ordinal(u.date) < Ordinal(s.date) + 7
    ensures StartOfCycle(Weekly, u) == StartOfCycle(Weekly, t)
  {
    var s, r := StartOfCycle(Weekly, t), StartOfCycle(Weekly, u);
    WeekdayAfterMonday(s.date, u.date);
    OrdinalInjective(r.date, s.date);
  }

  lemma MonthlySameStart(t: DateTime, u: DateTime)
    requires ValidDateTime(t) && ValidDateTime(u)
    requires Ordinal(Date(t.date.year, t.date.month, 1)) <= Ordinal(u.date)
    requires Ordinal(u.date) <= Ordinal(Date(t.date.year, t.date.month, DaysInMonth(t.date.year, t.date.month)))
    ensures StartOfCycle(Monthly, u) == StartOfCycle(Monthly, t)
  {
    var y, m := t.date.year, t.date.month;
    var first, last := Date(y, m, 1), Date(y, m, DaysInMonth(y, m));
    if DateBefore(u.date, first) {
      OrdinalMonotone(u.date, first);
    }
    if DateBefore(last, u.date) {
      OrdinalMonotone(last, u.date);
    }
  }

  lemma YearlySameStart(t: DateTime, u: DateTime)
    requires ValidDateTime(t) && ValidDateTime(u)
    requires Ordinal(Date(t.date.year, 1, 1)) <= Ordinal(u.date) <= Ordinal(Date(t.date.year, 12, 31))
    ensures StartOfCycle(Yearly, u) == StartOfCycle(Yearly, t)
  {
    var y := t.date.year;
    var first, last := Date(y, 1, 1), Date(y, 12, 31);
    if DateBefore(u.date, first) {
      OrdinalMonotone(u.date, first);
    }
    if DateBefore(last, u.date) {
      OrdinalMonotone(last, u.date);
    }
  }

  /** Two instants share a bucket exactly when the second lies between the
      start and the end of the first one's bucket. */
  lemma SameBucket(f: Frequency, t: DateTime, u: DateTime)
    requires ValidDateTime(t) && ValidDateTime(u)
    ensures var s := StartOfCycle(f, t);
      StartOfCycle(f, u) == s <==> Timestamp(s) <= Timestamp(u) <= Timestamp(EndOfCycle(f, s))
  {
    var s := StartOfCycle(f, t);
    InstantInBucket(f, u);
    if Timestamp(s) <= Timestamp(u) <= Timestamp(EndOfCycle(f, s)) {
      DaysOfBucket(f, t, u);
      BucketLength(f, t);
      match f
      case Daily =>
        OrdinalInjective(u.date, s.date);
      case Weekly =>
        WeeklySameStart(t, u);
      case Monthly =>
        MonthlySameStart(t, u);
      case Yearly =>
        LastMonthStep(s.date.year);
        YearlySameStart(t, u);
    }
  }

  /** A week after a Monday is a Monday. */
  lemma WeekAfterIsMonday(d: Date, n: Date)
    requires ValidDate(d) && ValidDate(n) && Weekday(d) == 0 && Ordinal(n) == Ordinal(d) + 7
    ensures Weekday(n) == 0
  {
    NextMonday(Ordinal(d), Ordinal(n));
  }

  /** The day after the last of a month is the first of a month. */
  lemma MonthAfterIsFirst(d: Date)
    requires ValidDate(d)
    ensures NextBucketDate(Monthly, d).day == 1
  {
    var last := d.(day := DaysInMonth(d.year, d.month));
    assert AddDays(last, 1) == NextDay(last);
  }

  /** The day after December 31 is January 1. */
  lemma YearAfterIsNewYear(d: Date)
    requires ValidDate(d)
    ensures var n := NextBucketDate(Yearly, d); n.month == 1 && n.day == 1
  {
    var last := d.(month := 12, day := 31);
    assert AddDays(last, 1) == NextDay(last);
  }

  /** The first day after a bucket starts a bucket of its own. */
  lemma NextStartIsStart(f: Frequency, t: DateTime)
    requires ValidDateTime(t)
    ensures var s := StartOfCycle(f, t);
      var n := DateTime(NextBucketDate(f, s.date), 0);
      StartOfCycle(f, n) == n
  {
    var s := StartOfCycle(f, t);
    match f
    case Daily =>
    case Weekly =>
      WeekAfterIsMonday(s.date, NextBucketDate(Weekly, s.date));
    case Monthly =>
      MonthAfterIsFirst(s.date);
    case Yearly =>
      YearAfterIsNewYear(s.date);
  }

  /** The end of a bucket is in that bucket, and the instant one
      microsecond later starts the next bucket. */
  lemma NextBucketFollowsEnd(f: Frequency, t: DateTime)
    requires ValidDateTime(t)
    ensures var s := StartOfCycle(f, t);
      var e := EndOfCycle(f, s);
      var n := DateTime(NextDay(e.date), 0);
      && StartOfCycle(f, e) == s
      && Timestamp(n) == Timestamp(e) + 1
      && StartOfCycle(f, n) == n
      && n != s
  {
    var s := StartOfCycle(f, t);
    var e := EndOfCycle(f, s);
    var n := DateTime(NextDay(e.date), 0);
    InstantInBucket(f, t);
    SameBucket(f, t, e);
    EndAtLastMicro(f, s);
    var next := NextBucketDate(f, s.date);
    OrdinalInjective(n.date, next);
    NextStartIsStart(f, t);
  }

  /** Key of the display name in a cycle's `properties`. */
  const DisplayNameKey: string := "display_name"

  datatype Cycle = Cycle(
    id: EntityId,
    frequency: Frequency,
    properties: map<string, string>,
    name: Option<string>,
    creationDate: DateTime,
    startDate: DateTime,
    endDate: DateTime)

  /** `creation_date if creation_date else datetime.now()`, with the clock
      reading passed in as `now`. */
  function CreationInstant(given: Option<DateTime>, now: DateTime): DateTime
  {
    if given.Some? then given.value else now
  }

  /** A stored cycle covers exactly the bucket of its creation instant. */
  predicate Bucketed(c: Cycle)
  {
    && ValidDateTime(c.creationDate)
    && c.startDate == StartOfCycle(c.frequency, c.creationDate)
    && c.endDate == EndOfCycle(c.frequency, c.startDate)
  }

  predicate InBucket(c: Cycle, f: Frequency, start: DateTime)
  {
    c.frequency == f && c.startDate == start
  }

  /** The repository lookup by (frequency, start date): the position of
      the first stored cycle of that bucket, if any. */
  function FirstInBucket(cycles: seq<Cycle>, f: Frequency, start: DateTime): (r: Option<nat>)
    ensures r.Some? ==> r.value < |cycles| && InBucket(cycles[r.value], f, start)
    ensures r.Some? ==> forall j :: 0 <= j < r.value ==> !InBucket(cycles[j], f, start)
    ensures r.None? ==> forall j :: 0 <= j < |cycles| ==> !InBucket(cycles[j], f, start)
  {
    if |cycles| == 0 then None
    else if InBucket(cycles[0], f, start) then Some(0)
    else match FirstInBucket(cycles[1..], f, start)
      case None => None
      case Some(i) => Some(i + 1)
  }

  /** Every stored cycle covers its bucket and carries an id of its own,
      numbered below `next`. */
  predicate Registered(cycles: seq<Cycle>, next: nat)
  {
    && (forall i :: 0 <= i < |cycles| ==> cycles[i].id.serial < next && Bucketed(cycles[i]))
    && (forall i, j :: 0 <= i < j < |cycles| ==> cycles[i].id != cycles[j].id)
  }

  /** What lookup-before-create maintains: no two cycles share a bucket. */
  predicate OnePerBucket(cycles: seq<Cycle>)
  {
    forall i, j :: 0 <= i < j < |cycles| ==> !InBucket(cycles[j], cycles[i].frequency, cycles[i].startDate)
  }

  /** Storing a bucketed cycle numbered `next` keeps the ids distinct. */
  lemma RegisterKeeps(cycles: seq<Cycle>, next: nat, c: Cycle)
    requires Registered(cycles, next) && Bucketed(c) && c.id.serial == next
    ensures Registered(cycles + [c], next + 1)
    ensures forall i :: 0 <= i < |cycles| ==> cycles[i].id != c.id
  {
    var after := cycles + [c];
    forall i | 0 <= i < |after|
      ensures after[i].id.serial < next + 1 && Bucketed(after[i])
    {
      if i < |cycles| {
        assert after[i] == cycles[i];
      }
    }
    forall i, j | 0 <= i < j < |after|
      ensures after[i].id != after[j].id
    {
      assert after[i] == cycles[i];
      if j < |cycles| {
        assert after[j] == cycles[j];
      } else {
        assert cycles[i].id.serial < next;
      }
    }
  }

  /** Storing a cycle of a bucket no stored cycle covers keeps one cycle
      per bucket. */
  lemma NewBucketKeeps(cycles: seq<Cycle>, c: Cycle)
    requires OnePerBucket(cycles)
    requires forall j :: 0 <= j < |cycles| ==> !InBucket(cycles[j], c.frequency, c.startDate)
    ensures OnePerBucket(cycles + [c])
  {
    var after := cycles + [c];
    assert forall i :: 0 <= i < |cycles| ==> after[i] == cycles[i];
  }

  /** `_CycleManager` with its repository: the stored cycles in storing order. */
  class CycleManager {
    var cycles: seq<Cycle>
    /** Serial of the next fresh cycle id (stands for the uuid part). */
    var nextSerial: nat

    ghost predicate Valid()
      reads this
    {
      Registered(cycles, nextSerial)
    }

    ghost predicate OneCyclePerBucket()
      reads this
    {
      OnePerBucket(cycles)
    }

    constructor ()
      ensures Valid() && OneCyclePerBucket() && cycles == []
    {
      cycles := [];
      nextSerial := 0;
    }

    /** `_create`: compute the bucket of the creation instant, default the
        display name to the ISO text of the start, and store the cycle. */
    method Create(f: Frequency, name: Option<string>, creationDate: Option<DateTime>, now: DateTime,
                  displayName: Option<string>, properties: map<string, string>) returns (c: Cycle)
      requires Valid() && ValidDateTime(now)
      requires creationDate.Some? ==> ValidDateTime(creationDate.value)
      modifies this
      ensures Valid()
      ensures cycles == old(cycles) + [c]
      ensures forall i :: 0 <= i < |old(cycles)| ==> old(cycles)[i].id != c.id
      ensures c.frequency == f && c.name == name && c.creationDate == CreationInstant(creationDate, now)
      ensures c.startDate == StartOfCycle(f, c.creationDate) && c.endDate == EndOfCycle(f, c.startDate)
      ensures c.properties == properties[DisplayNameKey :=
        if Truthy(displayName) then displayName.value else IsoFormat(c.startDate)]
    {
      var created := CreationInstant(creationDate, now);
      var start := StartOfCycle(f, created);
      var end := EndOfCycle(f, start);
      var props := properties[DisplayNameKey := if Truthy(displayName) then displayName.value else IsoFormat(start)];
      c := Cycle(EntityId("CYCLE", "", nextSerial), f, props, name, created, start, end);
      RegisterKeeps(cycles, nextSerial, c);
      cycles := cycles + [c];
      nextSerial := nextSerial + 1;
    }

    /** `_get_or_create`: the first stored cycle of the instant's bucket, or
        a new cycle of that bucket, stored. */
    method GetOrCreate(f: Frequency, creationDate: Option<DateTime>, now: DateTime, displayName: Option<string>)
      returns (c: Cycle)
      requires Valid() && ValidDateTime(now)
      requires creationDate.Some? ==> ValidDateTime(creationDate.value)
      modifies this
      ensures Valid()
      ensures InBucket(c, f, StartOfCycle(f, CreationInstant(creationDate, now))) && c in cycles
      ensures var found := FirstInBucket(old(cycles), f, StartOfCycle(f, CreationInstant(creationDate, now)));
        found.Some? ==> c == old(cycles)[found.value] && cycles == old(cycles) && nextSerial == old(nextSerial)
      ensures var found := FirstInBucket(old(cycles), f, StartOfCycle(f, CreationInstant(creationDate, now)));
        found.None? ==>
          && cycles == old(cycles) + [c]
          && (forall i :: 0 <= i < |old(cycles)| ==> old(cycles)[i].id != c.id)
          && c.name == None && c.creationDate == CreationInstant(creationDate, now)
          && c.endDate == EndOfCycle(f, c.startDate)
          && c.properties == map[DisplayNameKey :=
               if Truthy(displayName) then displayName.value else IsoFormat(c.startDate)]
      ensures old(OneCyclePerBucket()) ==> OneCyclePerBucket()
    {
      var created := CreationInstant(creationDate, now);
      var start := StartOfCycle(f, created);
      var found := FirstInBucket(cycles, f, start);
      if found.Some? {
        c := cycles[found.value];
      } else {
        ghost var before := cycles;
        c := Create(f, None, Some(created), now, displayName, map[]);
        if OnePerBucket(before) {
          NewBucketKeeps(before, c);
        }
      }
    }
  }

  /** Under one-cycle-per-bucket, the lookup finds the stored cycle of the bucket. */
  lemma {:induction false} LookupFindsStored(cycles: seq<Cycle>, k: nat)
    requires k < |cycles|
    requires forall i, j :: 0 <= i < j < |cycles| ==> !InBucket(cycles[j], cycles[i].frequency, cycles[i].startDate)
    ensures FirstInBucket(cycles, cycles[k].frequency, cycles[k].startDate) == Some(k)
  {
    if k > 0 && !InBucket(cycles[0], cycles[k].frequency, cycles[k].startDate) {
      LookupFindsStored(cycles[1..], k - 1);
    }
  }

  /** Stored cycles with distinct ids are told apart by their id. */
  lemma IdsIdentify(cycles: seq<Cycle>, a: Cycle, b: Cycle)
    requires forall i, j :: 0 <= i < j < |cycles| ==> cycles[i].id != cycles[j].id
    requires a in cycles && b in cycles && a.id == b.id
    ensures a == b
  {
    var i :| 0 <= i < |cycles| && cycles[i] == a;
    var j :| 0 <= j < |cycles| && cycles[j] == b;
  }

  /** The second lookup of a bucket finds the cycle the first one
      returned; cycles of different buckets are different and carry
      different ids. */
  lemma SecondLookup(before: seq<Cycle>, after: seq<Cycle>, c1: Cycle, c2: Cycle, f: Frequency,
                     s1: DateTime, s2: DateTime)
    requires forall i, j :: 0 <= i < j < |before| ==> !InBucket(before[j], before[i].frequency, before[i].startDate)
    requires forall i, j :: 0 <= i < j < |after| ==> after[i].id != after[j].id
    requires c1 in before && InBucket(c1, f, s1) && InBucket(c2, f, s2) && c2 in after && before <= after
    requires var found := FirstInBucket(before, f, s2); found.Some? ==> c2 == before[found.value]
    ensures s1 == s2 <==> c1 == c2
    ensures s1 != s2 ==> c1.id != c2.id
  {
    var k :| 0 <= k < |before| && before[k] == c1;
    LookupFindsStored(before, k);
    if s1 != s2 {
      if c1.id == c2.id {
        IdsIdentify(after, c1, c2);
      }
    }
  }

  /** Asking twice for the cycle of two instants returns the same cycle
      when they share a bucket, and two distinct cycles otherwise. */
  method GetOrCreateTwice(m: CycleManager, f: Frequency, t1: DateTime, t2: DateTime, now: DateTime)
    returns (c1: Cycle, c2: Cycle)
    requires m.Valid() && m.OneCyclePerBucket()
    requires ValidDateTime(t1) && ValidDateTime(t2) && ValidDateTime(now)
    modifies m
    ensures m.Valid() && m.OneCyclePerBucket()
    ensures StartOfCycle(f, t1) == StartOfCycle(f, t2) <==> c1 == c2
    ensures StartOfCycle(f, t1) != StartOfCycle(f, t2) ==> c1.id != c2.id
    ensures |m.cycles| <= |old(m.cycles)| + 2
  {
    c1 := m.GetOrCreate(f, Some(t1), now, None);
    ghost var before := m.cycles;
    c2 := m.GetOrCreate(f, Some(t2), now, None);
    SecondLookup(before, m.cycles, c1, c2, f, StartOfCycle(f, t1), StartOfCycle(f, t2));
  }
}
