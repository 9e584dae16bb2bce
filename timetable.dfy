/**
 * The timetable service: slots of a class on a day of the week, the
 * interval rule that refuses a slot colliding with another of the same
 * class and day, the per-class week view bucketed by day and served
 * through a cache, and the filtered listing. The slot table and the cache
 * are the fields of a Planner; the class and user tables are parameters.
 */
module Timetable {
  import opened Common
  import opened Collections

  const TIMETABLE_TTL: nat := 3600

  // ---- the request schema ----

  datatype SlotInput = SlotInput(
    class_id: string, day_of_week: int, start_time: string, end_time: string, subject: string,
    teacher_id: Option<string>, room: Option<string>)

  /** Two digits, a colon, two digits: the whole string, as /^\d{2}:\d{2}$/ requires. */
  predicate IsClock(s: string) {
    |s| == 5 && IsDigit(s[0]) && IsDigit(s[1]) && s[2] == ':' && IsDigit(s[3]) && IsDigit(s[4])
  }

  predicate ValidSlot(x: SlotInput) {
    && IsUuid(x.class_id)
    && 1 <= x.day_of_week <= 7
    && IsClock(x.start_time) && IsClock(x.end_time)
    && |x.subject| >= 1
    && (x.teacher_id.Some? ==> IsUuid(x.teacher_id.value))
  }

  function DigitValue(c: char): (n: nat)
    ensures n < 10
  {
    if IsDigit(c) then c as int - '0' as int else 0
  }

  /**
   * HHMM as a number. For clock strings this orders exactly as the text
   * does, and as the time of day does where the text is a valid time.
   */
  function ClockKey(s: string): (k: nat)
    ensures k < 10000
  {
    if |s| == 5 then (DigitValue(s[0]) * 10 + DigitValue(s[1])) * 100 + DigitValue(s[3]) * 10 + DigitValue(s[4])
    else 0
  }

  /** Distinct clock strings get distinct keys. */
  lemma ClockKeyInjective(a: string, b: string)
    requires IsClock(a) && IsClock(b) && ClockKey(a) == ClockKey(b)
    ensures a == b
  {
    var ha, ma := DigitValue(a[0]) * 10 + DigitValue(a[1]), DigitValue(a[3]) * 10 + DigitValue(a[4]);
    var hb, mb := DigitValue(b[0]) * 10 + DigitValue(b[1]), DigitValue(b[3]) * 10 + DigitValue(b[4]);
    PlaceValues(ha, ma, hb, mb, 100);
    PlaceValues(DigitValue(a[0]), DigitValue(a[1]), DigitValue(b[0]), DigitValue(b[1]), 10);
    PlaceValues(DigitValue(a[3]), DigitValue(a[4]), DigitValue(b[3]), DigitValue(b[4]), 10);
    assert a == [a[0], a[1], a[2], a[3], a[4]];
    assert b == [b[0], b[1], b[2], b[3], b[4]];
  }

  /** Positional notation is unambiguous: high * base + low fixes both parts when low < base. */
  lemma PlaceValues(xHigh: nat, xLow: nat, yHigh: nat, yLow: nat, base: nat)
    requires base == 10 || base == 100
    requires xLow < base && yLow < base && xHigh * base + xLow == yHigh * base + yLow
    ensures xHigh == yHigh && xLow == yLow
  {
    if base == 10 {
      assert xHigh * 10 + xLow == yHigh * 10 + yLow;
    } else {
      assert xHigh * 100 + xLow == yHigh * 100 + yLow;
    }
  }

  // ---- timetable.entries ----

  datatype Entry = Entry(
    id: nat, class_id: string, day_of_week: int, start_time: string, end_time: string, subject: string,
    teacher_id: Option<string>, room: Option<string>)

  /** What every stored slot satisfies: it passed the schema. */
  predicate EntryShape(e: Entry) {
    && IsUuid(e.class_id)
    && 1 <= e.day_of_week <= 7
    && IsClock(e.start_time) && IsClock(e.end_time)
    && |e.subject| >= 1
  }

  /** `room || null`: an empty room is stored as NULL. */
  function RoomOrNull(room: Option<string>): (r: Option<string>)
    ensures r.Some? <==> Truthy(room)
    ensures r.Some? ==> r == room
  {
    if Truthy(room) then room else None
  }

  function EntryOf(id: nat, x: SlotInput): (e: Entry)
    requires ValidSlot(x)
    ensures EntryShape(e) && e.id == id
  {
    Entry(id, x.class_id, x.day_of_week, x.start_time, x.end_time, x.subject, x.teacher_id, RoomOrNull(x.room))
  }

  // ---- the conflict rule ----

  /**
   * The source's three-way test of a new [S, E] against a stored slot: the
   * slot holds S, or it holds E, or it lies within [S, E].
   */
  predicate Conflicts(e: Entry, start: string, end: string) {
    var s, t, a, b := ClockKey(e.start_time), ClockKey(e.end_time), ClockKey(start), ClockKey(end);
    (s <= a && t > a) || (s < b && t >= b) || (s >= a && t <= b)
  }

  /** Half-open intervals [s, t) and [a, b) share an instant. */
  predicate Overlaps(s: int, t: int, a: int, b: int) {
    s < b && a < t
  }

  /** For slots that start before they end, the three-way test is exactly interval overlap. */
  lemma ConflictsIsOverlap(e: Entry, start: string, end: string)
    requires ClockKey(e.start_time) < ClockKey(e.end_time) && ClockKey(start) < ClockKey(end)
    ensures Conflicts(e, start, end) <==>
      Overlaps(ClockKey(e.start_time), ClockKey(e.end_time), ClockKey(start), ClockKey(end))
  {
  }

  /** A slot that starts when another ends does not collide with it. */
  lemma BackToBackAllowed(e: Entry, start: string, end: string)
    requires ClockKey(e.start_time) < ClockKey(e.end_time) && ClockKey(start) < ClockKey(end)
    requires ClockKey(e.end_time) == ClockKey(start) || ClockKey(end) == ClockKey(e.start_time)
    ensures !Conflicts(e, start, end)
  {
  }

  predicate WellFormed(e: Entry) {
    ClockKey(e.start_time) < ClockKey(e.end_time)
  }

  predicate SameClassAndDay(e: Entry, classId: string, day: int) {
    e.class_id == classId && e.day_of_week == day
  }

  /** Some stored slot, other than the one with id `except` when given, collides with the input. */
  predicate HasConflict(entries: seq<Entry>, x: SlotInput, except: Option<nat>) {
    exists i :: 0 <= i < |entries| && SameClassAndDay(entries[i], x.class_id, x.day_of_week) &&
      (except.Some? ==> entries[i].id != except.value) && Conflicts(entries[i], x.start_time, x.end_time)
  }

  /** No two well-formed slots of one class and day overlap. */
  predicate NoOverlaps(entries: seq<Entry>) {
    forall i, j ::
      (0 <= i < |entries| && 0 <= j < |entries| && i != j &&
       SameClassAndDay(entries[i], entries[j].class_id, entries[j].day_of_week) &&
       WellFormed(entries[i]) && WellFormed(entries[j])) ==>
      !Overlaps(ClockKey(entries[i].start_time), ClockKey(entries[i].end_time),
                ClockKey(entries[j].start_time), ClockKey(entries[j].end_time))
  }

  predicate AllShaped(entries: seq<Entry>) {
    forall i :: 0 <= i < |entries| ==> EntryShape(entries[i])
  }

  predicate IdsUnique(entries: seq<Entry>) {
    forall i, j :: 0 <= i < j < |entries| ==> entries[i].id != entries[j].id
  }

  /** Adding a slot that collides with none of its class and day keeps the table free of overlaps. */
  lemma AppendKeepsNoOverlaps(entries: seq<Entry>, e: Entry)
    requires AllShaped(entries) && EntryShape(e) && NoOverlaps(entries)
    requires forall i :: 0 <= i < |entries| && SameClassAndDay(entries[i], e.class_id, e.day_of_week) ==>
      !Conflicts(entries[i], e.start_time, e.end_time)
    ensures AllShaped(entries + [e]) && NoOverlaps(entries + [e])
  {
    var r := entries + [e];
    forall i, j | 0 <= i < |r| && 0 <= j < |r| && i != j &&
      SameClassAndDay(r[i], r[j].class_id, r[j].day_of_week) && WellFormed(r[i]) && WellFormed(r[j])
      ensures !Overlaps(ClockKey(r[i].start_time), ClockKey(r[i].end_time),
                        ClockKey(r[j].start_time), ClockKey(r[j].end_time))
    {
      if i == |entries| {
        ConflictsIsOverlap(r[j], e.start_time, e.end_time);
      } else if j == |entries| {
        ConflictsIsOverlap(r[i], e.start_time, e.end_time);
      }
    }
  }

  /** Replacing slot k by one that collides with no other slot of its class and day keeps the table free of overlaps. */
  lemma ReplaceKeepsNoOverlaps(entries: seq<Entry>, k: nat, e: Entry)
    requires AllShaped(entries) && EntryShape(e) && NoOverlaps(entries) && k < |entries|
    requires forall i :: 0 <= i < |entries| && i != k && SameClassAndDay(entries[i], e.class_id, e.day_of_week) ==>
      !Conflicts(entries[i], e.start_time, e.end_time)
    ensures AllShaped(entries[k := e]) && NoOverlaps(entries[k := e])
  {
    var r := entries[k := e];
    forall i, j | 0 <= i < |r| && 0 <= j < |r| && i != j &&
      SameClassAndDay(r[i], r[j].class_id, r[j].day_of_week) && WellFormed(r[i]) && WellFormed(r[j])
      ensures !Overlaps(ClockKey(r[i].start_time), ClockKey(r[i].end_time),
                        ClockKey(r[j].start_time), ClockKey(r[j].end_time))
    {
      if i == k {
        ConflictsIsOverlap(r[j], e.start_time, e.end_time);
      } else if j == k {
        ConflictsIsOverlap(r[i], e.start_time, e.end_time);
      }
    }
  }

  // ---- the week view ----

  /** The slots of one class, from the table in its stored order. */
  function ClassRows(entries: seq<Entry>, classId: string): (r: seq<Entry>)
    ensures forall e :: e in r <==> e in entries && e.class_id == classId
  {
    if entries == [] then []
    else
      var init, e := entries[..|entries| - 1], entries[|entries| - 1];
      assert entries == init + [e];
      ClassRows(init, classId) + (if e.class_id == classId then [e] else [])
  }

  lemma {:induction false} ClassRowsAppend(a: seq<Entry>, b: seq<Entry>, classId: string)
    ensures ClassRows(a + b, classId) == ClassRows(a, classId) + ClassRows(b, classId)
  {
    if b == [] {
      assert a + b == a;
    } else {
      var init, e := b[..|b| - 1], b[|b| - 1];
      assert (a + b)[..|a + b| - 1] == a + init;
      ClassRowsAppend(a, init, classId);
    }
  }

  /** ORDER BY day_of_week, start_time */
  predicate DayThenStart(a: Entry, b: Entry) {
    a.day_of_week < b.day_of_week || (a.day_of_week == b.day_of_week && StrLeq(a.start_time, b.start_time))
  }

  lemma DayThenStartIsTotalPreorder()
    ensures TotalPreorder(DayThenStart)
  {
    forall a, b ensures DayThenStart(a, b) || DayThenStart(b, a) {
      StrLeqTotal(a.start_time, b.start_time);
    }
    forall a, b, c | DayThenStart(a, b) && DayThenStart(b, c) ensures DayThenStart(a, c) {
      if a.day_of_week == b.day_of_week == c.day_of_week {
        StrLeqTransitive(a.start_time, b.start_time, c.start_time);
      }
    }
  }

  function Ordered(rows: seq<Entry>): (r: seq<Entry>) {
    SortBy(rows, DayThenStart)
  }

  lemma OrderedSorted(rows: seq<Entry>)
    ensures SortedBy(Ordered(rows), DayThenStart)
    ensures multiset(Ordered(rows)) == multiset(rows)
  {
    DayThenStartIsTotalPreorder();
    SortBySorted(rows, DayThenStart);
    SortByPermutes(rows, DayThenStart);
  }

  /** The slots among rows held on day d + 1 (bucket 0 is monday, bucket 6 sunday), in row order. */
  function OnDay(rows: seq<Entry>, d: nat): (r: seq<Entry>)
    ensures forall e :: e in r <==> e in rows && e.day_of_week == d + 1
  {
    if rows == [] then []
    else
      var init, e := rows[..|rows| - 1], rows[|rows| - 1];
      assert rows == init + [e];
      OnDay(init, d) + (if e.day_of_week == d + 1 then [e] else [])
  }

  lemma OnDayStep(rows: seq<Entry>, e: Entry, d: nat)
    ensures OnDay(rows + [e], d) == OnDay(rows, d) + (if e.day_of_week == d + 1 then [e] else [])
  {
    assert (rows + [e])[..|rows|] == rows;
  }

  /** Rows in (day, start) order leave the slots of each day in start order. */
  lemma {:induction false} OnDayInStartOrder(rows: seq<Entry>, d: nat)
    requires SortedBy(rows, DayThenStart)
    ensures forall i, j :: 0 <= i < j < |OnDay(rows, d)| ==>
      StrLeq(OnDay(rows, d)[i].start_time, OnDay(rows, d)[j].start_time)
  {
    if rows != [] {
      var init, e := rows[..|rows| - 1], rows[|rows| - 1];
      OnDayInStartOrder(init, d);
      var b := OnDay(init, d);
      if e.day_of_week == d + 1 {
        forall i | 0 <= i < |b| ensures StrLeq(b[i].start_time, e.start_time) {
          assert b[i] in init;
          var k :| 0 <= k < |init| && init[k] == b[i];
          assert DayThenStart(rows[k], rows[|rows| - 1]);
        }
      }
    }
  }

  /** monday .. sunday */
  const DAY_NAMES: seq<string> := ["monday", "tuesday", "wednesday", "thursday", "friday", "saturday", "sunday"]

  function Buckets(rows: seq<Entry>): (days: seq<seq<Entry>>)
    ensures |days| == 7
  {
    [OnDay(rows, 0), OnDay(rows, 1), OnDay(rows, 2), OnDay(rows, 3), OnDay(rows, 4), OnDay(rows, 5), OnDay(rows, 6)]
  }

  lemma BucketAt(rows: seq<Entry>, d: nat)
    requires d < 7
    ensures Buckets(rows)[d] == OnDay(rows, d)
  {
  }

  /** Bucketing rows whose days are 1..7 files every row once: the buckets' sizes add up to the row count. */
  lemma {:induction false} BucketsPartition(rows: seq<Entry>)
    requires forall i :: 0 <= i < |rows| ==> 1 <= rows[i].day_of_week <= 7
    ensures |OnDay(rows, 0)| + |OnDay(rows, 1)| + |OnDay(rows, 2)| + |OnDay(rows, 3)|
          + |OnDay(rows, 4)| + |OnDay(rows, 5)| + |OnDay(rows, 6)| == |rows|
  {
    if rows != [] {
      var init, e := rows[..|rows| - 1], rows[|rows| - 1];
      BucketsPartition(init);
      assert 1 <= e.day_of_week <= 7;
    }
  }

  /**
   * The forEach that pushes every row into the array of its day: one array
   * per day, each holding that day's rows in arrival order.
   */
  method BucketByDay(rows: seq<Entry>) returns (days: seq<seq<Entry>>)
    requires forall i :: 0 <= i < |rows| ==> 1 <= rows[i].day_of_week <= 7
    ensures days == Buckets(rows)
  {
    days := [[], [], [], [], [], [], []];
    for i := 0 to |rows|
      invariant |days| == 7
      invariant forall d :: 0 <= d < 7 ==> days[d] == OnDay(rows[..i], d)
    {
      var e := rows[i];
      ghost var before := days;
      var d := e.day_of_week - 1;
      days := days[d := days[d] + [e]];
      assert rows[..i + 1] == rows[..i] + [e];
      BucketStep(rows[..i], e, rows[..i + 1], before, days);
    }
    assert rows[..|rows|] == rows;
    forall d | 0 <= d < 7 ensures days[d] == Buckets(rows)[d] {
      BucketAt(rows, d);
    }
  }

  /** Pushing one more row onto the array of its day keeps every array in step with the rows read. */
  lemma BucketStep(read: seq<Entry>, e: Entry, next: seq<Entry>, days: seq<seq<Entry>>, days': seq<seq<Entry>>)
    requires next == read + [e] && 1 <= e.day_of_week <= 7
    requires |days| == 7 && forall d :: 0 <= d < 7 ==> days[d] == OnDay(read, d)
    requires days' == days[e.day_of_week - 1 := days[e.day_of_week - 1] + [e]]
    ensures |days'| == 7 && forall d :: 0 <= d < 7 ==> days'[d] == OnDay(next, d)
  {
    forall d | 0 <= d < 7 ensures days'[d] == OnDay(next, d) {
      OnDayStep(read, e, d);
    }
  }

  datatype WeekView = WeekView(class_id: string, days: seq<seq<Entry>>)

  /** The view a miss computes for a class: its slots, ordered, bucketed by day. */
  function WeekOf(entries: seq<Entry>, classId: string): (v: WeekView)
    ensures v.class_id == classId && |v.days| == 7
  {
    WeekView(classId, Buckets(Ordered(ClassRows(entries, classId))))
  }

  /** The bucket of day d + 1 holds exactly the class's slots on that day ... */
  lemma WeekOfMembers(entries: seq<Entry>, classId: string, d: nat, e: Entry)
    requires d < 7
    ensures e in WeekOf(entries, classId).days[d] <==> e in entries && e.class_id == classId && e.day_of_week == d + 1
  {
  }

  /** ... in start order. */
  lemma WeekOfInStartOrder(entries: seq<Entry>, classId: string, d: nat)
    requires d < 7
    ensures var b := WeekOf(entries, classId).days[d];
      forall i, j :: 0 <= i < j < |b| ==> StrLeq(b[i].start_time, b[j].start_time)
  {
    var rows := Ordered(ClassRows(entries, classId));
    BucketAt(rows, d);
    OrderedSorted(ClassRows(entries, classId));
    OnDayInStartOrder(rows, d);
  }

  /** A class's view depends only on that class's slots. */
  lemma WeekOfOtherClass(entries: seq<Entry>, e: Entry, classId: string)
    requires e.class_id != classId
    ensures WeekOf(entries + [e], classId) == WeekOf(entries, classId)
  {
    ClassRowsAppend(entries, [e], classId);
    assert [e][..0] == [];
    assert ClassRows([e], classId) == [];
    assert ClassRows(entries + [e], classId) == ClassRows(entries, classId);
  }

  ghost predicate CacheCoherent(entries: seq<Entry>, cache: map<string, WeekView>) {
    forall c :: c in cache ==> cache[c] == WeekOf(entries, c)
  }

  // ---- the day lookup as written ----

  /** `dayNames[day]` with the array starting at sunday: day 7 is past its end. */
  function DayNameAsWritten(day: int): (r: Option<string>)
    ensures r.Some? <==> 0 <= day < 7
  {
    var names := ["sunday", "monday", "tuesday", "wednesday", "thursday", "friday", "saturday"];
    if 0 <= day < 7 then Some(names[day]) else None
  }

  /** The bucket name a day gets with DAY_NAMES: 1..7 is monday..sunday. */
  function DayName(day: int): (r: string)
    requires 1 <= day <= 7
    ensures r == DAY_NAMES[day - 1]
  {
    DAY_NAMES[day - 1]
  }

  /** The two lookups agree on days 1..6 and part on day 7, the one the schema admits in addition. */
  lemma DayNamesAgreeExceptSunday(day: int)
    requires 1 <= day <= 7
    ensures day < 7 ==> DayNameAsWritten(day) == Some(DayName(day))
    ensures day == 7 ==> DayNameAsWritten(day).None? && DayName(day) == "sunday"
  {
  }

  /**
   * The read of a class as written: on a miss, a row whose day has no name
   * makes the push throw, so the handler answers 500 and caches nothing.
   */
  function ReadClassAsWritten(entries: seq<Entry>, cache: map<string, WeekView>, classId: string)
    : (r: (Result<WeekView>, map<string, WeekView>))
  {
    if classId in cache then (Success(OK, cache[classId]), cache)
    else
      var rows := Ordered(ClassRows(entries, classId));
      if exists i :: 0 <= i < |rows| && DayNameAsWritten(rows[i].day_of_week).None? then
        (Failure(SERVER_ERROR), cache)
      else
        var v := WeekView(classId, Buckets(rows));
        (Success(OK, v), cache[classId := v])
  }

  /** A sunday slot that passed the schema makes every uncached read of its class fail. */
  lemma SundaySlotBreaksRead(entries: seq<Entry>, cache: map<string, WeekView>, e: Entry)
    requires e in entries && e.day_of_week == 7
    requires e.class_id !in cache
    ensures ReadClassAsWritten(entries, cache, e.class_id).0 == Failure(SERVER_ERROR)
  {
    var rows := Ordered(ClassRows(entries, e.class_id));
    assert e in rows;
    var i :| 0 <= i < |rows| && rows[i] == e;
    assert DayNameAsWritten(rows[i].day_of_week).None?;
  }

  // ---- the update's invalidation as written ----

  /** PUT /entries/:id as written, on the table and cache: it drops only the new class's key. */
  function UpdateAsWritten(entries: seq<Entry>, cache: map<string, WeekView>, k: nat, e: Entry)
    : (r: (seq<Entry>, map<string, WeekView>))
    requires k < |entries|
    ensures r.0 == entries[k := e] && e.class_id !in r.1
    ensures forall c :: c in cache && c != e.class_id ==> c in r.1 && r.1[c] == cache[c]
  {
    (entries[k := e], cache - {e.class_id})
  }

  /**
   * Moving a slot to another class leaves the old class's cached view, if
   * there was one, listing a slot the class no longer has.
   */
  lemma UpdateLeavesStaleView(entries: seq<Entry>, cache: map<string, WeekView>, k: nat, e: Entry)
    requires k < |entries| && IdsUnique(entries) && e.id == entries[k].id
    requires CacheCoherent(entries, cache)
    requires 1 <= entries[k].day_of_week <= 7
    requires entries[k].class_id in cache && e.class_id != entries[k].class_id
    ensures var after, c, d := UpdateAsWritten(entries, cache, k, e), entries[k].class_id, entries[k].day_of_week - 1;
      && c in after.1
      && entries[k] in after.1[c].days[d]
      && entries[k] !in WeekOf(after.0, c).days[d]
  {
    var x, c, d := entries[k], entries[k].class_id, entries[k].day_of_week - 1;
    var after := UpdateAsWritten(entries, cache, k, e);
    var v := cache[c];
    assert x in v.days[d] by {
      WeekOfMembers(entries, c, d, x);
    }
    assert x !in WeekOf(after.0, c).days[d] by {
      ReplacedIsGone(entries, k, e);
      WeekOfMembers(after.0, c, d, x);
    }
  }

  /** With unique ids, the slot an update replaces is nowhere in the new table. */
  lemma ReplacedIsGone(entries: seq<Entry>, k: nat, e: Entry)
    requires k < |entries| && IdsUnique(entries) && e.id == entries[k].id && e != entries[k]
    ensures entries[k] !in entries[k := e]
  {
    var r := entries[k := e];
    forall j | 0 <= j < |r| ensures r[j] != entries[k] {
      if j < k {
        assert entries[j].id != entries[k].id;
      } else if j > k {
        assert entries[k].id != entries[j].id;
      }
    }
  }

  // ---- GET /entries ----

  /**
   * The optional query filters: class and teacher apply when given
   * non-empty; `day` is the parsed value of a non-empty day parameter, so
   * a day of "0" filters to no slot at all.
   */
  predicate ListMatches(e: Entry, classId: Option<string>, teacherId: Option<string>, day: Option<int>) {
    && (Truthy(classId) ==> e.class_id == classId.value)
    && (Truthy(teacherId) ==> e.teacher_id == Some(teacherId.value))
    && (day.Some? ==> e.day_of_week == day.value)
  }

  /**
   * A slot is listed when its class exists (the inner join with usr.classes)
   * and it passes every filter that is given; the left join with the users
   * drops nothing.
   */
  predicate Listed(e: Entry, classes: seq<ClassRow>, classId: Option<string>, teacherId: Option<string>, day: Option<int>) {
    FindClass(classes, e.class_id).Some? && ListMatches(e, classId, teacherId, day)
  }

  /** The listed slots, in (day, start) order. */
  function ListEntries(entries: seq<Entry>, classes: seq<ClassRow>, classId: Option<string>, teacherId: Option<string>,
                       day: Option<int>): (r: seq<Entry>)
    ensures SortedBy(r, DayThenStart)
    ensures forall e :: e in r <==>
      e in entries && (exists c :: c in classes && c.id == e.class_id) && ListMatches(e, classId, teacherId, day)
    ensures multiset(r) == multiset(Filter(entries, (e: Entry) => Listed(e, classes, classId, teacherId, day)))
  {
    OrderedSorted(Filter(entries, (e: Entry) => Listed(e, classes, classId, teacherId, day)));
    Ordered(Filter(entries, (e: Entry) => Listed(e, classes, classId, teacherId, day)))
  }

  // ---- the service state ----

  /** A slot without a teacher passes; one naming a teacher needs a user with that id and the teacher role. */
  predicate TeacherAccepted(users: seq<User>, teacherId: Option<string>) {
    teacherId.Some? ==> exists u :: u in users && u.id == teacherId.value && u.role == "teacher"
  }

  class Planner {
    var entries: seq<Entry>
    var cache: map<string, WeekView>
    var nextId: nat

    ghost predicate Valid()
      reads this
    {
      && AllShaped(entries)
      && (forall i :: 0 <= i < |entries| ==> entries[i].id < nextId)
      && IdsUnique(entries)
      && NoOverlaps(entries)
      && CacheCoherent(entries, cache)
    }

    constructor ()
      ensures Valid()
      ensures entries == [] && cache == map[]
    {
      entries, cache, nextId := [], map[], 0;
    }

    /**
     * POST /entries: 400 on a malformed slot, 404 for an unknown class or
     * a teacher id that is not a teacher's, 409 when it collides with a
     * slot of its class and day; otherwise the slot is stored and the
     * class's cached view dropped.
     */
    method Create(x: SlotInput, classes: seq<ClassRow>, users: seq<User>) returns (result: Result<Entry>)
      requires Valid()
      modifies this
      ensures Valid()
      ensures result.Failure? ==> entries == old(entries) && cache == old(cache)
      ensures result.Failure? ==> result.status in {BAD_REQUEST, NOT_FOUND, CONFLICT}
      ensures result.Failure? && result.status == BAD_REQUEST <==> !ValidSlot(x)
      ensures result.Failure? && result.status == NOT_FOUND <==>
        ValidSlot(x) && (FindClass(classes, x.class_id).None? || !TeacherAccepted(users, x.teacher_id))
      ensures result.Failure? && result.status == CONFLICT <==>
        ValidSlot(x) && FindClass(classes, x.class_id).Some? && TeacherAccepted(users, x.teacher_id) &&
        HasConflict(old(entries), x, None)
      ensures result.Success? ==>
        && ValidSlot(x) && !HasConflict(old(entries), x, None)
        && result.status == CREATED
        && result.value == EntryOf(old(nextId), x)
        && entries == old(entries) + [result.value]
        && cache == old(cache) - {x.class_id}
    {
      if !ValidSlot(x) {
        return Failure(BAD_REQUEST);
      }
      if FindClass(classes, x.class_id).None? {
        return Failure(NOT_FOUND);
      }
      if !TeacherAccepted(users, x.teacher_id) {
        return Failure(NOT_FOUND);
      }
      if HasConflict(entries, x, None) {
        return Failure(CONFLICT);
      }
      var e := EntryOf(nextId, x);
      ghost var before := entries;
      AppendKeepsNoOverlaps(entries, e);
      entries := entries + [e];
      nextId := nextId + 1;
      cache := cache - {x.class_id};
      forall c | c in cache ensures cache[c] == WeekOf(entries, c) {
        WeekOfOtherClass(before, e, c);
      }
      result := Success(CREATED, e);
    }

    /**
     * PUT /entries/:id: 400 on a malformed slot, 404 for an unknown id,
     * 409 when it collides with another slot of its class and day;
     * otherwise the slot is rewritten in place and the cached views of
     * both its former and its new class are dropped.
     */
    method Update(id: nat, x: SlotInput) returns (result: Result<Entry>)
      requires Valid()
      modifies this
      ensures Valid()
      ensures nextId == old(nextId)
      ensures result.Failure? ==> entries == old(entries) && cache == old(cache)
      ensures result.Failure? && result.status == BAD_REQUEST <==> !ValidSlot(x)
      ensures result.Failure? && result.status == NOT_FOUND <==>
        ValidSlot(x) && forall i :: 0 <= i < |old(entries)| ==> old(entries)[i].id != id
      ensures result.Failure? ==> result.status in {BAD_REQUEST, NOT_FOUND, CONFLICT}
      ensures result.Failure? && result.status == CONFLICT <==>
        ValidSlot(x) && (exists i :: 0 <= i < |old(entries)| && old(entries)[i].id == id) &&
        HasConflict(old(entries), x, Some(id))
      ensures result.Success? ==>
        && ValidSlot(x) && !HasConflict(old(entries), x, Some(id))
        && result.status == OK
        && result.value == EntryOf(id, x)
        && exists k :: 0 <= k < |old(entries)| && old(entries)[k].id == id &&
             entries == old(entries)[k := result.value] &&
             cache == old(cache) - {old(entries)[k].class_id, x.class_id}
    {
      if !ValidSlot(x) {
        return Failure(BAD_REQUEST);
      }
      var k := 0;
      while k < |entries| && entries[k].id != id
        invariant 0 <= k <= |entries|
        invariant forall i :: 0 <= i < k ==> entries[i].id != id
      {
        k := k + 1;
      }
      if k == |entries| {
        return Failure(NOT_FOUND);
      }
      if HasConflict(entries, x, Some(id)) {
        return Failure(CONFLICT);
      }
      var e := EntryOf(id, x);
      ghost var before := entries;
      var oldClass := entries[k].class_id;
      forall i | 0 <= i < |entries| && i != k && SameClassAndDay(entries[i], e.class_id, e.day_of_week)
        ensures !Conflicts(entries[i], e.start_time, e.end_time)
      {
        assert entries[i].id != id;
      }
      ReplaceKeepsNoOverlaps(entries, k, e);
      entries := entries[k := e];
      cache := cache - {oldClass, x.class_id};
      forall c | c in cache ensures cache[c] == WeekOf(entries, c) {
        WeekOfReplaced(before, k, e, c);
      }
      result := Success(OK, e);
    }

    /** DELETE /entries/:id: 404 for an unknown id; otherwise that slot goes and its class's view is dropped. */
    method Delete(id: nat) returns (result: Result<Entry>)
      requires Valid()
      modifies this
      ensures Valid()
      ensures nextId == old(nextId)
      ensures result.Failure? <==> forall i :: 0 <= i < |old(entries)| ==> old(entries)[i].id != id
      ensures result.Failure? ==> result.status == NOT_FOUND && entries == old(entries) && cache == old(cache)
      ensures result.Success? ==>
        && result.status == OK
        && exists k :: 0 <= k < |old(entries)| && old(entries)[k] == result.value && result.value.id == id &&
             entries == old(entries)[..k] + old(entries)[k + 1..] &&
             cache == old(cache) - {result.value.class_id}
    {
      var k := 0;
      while k < |entries| && entries[k].id != id
        invariant 0 <= k <= |entries|
        invariant forall i :: 0 <= i < k ==> entries[i].id != id
      {
        k := k + 1;
      }
      if k == |entries| {
        return Failure(NOT_FOUND);
      }
      var gone := entries[k];
      ghost var before := entries;
      RemoveKeepsInvariants(entries, k);
      entries := entries[..k] + entries[k + 1..];
      cache := cache - {gone.class_id};
      forall c | c in cache ensures cache[c] == WeekOf(entries, c) {
        WeekOfRemoved(before, k, c);
      }
      result := Success(OK, gone);
    }

    /**
     * GET /entries/class/:classId: a cached view is returned as stored;
     * otherwise the view is computed, cached and returned. Either way it is
     * the view of the class's current slots.
     */
    method ReadClass(classId: string) returns (result: Result<WeekView>)
      requires Valid()
      modifies this
      ensures Valid()
      ensures entries == old(entries) && nextId == old(nextId)
      ensures result.Success? && result.status == OK
      ensures result.value == WeekOf(entries, classId)
      ensures cache == old(cache)[classId := result.value]
      ensures classId in old(cache) ==> result.value == old(cache)[classId] && cache == old(cache)
    {
      if classId in cache {
        return Success(OK, cache[classId]);
      }
      var rows := Ordered(ClassRows(entries, classId));
      forall i | 0 <= i < |rows| ensures 1 <= rows[i].day_of_week <= 7 {
        assert rows[i] in entries;
      }
      var days := BucketByDay(rows);
      var view := WeekView(classId, days);
      cache := cache[classId := view];
      result := Success(OK, view);
    }
  }

  lemma WeekOfReplaced(entries: seq<Entry>, k: nat, e: Entry, classId: string)
    requires k < |entries| && entries[k].class_id != classId && e.class_id != classId
    ensures WeekOf(entries[k := e], classId) == WeekOf(entries, classId)
  {
    var left, right := entries[..k], entries[k + 1..];
    assert entries == left + [entries[k]] + right;
    assert entries[k := e] == left + [e] + right;
    ClassRowsAppend(left + [entries[k]], right, classId);
    ClassRowsAppend(left, [entries[k]], classId);
    ClassRowsAppend(left + [e], right, classId);
    ClassRowsAppend(left, [e], classId);
    assert [e][..0] == [] && [entries[k]][..0] == [];
  }

  lemma WeekOfRemoved(entries: seq<Entry>, k: nat, classId: string)
    requires k < |entries| && entries[k].class_id != classId
    ensures WeekOf(entries[..k] + entries[k + 1..], classId) == WeekOf(entries, classId)
  {
    ClassRowsRemoved(entries, k, classId);
  }

  lemma ClassRowsRemoved(entries: seq<Entry>, k: nat, classId: string)
    requires k < |entries| && entries[k].class_id != classId
    ensures ClassRows(entries[..k] + entries[k + 1..], classId) == ClassRows(entries, classId)
  {
    var left, x, right := entries[..k], entries[k], entries[k + 1..];
    assert entries == (left + [x]) + right;
    assert ClassRows([x], classId) == [] by {
      assert [x][..0] == [];
    }
    calc {
      ClassRows(entries, classId);
      { ClassRowsAppend(left + [x], right, classId); }
      ClassRows(left + [x], classId) + ClassRows(right, classId);
      { ClassRowsAppend(left, [x], classId); }
      ClassRows(left, classId) + ClassRows(right, classId);
      { ClassRowsAppend(left, right, classId); }
      ClassRows(left + right, classId);
    }
  }

  lemma RemoveKeepsInvariants(entries: seq<Entry>, k: nat)
    requires k < |entries| && AllShaped(entries) && IdsUnique(entries) && NoOverlaps(entries)
    ensures var r := entries[..k] + entries[k + 1..];
      AllShaped(r) && IdsUnique(r) && NoOverlaps(r) && forall e :: e in r ==> e in entries
  {
    var r := entries[..k] + entries[k + 1..];
    assert forall i :: 0 <= i < |r| ==> r[i] == entries[if i < k then i else i + 1];
  }
}
