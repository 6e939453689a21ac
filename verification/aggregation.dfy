/**
  `aggregateReservations`: group reservations by a date-derived key chosen by
  the view, then reduce every bucket to its reservation count and the number of
  four-seat tables it needs.
 */
module Aggregation {
  import opened Wrappers
  import opened Buckets
  import opened Calendar

  /**
    A fetched reservation. The date conversions are done beforehand: `dateKey`
    is the UTC calendar date `YYYY-MM-DD` (the part of `toISOString()` before
    `T`), `dayIndex` and `monthIndex` are the local weekday and month
    (`getDay()`, `getMonth()`).
   */
  datatype Reservation = Reservation(
    dateKey: string,
    dayIndex: DayIndex,
    monthIndex: MonthIndex,
    requiredCapacity: nat)

  /** The reduction of one bucket. */
  datatype Summary = Summary(key: string, totalReservations: nat, totalTables: nat)

  /** Seats at one table. */
  const SeatsPerTable: nat := 4

  /** The message of the error thrown for an unknown view. */
  const InvalidViewMessage: string := "Invalid view type"

  /** The views the switch recognises. */
  predicate IsView(view: string)
  {
    view == "daily" || view == "weekly" || view == "monthly"
  }

  /** `Math.ceil(capacity / 4)`: the fewest four-seat tables that seat `capacity` guests. */
  function TablesFor(capacity: nat): (tables: nat)
    ensures capacity <= SeatsPerTable * tables
    ensures SeatsPerTable * tables < capacity + SeatsPerTable
  {
    (capacity + SeatsPerTable - 1) / SeatsPerTable
  }

  /** The guests of all reservations in `rs`. */
  function Seats(rs: seq<Reservation>): nat
  {
    if rs == [] then 0 else Seats(rs[..|rs| - 1]) + rs[|rs| - 1].requiredCapacity
  }

  /**
    The `reduce` over a bucket: the tables its reservations need, one table
    count per reservation. The total seats everyone and wastes fewer than four
    seats per reservation; a bucket of non-empty reservations needs at least
    one table each.
   */
  function TotalTables(rs: seq<Reservation>): (total: nat)
    ensures Seats(rs) <= SeatsPerTable * total <= Seats(rs) + (SeatsPerTable - 1) * |rs|
    ensures (forall r :: r in rs ==> r.requiredCapacity > 0) ==> total >= |rs|
  {
    if rs == [] then 0
    else
      assert forall r :: r in rs[..|rs| - 1] ==> r in rs;
      TotalTables(rs[..|rs| - 1]) + TablesFor(rs[|rs| - 1].requiredCapacity)
  }

  /** Counting the tables of two runs of reservations one after the other adds up. */
  lemma {:induction false} TotalTablesAppend(a: seq<Reservation>, b: seq<Reservation>)
    ensures TotalTables(a + b) == TotalTables(a) + TotalTables(b)
    decreases |b|
  {
    if b != [] {
      var b' := b[..|b| - 1];
      assert (a + b)[..|a + b| - 1] == a + b';
      TotalTablesAppend(a, b');
    } else {
      assert a + b == a;
    }
  }

  /** The daily key: the reservation's calendar date. */
  function DailyKey(r: Reservation): string
  {
    r.dateKey
  }

  /** The weekly key: the name of the reservation's weekday. */
  function WeeklyKey(r: Reservation): (key: string)
    ensures key in DaysOfWeek
  {
    DayName(r.dayIndex)
  }

  /** The monthly key: the name of the reservation's month. */
  function MonthlyKey(r: Reservation): (key: string)
    ensures key in MonthNames
  {
    MonthName(r.monthIndex)
  }

  /** The key function each view groups by. */
  function KeyFunction(view: string): Reservation -> string
    requires IsView(view)
  {
    if view == "daily" then DailyKey
    else if view == "weekly" then WeeklyKey
    else MonthlyKey
  }

  /** One empty bucket per name, in the names' order (the default object the loop builds). */
  function Preseed(names: seq<string>): (seed: Buckets<string, Reservation>)
    ensures AllEmpty(seed)
  {
    SeedFrom(names, [])
  }

  /**
    The `switch (view)`: group by date from nothing for `daily`, by weekday
    name from all seven weekdays for `weekly`, by month name from all twelve
    months for `monthly`, and fail for anything else.
   */
  function Grouping(rs: seq<Reservation>, view: string): (g: Result<Buckets<string, Reservation>, string>)
    ensures g.Success? <==> IsView(view)
    ensures g.Failure? ==> g.error == InvalidViewMessage
  {
    if view == "daily" then Success(GroupBy(rs, DailyKey, []))
    else if view == "weekly" then Success(GroupBy(rs, WeeklyKey, Preseed(DaysOfWeek)))
    else if view == "monthly" then Success(GroupBy(rs, MonthlyKey, Preseed(MonthNames)))
    else Failure(InvalidViewMessage)
  }

  /** The buckets a recognised view starts from. */
  function SeedFor(view: string): Buckets<string, Reservation>
    requires IsView(view)
  {
    if view == "daily" then [] else if view == "weekly" then Preseed(DaysOfWeek) else Preseed(MonthNames)
  }

  /** The reduction of every bucket, in key order (`Object.keys(groupedData).map(...)`). */
  function Summarize(b: Buckets<string, Reservation>): (s: seq<Summary>)
    ensures SummaryKeys(s) == Keys(b)
  {
    seq(|b|, i requires 0 <= i < |b| => Summary(b[i].0, |b[i].1|, TotalTables(b[i].1)))
  }

  /** The keys of a list of summaries, in order. */
  function SummaryKeys(s: seq<Summary>): seq<string>
  {
    seq(|s|, i requires 0 <= i < |s| => s[i].key)
  }

  /** The reservations counted over all summaries. */
  function ReservationCount(s: seq<Summary>): nat
  {
    if s == [] then 0 else s[0].totalReservations + ReservationCount(s[1..])
  }

  /**
    `aggregateReservations(docs, view)`: the per-bucket summaries of the
    grouping the view selects; an unknown view aborts with "Invalid view type"
    and yields no summaries at all.
   */
  function AggregateReservations(rs: seq<Reservation>, view: string): (r: Result<seq<Summary>, string>)
    ensures r.Success? <==> IsView(view)
    ensures r.Failure? ==> r.error == InvalidViewMessage
  {
    match Grouping(rs, view)
    case Success(g) => Success(Summarize(g))
    case Failure(e) => Failure(e)
  }

  /** No weekday name occurs twice. */
  lemma DaysOfWeekDistinct()
    ensures Distinct(DaysOfWeek)
  {
  }

  /** No month name occurs twice. */
  lemma MonthNamesDistinct()
    ensures Distinct(MonthNames)
  {
  }

  /** Pre-seeding with distinct names gives one empty bucket per name, in order. */
  lemma PreseedShape(names: seq<string>)
    requires Distinct(names)
    ensures Keys(Preseed(names)) == names
    ensures AllEmpty(Preseed(names))
  {
    SeedFromDistinct<string, Reservation>(names, []);
  }

  /** Every recognised view starts from empty buckets under distinct keys. */
  lemma SeedForShape(view: string)
    requires IsView(view)
    ensures Distinct(Keys(SeedFor(view)))
    ensures AllEmpty(SeedFor(view))
  {
    if view == "weekly" {
      DaysOfWeekDistinct();
      PreseedShape(DaysOfWeek);
    } else if view == "monthly" {
      MonthNamesDistinct();
      PreseedShape(MonthNames);
    }
  }

  /** A recognised view groups by its key function from its seed. */
  lemma GroupingOfView(rs: seq<Reservation>, view: string)
    requires IsView(view)
    ensures Grouping(rs, view) == Success(GroupBy(rs, KeyFunction(view), SeedFor(view)))
  {
  }

  /**
    For every recognised view the grouping is a partition of the input: every
    reservation lands in exactly one bucket, the one under its own key, buckets
    keep input order, and no key appears twice.
   */
  lemma GroupingIsPartition(rs: seq<Reservation>, view: string)
    requires IsView(view)
    ensures var g := Grouping(rs, view).value;
      && multiset(Flatten(g)) == multiset(rs)
      && Distinct(Keys(g))
      && forall i :: 0 <= i < |g| ==> g[i].1 == Select(rs, KeyFunction(view), g[i].0)
  {
    var key, seed := KeyFunction(view), SeedFor(view);
    var g := GroupBy(rs, key, seed);
    GroupingOfView(rs, view);
    SeedForShape(view);
    FlattenAllEmpty(seed);
    GroupByDistinct(rs, key, seed);
    forall i | 0 <= i < |g|
      ensures g[i].1 == Select(rs, key, g[i].0)
    {
      GroupByBucketAt(rs, key, seed, i);
    }
  }

  /** The summaries count every reservation of the buckets once. */
  lemma {:induction false} ReservationCountSummarize(b: Buckets<string, Reservation>)
    ensures ReservationCount(Summarize(b)) == |Flatten(b)|
  {
    if b != [] {
      assert Summarize(b)[1..] == Summarize(b[1..]);
      ReservationCountSummarize(b[1..]);
    }
  }

  /**
    For every recognised view, the reservation counts over all summaries add
    up to the number of input reservations.
   */
  lemma RecordsConserved(rs: seq<Reservation>, view: string)
    requires IsView(view)
    ensures ReservationCount(AggregateReservations(rs, view).value) == |rs|
  {
    var g := Grouping(rs, view).value;
    GroupingIsPartition(rs, view);
    ReservationCountSummarize(g);
    assert |Flatten(g)| == |multiset(Flatten(g))| == |multiset(rs)|;
  }

  /**
    Each summary of a recognised view reports the reservations whose key is
    the summary's key: how many there are and the tables they need.
   */
  lemma SummaryTotals(rs: seq<Reservation>, view: string, i: nat)
    requires IsView(view)
    requires i < |AggregateReservations(rs, view).value|
    ensures var s := AggregateReservations(rs, view).value[i];
      var members := Select(rs, KeyFunction(view), s.key);
      s.totalReservations == |members| && s.totalTables == TotalTables(members)
  {
    GroupingIsPartition(rs, view);
  }

  /**
    Grouping from one empty bucket per name, when every key is one of the
    names, leaves exactly the names as keys, in order.
   */
  lemma SeededKeys(rs: seq<Reservation>, key: Reservation -> string, names: seq<string>)
    requires Distinct(names)
    requires forall r :: key(r) in names
    ensures Keys(GroupBy(rs, key, Preseed(names))) == names
  {
    PreseedShape(names);
    GroupByKeys(rs, key, Preseed(names));
    FirstSeenNone(rs, key, names);
  }

  /**
    The weekly view yields exactly seven summaries, Sunday to Saturday in that
    order, whatever the input.
   */
  lemma WeeklyShape(rs: seq<Reservation>)
    ensures AggregateReservations(rs, "weekly").Success?
    ensures SummaryKeys(AggregateReservations(rs, "weekly").value) == DaysOfWeek
  {
    var g := GroupBy(rs, WeeklyKey, Preseed(DaysOfWeek));
    assert AggregateReservations(rs, "weekly") == Success(Summarize(g));
    DaysOfWeekDistinct();
    SeededKeys(rs, WeeklyKey, DaysOfWeek);
  }

  /**
    The monthly view yields exactly twelve summaries, January to December in
    that order, whatever the input.
   */
  lemma MonthlyShape(rs: seq<Reservation>)
    ensures AggregateReservations(rs, "monthly").Success?
    ensures SummaryKeys(AggregateReservations(rs, "monthly").value) == MonthNames
  {
    var g := GroupBy(rs, MonthlyKey, Preseed(MonthNames));
    assert AggregateReservations(rs, "monthly") == Success(Summarize(g));
    MonthNamesDistinct();
    SeededKeys(rs, MonthlyKey, MonthNames);
  }

  /** The daily summaries are keyed by the dates first seen in the input. */
  lemma DailyKeys(rs: seq<Reservation>)
    ensures AggregateReservations(rs, "daily").Success?
    ensures SummaryKeys(AggregateReservations(rs, "daily").value) == FirstSeen(rs, DailyKey, [])
  {
    var g := GroupBy(rs, DailyKey, []);
    assert AggregateReservations(rs, "daily") == Success(Summarize(g));
    GroupByKeys(rs, DailyKey, []);
  }

  /**
    The daily view yields one summary per distinct date of the input, each
    once, in the order the dates first occur.
   */
  lemma DailyShape(rs: seq<Reservation>)
    ensures AggregateReservations(rs, "daily").Success?
    ensures var keys := SummaryKeys(AggregateReservations(rs, "daily").value);
      && Distinct(keys)
      && InFirstOccurrenceOrder(keys, rs, DailyKey)
      && forall k :: k in keys <==> exists r :: r in rs && r.dateKey == k
  {
    var fs := FirstSeen(rs, DailyKey, []);
    DailyKeys(rs);
    FirstSeenFresh(rs, DailyKey, []);
    FirstSeenOrder(rs, DailyKey, []);
    forall k
      ensures k in fs <==> exists r :: r in rs && r.dateKey == k
    {
      FirstSeenMembers(rs, DailyKey, [], k);
      SelectNonEmpty(rs, DailyKey, k);
    }
  }

  /** The daily view never reports an empty day. */
  lemma DailyNoEmptyBucket(rs: seq<Reservation>)
    ensures AggregateReservations(rs, "daily").Success?
    ensures forall s :: s in AggregateReservations(rs, "daily").value ==> s.totalReservations > 0
  {
    var s := AggregateReservations(rs, "daily").value;
    var fs := FirstSeen(rs, DailyKey, []);
    DailyKeys(rs);
    forall i | 0 <= i < |s|
      ensures s[i].totalReservations > 0
    {
      assert s[i].key == fs[i] && fs[i] in fs;
      FirstSeenMembers(rs, DailyKey, [], fs[i]);
      SummaryTotals(rs, "daily", i);
    }
  }

  /**
    In the weekly view, a weekday on which nothing is booked still has its
    summary, in its place, with no reservations and no tables.
   */
  lemma WeeklyQuietDay(rs: seq<Reservation>, d: DayIndex)
    requires forall r :: r in rs ==> r.dayIndex != d
    ensures |AggregateReservations(rs, "weekly").value| == 7
    ensures AggregateReservations(rs, "weekly").value[d] == Summary(DaysOfWeek[d], 0, 0)
  {
    WeeklyShape(rs);
    var s := AggregateReservations(rs, "weekly").value;
    assert s[d].key == DaysOfWeek[d];
    SummaryTotals(rs, "weekly", d);
    SelectNonEmpty(rs, WeeklyKey, DaysOfWeek[d]);
  }

  /**
    In the monthly view, a month in which nothing is booked still has its
    summary, in its place, with no reservations and no tables.
   */
  lemma MonthlyQuietMonth(rs: seq<Reservation>, m: MonthIndex)
    requires forall r :: r in rs ==> r.monthIndex != m
    ensures |AggregateReservations(rs, "monthly").value| == 12
    ensures AggregateReservations(rs, "monthly").value[m] == Summary(MonthNames[m], 0, 0)
  {
    MonthlyShape(rs);
    var s := AggregateReservations(rs, "monthly").value;
    assert s[m].key == MonthNames[m];
    SummaryTotals(rs, "monthly", m);
    SelectNonEmpty(rs, MonthlyKey, MonthNames[m]);
  }

  /** Two reservations on the same date share one daily bucket, in input order. */
  lemma SameDayGrouping(a: Reservation, b: Reservation)
    requires a.dateKey == b.dateKey
    ensures GroupBy([a, b], DailyKey, []) == [(a.dateKey, [a, b])]
  {
    var g1 := Insert([], a.dateKey, a);
    var g2 := Insert(g1, b.dateKey, b);
    assert g1 == [(a.dateKey, [a])];
    assert g1[1..] == [] && [a] + [b] == [a, b];
    assert g2 == [(a.dateKey, [a, b])];
    assert [a, b][1..] == [b] && [b][1..] == [];
    calc {
      GroupBy([a, b], DailyKey, []);
      GroupBy([b], DailyKey, g1);
      GroupBy([], DailyKey, g2);
      g2;
    }
  }

  /** Two reservations on one date for 3 and 9 guests: one bucket, two reservations, 1 + 3 tables. */
  lemma DailyExample()
    ensures var a := Reservation("2024-05-17", 5, 4, 3);
      var b := Reservation("2024-05-17", 5, 4, 9);
      AggregateReservations([a, b], "daily") == Success([Summary("2024-05-17", 2, 4)])
  {
    var a := Reservation("2024-05-17", 5, 4, 3);
    var b := Reservation("2024-05-17", 5, 4, 9);
    var g := [(a.dateKey, [a, b])];
    SameDayGrouping(a, b);
    assert [a, b][..1] == [a];
    assert TotalTables([a, b]) == TablesFor(3) + TablesFor(9) == 4;
    assert Summarize(g) == [Summary("2024-05-17", 2, 4)];
  }

  /** Guests 1, 4 and 5 need 1, 1 and 2 tables: 4 in all. */
  lemma TablesExample()
    ensures TotalTables([Reservation("2024-05-17", 5, 4, 1),
                         Reservation("2024-05-17", 5, 4, 4),
                         Reservation("2024-05-17", 5, 4, 5)]) == 4
  {
    var rs := [Reservation("2024-05-17", 5, 4, 1),
               Reservation("2024-05-17", 5, 4, 4),
               Reservation("2024-05-17", 5, 4, 5)];
    assert rs[..2][..1] == rs[..1];
  }
}
