/**
 * The dashboard's projections of the two collections: today's classes and
 * today's events, the five-entry previews with their overflow button, the
 * stat cards and the short time label of the events preview.
 *
 * The store filters and orders these lists itself; the model gives that
 * filter and that order as functions over the rows. Today's weekday name and
 * today's date string are inputs.
 */
module Dashboard {
  import opened Optional
  import opened Seqs
  import opened Sorting
  import Text
  import opened ClassSchedule
  import opened Events

  // ---------------------------------------------------------------------
  // Today's classes

  /** Class `a` may be listed before class `b`: ascending by start time. */
  predicate ClassStartLe(a: ClassData, b: ClassData) {
    Text.NotAfter(a.startTime, b.startTime)
  }

  lemma ClassStartLeTotalPreorder(s: seq<ClassData>)
    ensures TotalPreorderOn(s, ClassStartLe)
  {
    forall a, b, c | a in s && b in s && c in s
      ensures ClassStartLe(a, b) || ClassStartLe(b, a)
      ensures ClassStartLe(a, b) && ClassStartLe(b, c) ==> ClassStartLe(a, c)
    {
      Text.NotAfterTotalPreorder(a.startTime, b.startTime, c.startTime);
    }
  }

  /**
   * The `today-classes` query: the rows whose day is today's weekday name,
   * ascending by start time; missing rows read as an empty list.
   */
  function TodayClasses(rows: Option<seq<ClassData>>, weekday: string): (today: seq<ClassData>)
    ensures rows.None? ==> today == []
    ensures rows.Some? ==> multiset(today) == multiset(Filter(rows.value, OnDay(weekday)))
    ensures forall c :: c in today <==> rows.Some? && c in rows.value && c.day == weekday
    ensures forall i, j :: 0 <= i < j < |today| ==> Text.NotAfter(today[i].startTime, today[j].startTime)
  {
    var mine := Filter(rows.GetOr([]), OnDay(weekday));
    FilterMembers(rows.GetOr([]), OnDay(weekday));
    ClassStartLeTotalPreorder(mine);
    InsertionSortSorted(mine, ClassStartLe);
    InsertionSortMembers(mine, ClassStartLe);
    InsertionSort(mine, ClassStartLe)
  }

  /** A class of any other day never shows among today's classes. */
  lemma OtherDaysExcluded(rows: seq<ClassData>, weekday: string, c: ClassData)
    requires c.day != weekday
    ensures c !in TodayClasses(Some(rows), weekday)
  {
  }

  // ---------------------------------------------------------------------
  // Today's events

  /**
   * The store's ascending order on optional start times. Where `null` falls
   * is the store's choice, given as `untimedFirst`.
   */
  predicate StartOrdered(a: Option<string>, b: Option<string>, untimedFirst: bool) {
    match (a, b)
    case (None, None) => true
    case (None, Some(_)) => untimedFirst
    case (Some(_), None) => !untimedFirst
    case (Some(x), Some(y)) => Text.NotAfter(x, y)
  }

  function EventStartLe(untimedFirst: bool): (EventData, EventData) -> bool {
    (a: EventData, b: EventData) => StartOrdered(a.startTime, b.startTime, untimedFirst)
  }

  lemma EventStartLeTotalPreorder(s: seq<EventData>, untimedFirst: bool)
    ensures TotalPreorderOn(s, EventStartLe(untimedFirst))
  {
    forall a, b, c | a in s && b in s && c in s
      ensures EventStartLe(untimedFirst)(a, b) || EventStartLe(untimedFirst)(b, a)
      ensures EventStartLe(untimedFirst)(a, b) && EventStartLe(untimedFirst)(b, c) ==> EventStartLe(untimedFirst)(a, c)
    {
      if a.startTime.Some? && b.startTime.Some? && c.startTime.Some? {
        Text.NotAfterTotalPreorder(a.startTime.value, b.startTime.value, c.startTime.value);
      } else if a.startTime.Some? && b.startTime.Some? {
        Text.NotAfterTotalPreorder(a.startTime.value, b.startTime.value, a.startTime.value);
      }
    }
  }

  function OnDate(date: string): EventData -> bool {
    (e: EventData) => e.eventDate == date
  }

  /**
   * The `today-events` query: the rows dated today, ascending by start time,
   * the untimed ones all at the end the store puts them; missing rows read as
   * an empty list.
   */
  function TodayEvents(rows: Option<seq<EventData>>, today: string, untimedFirst: bool): (todays: seq<EventData>)
    ensures rows.None? ==> todays == []
    ensures rows.Some? ==> multiset(todays) == multiset(Filter(rows.value, OnDate(today)))
    ensures forall e :: e in todays <==> rows.Some? && e in rows.value && e.eventDate == today
    ensures forall i, j :: 0 <= i < j < |todays| ==> StartOrdered(todays[i].startTime, todays[j].startTime, untimedFirst)
  {
    var mine := Filter(rows.GetOr([]), OnDate(today));
    FilterMembers(rows.GetOr([]), OnDate(today));
    EventStartLeTotalPreorder(mine, untimedFirst);
    InsertionSortSorted(mine, EventStartLe(untimedFirst));
    InsertionSortMembers(mine, EventStartLe(untimedFirst));
    InsertionSort(mine, EventStartLe(untimedFirst))
  }

  /**
   * Whichever end the store puts untimed events at, the timed ones are in
   * ascending start order and no untimed event sits between two timed ones.
   */
  lemma TodayEventsTimedInOrder(rows: Option<seq<EventData>>, today: string, untimedFirst: bool)
    ensures var todays := TodayEvents(rows, today, untimedFirst);
      forall i, j, k :: 0 <= i < j < k < |todays| && todays[i].startTime.Some? && todays[k].startTime.Some? ==>
        todays[j].startTime.Some? && Text.NotAfter(todays[i].startTime.value, todays[k].startTime.value)
  {
  }

  // ---------------------------------------------------------------------
  // Previews and stat cards

  /** How many entries a "today" card lists before offering "View All". */
  const PreviewSize: nat := 5

  /**
   * What a "today" card renders from its list: the first entries, whether
   * the "View All" button shows, whether the empty state shows, and the
   * uncapped total the stat card displays.
   */
  datatype Preview<T> = Preview(shown: seq<T>, viewAll: bool, empty: bool, total: nat)

  function PreviewOf<T>(items: seq<T>): (p: Preview<T>)
    ensures |p.shown| == if |items| < PreviewSize then |items| else PreviewSize
    ensures p.shown <= items
    ensures p.viewAll <==> |p.shown| < |items|
    ensures p.viewAll <==> |items| > PreviewSize
    ensures p.empty <==> |items| == 0
    ensures p.empty <==> p.shown == []
    ensures p.total == |items|
  {
    var shown := if |items| < PreviewSize then items else items[..PreviewSize];
    Preview(shown, |items| > PreviewSize, |items| == 0, |items|)
  }

  /** `count || 0`: a missing (or zero) count from the store displays as 0. */
  function CountOrZero(count: Option<nat>): (n: nat)
    ensures count.None? ==> n == 0
    ensures count.Some? ==> n == count.value
  {
    count.GetOr(0)
  }

  /** The four stat cards, left to right. */
  datatype Stats = Stats(totalClasses: nat, totalEvents: nat, todayClasses: nat, todayEvents: nat)

  /**
   * The stat cards over the store's answers: the two counts with their
   * default, and the full lengths of today's lists.
   */
  function StatCards(classesCount: Option<nat>, eventsCount: Option<nat>,
                     classRows: Option<seq<ClassData>>, eventRows: Option<seq<EventData>>,
                     weekday: string, today: string, untimedFirst: bool): (stats: Stats)
    ensures stats.totalClasses == CountOrZero(classesCount)
    ensures stats.totalEvents == CountOrZero(eventsCount)
    ensures stats.todayClasses == |TodayClasses(classRows, weekday)|
    ensures stats.todayEvents == |TodayEvents(eventRows, today, untimedFirst)|
    ensures classRows.Some? ==> stats.todayClasses == |Filter(classRows.value, OnDay(weekday))|
    ensures eventRows.Some? ==> stats.todayEvents == |Filter(eventRows.value, OnDate(today))|
    ensures classRows.None? ==> stats.todayClasses == 0
    ensures eventRows.None? ==> stats.todayEvents == 0
    ensures stats.todayClasses >= |PreviewOf(TodayClasses(classRows, weekday)).shown|
    ensures stats.todayEvents >= |PreviewOf(TodayEvents(eventRows, today, untimedFirst)).shown|
  {
    var classes := TodayClasses(classRows, weekday);
    var events := TodayEvents(eventRows, today, untimedFirst);
    assert |multiset(classes)| == |classes|;
    assert |multiset(events)| == |events|;
    Stats(CountOrZero(classesCount), CountOrZero(eventsCount),
          PreviewOf(classes).total, PreviewOf(events).total)
  }

  // ---------------------------------------------------------------------
  // Time label

  const AllDay: string := "All day"

  /** The events preview's time: "start - end" when both are set, otherwise "All day". */
  function DashboardTimeLabel(start: Option<string>, end: Option<string>): (text: string)
    ensures Present(start) && Present(end) ==> text == TimeSlotLabel(start, end)
    ensures !(Present(start) && Present(end)) ==> text == AllDay
  {
    if Present(start) && Present(end) then start.value + " - " + end.value else AllDay
  }

  /**
   * With exactly one time set, the dashboard reads "All day" where the events
   * table shows that time.
   */
  lemma OneTimeLabelsDisagree(start: Option<string>, end: Option<string>)
    requires Present(start) != Present(end)
    requires Present(start) ==> Text.IsTime(start.value)
    requires Present(end) ==> Text.IsTime(end.value)
    ensures DashboardTimeLabel(start, end) == AllDay
    ensures TimeSlotLabel(start, end) != AllDay
  {
    if Present(start) {
      assert |start.value| != |AllDay|;
    } else {
      assert |end.value| != |AllDay|;
    }
  }
}
