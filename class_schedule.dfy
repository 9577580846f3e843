/**
 * The schedule engine of the class-schedule page: weekday ranks, the sort
 * comparator, the start/end time check and the grouping of the sorted
 * classes by day.
 */
module ClassSchedule {
  import opened Optional
  import opened Seqs
  import opened Sorting
  import Text

  /**
   * A row of the `classes` collection. `id` is absent until the store has
   * assigned one; the optional text fields hold "" when left blank.
   */
  datatype ClassData = ClassData(
    id: Option<string>,
    day: string,
    startTime: string,
    endTime: string,
    courseCode: string,
    courseTitle: string,
    teacherCode: string,
    room: string,
    section: string)

  /** The weekday names the form offers, in the page's order. */
  const Days: seq<string> :=
    ["Monday", "Tuesday", "Wednesday", "Thursday", "Friday", "Saturday", "Sunday"]

  /** Rank given to any day name the table does not know. */
  const UnknownRank: nat := 8

  /**
   * `dayOrder[day] || 8`: the position of `day` in the week, Monday = 1, and 8
   * for a name the table does not hold.
   */
  function DayRank(day: string): (r: nat)
    ensures 1 <= r <= UnknownRank
    ensures r < UnknownRank ==> Days[r - 1] == day
    ensures r == UnknownRank <==> day !in Days
  {
    if day == "Monday" then 1
    else if day == "Tuesday" then 2
    else if day == "Wednesday" then 3
    else if day == "Thursday" then 4
    else if day == "Friday" then 5
    else if day == "Saturday" then 6
    else if day == "Sunday" then 7
    else UnknownRank
  }

  /** Monday..Sunday rank 1..7, in the order of the form's day list. */
  lemma DayRankFollowsWeek(i: nat)
    requires i < |Days|
    ensures DayRank(Days[i]) == i + 1
    ensures forall d :: DayRank(d) == i + 1 ==> d == Days[i]
  {
  }

  /**
   * The page's sort comparator; only its sign matters. Classes on different
   * days are ordered by day rank, classes on the same day by start time.
   */
  function Compare(a: ClassData, b: ClassData): (r: int)
    ensures a.day != b.day ==> (r < 0 <==> DayRank(a.day) < DayRank(b.day))
    ensures a.day != b.day ==> (r == 0 <==> DayRank(a.day) == DayRank(b.day))
    ensures a.day == b.day ==> (r < 0 <==> Text.Less(a.startTime, b.startTime))
    ensures a.day == b.day ==> (r == 0 <==> a.startTime == b.startTime)
  {
    if a.day != b.day then DayRank(a.day) - DayRank(b.day)
    else Text.Compare(a.startTime, b.startTime)
  }

  /** `a` may precede `b`: the comparator does not put `b` strictly first. */
  predicate ClassLe(a: ClassData, b: ClassData) {
    Compare(a, b) <= 0
  }

  /** `[...classes].sort(comparator)`: a sorted copy, the input left as it is. */
  function SortClasses(classes: seq<ClassData>): (sorted: seq<ClassData>)
    ensures multiset(sorted) == multiset(classes)
    ensures forall i, j :: 0 <= i < j < |sorted| ==> DayRank(sorted[i].day) <= DayRank(sorted[j].day)
  {
    RankAgreesWithComparator();
    InsertionSortKeyOrdered(classes, ClassLe, RankOf);
    InsertionSort(classes, ClassLe)
  }

  function RankOf(c: ClassData): int {
    DayRank(c.day)
  }

  lemma RankAgreesWithComparator()
    ensures forall a, b :: ClassLe(a, b) ==> RankOf(a) <= RankOf(b)
    ensures forall a, b :: !ClassLe(a, b) ==> RankOf(b) <= RankOf(a)
  {
  }

  /** The comparator is antisymmetric in sign. */
  lemma CompareAntisymmetric(a: ClassData, b: ClassData)
    ensures Compare(a, b) < 0 <==> Compare(b, a) > 0
    ensures Compare(a, b) == 0 <==> Compare(b, a) == 0
  {
    Text.LessAsymmetric(a.startTime, b.startTime);
  }

  /** Two different day names that the table does not know compare equal, whatever their times. */
  lemma UnknownDaysCompareEqual(a: ClassData, b: ClassData)
    requires a.day != b.day
    requires DayRank(a.day) == UnknownRank && DayRank(b.day) == UnknownRank
    ensures Compare(a, b) == 0
  {
  }

  /**
   * Because of that, the comparator is not transitive once two unknown day
   * names occur: here `a` ties `b`, `b` ties `c`, yet `c` sorts before `a`.
   */
  lemma UnknownDaysBreakTransitivity(a: ClassData, b: ClassData, c: ClassData)
    requires a.day == c.day && a.day != b.day
    requires DayRank(a.day) == UnknownRank && DayRank(b.day) == UnknownRank
    requires Text.Less(c.startTime, a.startTime)
    ensures Compare(a, b) == 0 && Compare(b, c) == 0 && Compare(a, c) > 0
  {
    Text.LessAsymmetric(c.startTime, a.startTime);
  }

  /** At most one day name outside the table occurs among the classes. */
  ghost predicate AtMostOneUnknownDay(classes: seq<ClassData>) {
    forall a, b :: a in classes && b in classes && DayRank(a.day) == UnknownRank && DayRank(b.day) == UnknownRank
      ==> a.day == b.day
  }

  /** The intended order: by day rank, then by start time. */
  predicate KeyLe(a: ClassData, b: ClassData) {
    || DayRank(a.day) < DayRank(b.day)
    || (DayRank(a.day) == DayRank(b.day) && !Text.Less(b.startTime, a.startTime))
  }

  /** Between days of distinct rank, or two classes of the same day, the comparator is the intended order. */
  lemma ClassLeIsKeyLe(a: ClassData, b: ClassData)
    requires DayRank(a.day) == UnknownRank && DayRank(b.day) == UnknownRank ==> a.day == b.day
    ensures ClassLe(a, b) <==> KeyLe(a, b)
  {
    Text.LessIrreflexive(a.startTime);
    Text.LessTotal(a.startTime, b.startTime);
  }

  lemma KeyLeTotalPreorder(a: ClassData, b: ClassData, c: ClassData)
    ensures KeyLe(a, b) || KeyLe(b, a)
    ensures KeyLe(a, b) && KeyLe(b, c) ==> KeyLe(a, c)
  {
    Text.LessTotal(a.startTime, b.startTime);
    Text.LessAsymmetric(a.startTime, b.startTime);
    Text.LessTotal(c.startTime, b.startTime);
    Text.LessTransitive(b.startTime, c.startTime, a.startTime);
  }

  lemma ComparatorConsistent(classes: seq<ClassData>)
    requires AtMostOneUnknownDay(classes)
    ensures TotalPreorderOn(classes, ClassLe)
  {
    forall a, b | a in classes && b in classes
      ensures ClassLe(a, b) || ClassLe(b, a)
    {
      ClassLeIsKeyLe(a, b);
      ClassLeIsKeyLe(b, a);
      KeyLeTotalPreorder(a, b, a);
    }
    forall a, b, c | a in classes && b in classes && c in classes && ClassLe(a, b) && ClassLe(b, c)
      ensures ClassLe(a, c)
    {
      ClassLeIsKeyLe(a, b);
      ClassLeIsKeyLe(b, c);
      ClassLeIsKeyLe(a, c);
      KeyLeTotalPreorder(a, b, c);
    }
  }

  /**
   * When at most one unknown day name occurs, the sorted copy is ordered by
   * day rank and, within a rank, by start time.
   */
  lemma SortClassesOrdered(classes: seq<ClassData>)
    requires AtMostOneUnknownDay(classes)
    ensures forall i, j :: 0 <= i < j < |SortClasses(classes)| ==>
      KeyLe(SortClasses(classes)[i], SortClasses(classes)[j])
  {
    ComparatorConsistent(classes);
    InsertionSortSorted(classes, ClassLe);
    var sorted := SortClasses(classes);
    forall i, j | 0 <= i < j < |sorted|
      ensures KeyLe(sorted[i], sorted[j])
    {
      assert sorted[i] in multiset(classes) && sorted[j] in multiset(classes);
      ClassLeIsKeyLe(sorted[i], sorted[j]);
    }
  }

  /** The classes that share `x`'s day and start time. */
  function SameSlot(x: ClassData): ClassData -> bool {
    (c: ClassData) => c.day == x.day && c.startTime == x.startTime
  }

  /** Classes on the same day with equal start times keep their input order. */
  lemma SortClassesStable(classes: seq<ClassData>, x: ClassData)
    ensures Filter(SortClasses(classes), SameSlot(x)) == Filter(classes, SameSlot(x))
  {
    forall a, b | SameSlot(x)(a) && SameSlot(x)(b)
      ensures ClassLe(a, b)
    {
      Text.LessIrreflexive(a.startTime);
    }
    InsertionSortStable(classes, ClassLe, SameSlot(x));
  }

  const TimeErrorMessage: string := "Start time must be earlier than end time."

  /**
   * The start/end check run on every change to either time: an error once
   * both are filled in and the start is not strictly before the end.
   */
  function TimeError(start: string, end: string): (message: string)
    ensures message == "" || message == TimeErrorMessage
    ensures message != "" <==> start != "" && end != "" && !Text.Less(start, end)
  {
    if start != "" && end != "" && !Text.Less(start, end) then TimeErrorMessage else ""
  }

  /** On "HH:MM" times the check accepts exactly the intervals that end after they start. */
  lemma TimeErrorIsChronological(start: string, end: string)
    requires Text.IsTime(start) && Text.IsTime(end)
    ensures TimeError(start, end) == "" <==> Text.Minutes(start) < Text.Minutes(end)
  {
    Text.TimeOrderIsChronological(start, end);
  }

  // ---------------------------------------------------------------------
  // Grouping by day

  /** One bucket of `classesByDay`: a day name and its classes in sorted order. */
  datatype DayGroup = DayGroup(day: string, entries: seq<ClassData>)

  function OnDay(day: string): ClassData -> bool {
    (c: ClassData) => c.day == day
  }

  /** The distinct day names of `classes`, in order of first occurrence. */
  function DayKeys(classes: seq<ClassData>): (keys: seq<string>)
    ensures forall i, j :: 0 <= i < j < |keys| ==> keys[i] != keys[j]
    ensures forall i :: 0 <= i < |classes| ==> classes[i].day in keys
    decreases |classes|
  {
    if classes == [] then []
    else
      var init, last := classes[..|classes| - 1], classes[|classes| - 1];
      var keys := DayKeys(init);
      assert forall i :: 0 <= i < |init| ==> classes[i] == init[i];
      if last.day in keys then keys else keys + [last.day]
  }

  /**
   * Keys come in order of first occurrence: scanning further only appends
   * new days, so the keys of any prefix are a prefix of the keys.
   */
  lemma {:induction false} DayKeysFirstOccurrence(classes: seq<ClassData>, i: nat)
    requires i <= |classes|
    ensures DayKeys(classes[..i]) <= DayKeys(classes)
    decreases |classes|
  {
    if i < |classes| {
      var init := classes[..|classes| - 1];
      assert classes[..i] == init[..i];
      DayKeysFirstOccurrence(init, i);
    } else {
      assert classes[..i] == classes;
    }
  }

  /** `groups` is the grouping of `classes` by day. */
  ghost predicate IsGrouping(groups: seq<DayGroup>, classes: seq<ClassData>) {
    && |groups| == |DayKeys(classes)|
    && forall k :: 0 <= k < |groups| ==>
         groups[k].day == DayKeys(classes)[k] && groups[k].entries == Filter(classes, OnDay(groups[k].day))
  }

  /** Index of the bucket for `day`, or `|groups|` when there is none: `acc[day]`. */
  function FindGroup(groups: seq<DayGroup>, day: string): (k: nat)
    ensures k <= |groups|
    ensures k < |groups| ==> groups[k].day == day
    ensures k == |groups| ==> forall j :: 0 <= j < |groups| ==> groups[j].day != day
    decreases |groups|
  {
    if groups == [] then 0
    else if groups[0].day == day then 0
    else 1 + FindGroup(groups[1..], day)
  }

  lemma PrefixStep(classes: seq<ClassData>, i: nat)
    requires i < |classes|
    ensures DayKeys(classes[..i + 1]) ==
      if classes[i].day in DayKeys(classes[..i]) then DayKeys(classes[..i])
      else DayKeys(classes[..i]) + [classes[i].day]
  {
    assert classes[..i + 1][..i] == classes[..i];
  }

  /** The next class joins the filter of its own day only. */
  lemma PrefixFilterStep(classes: seq<ClassData>, i: nat, d: string)
    requires i < |classes|
    ensures Filter(classes[..i + 1], OnDay(d)) ==
            Filter(classes[..i], OnDay(d)) + (if classes[i].day == d then [classes[i]] else [])
  {
    assert classes[..i + 1][..i] == classes[..i];
  }

  /** Opening a new bucket for a day not seen before keeps the grouping exact. */
  lemma GroupStepNew(groups: seq<DayGroup>, classes: seq<ClassData>, i: nat)
    requires i < |classes|
    requires IsGrouping(groups, classes[..i])
    requires FindGroup(groups, classes[i].day) == |groups|
    ensures IsGrouping(groups + [DayGroup(classes[i].day, [classes[i]])], classes[..i + 1])
  {
    var c, prefix, next := classes[i], classes[..i], classes[..i + 1];
    var keys := DayKeys(prefix);
    var groups' := groups + [DayGroup(c.day, [c])];
    PrefixStep(classes, i);
    NewDayUnseen(groups, prefix, c.day);
    PrefixFilterStep(classes, i, c.day);
    OtherBucketsKept(groups, classes, i);
    assert DayKeys(next) == keys + [c.day];
    forall k | 0 <= k < |groups'|
      ensures groups'[k].day == DayKeys(next)[k]
      ensures groups'[k].entries == Filter(next, OnDay(groups'[k].day))
    {
      if k < |groups| {
        assert groups'[k] == groups[k];
      }
    }
  }

  /** The buckets of the other days are unaffected by the next class. */
  lemma OtherBucketsKept(groups: seq<DayGroup>, classes: seq<ClassData>, i: nat)
    requires i < |classes|
    requires forall k :: 0 <= k < |groups| ==> groups[k].entries == Filter(classes[..i], OnDay(groups[k].day))
    ensures forall k :: 0 <= k < |groups| && groups[k].day != classes[i].day ==>
      groups[k].entries == Filter(classes[..i + 1], OnDay(groups[k].day))
  {
    forall k | 0 <= k < |groups| && groups[k].day != classes[i].day
      ensures groups[k].entries == Filter(classes[..i + 1], OnDay(groups[k].day))
    {
      PrefixFilterStep(classes, i, groups[k].day);
    }
  }

  /** A day with no bucket yet is no key, and no earlier class falls on it. */
  lemma NewDayUnseen(groups: seq<DayGroup>, prefix: seq<ClassData>, d: string)
    requires IsGrouping(groups, prefix)
    requires FindGroup(groups, d) == |groups|
    ensures d !in DayKeys(prefix)
    ensures Filter(prefix, OnDay(d)) == []
  {
    var keys := DayKeys(prefix);
    forall j | 0 <= j < |keys|
      ensures keys[j] != d
    {
      assert groups[j].day == keys[j];
    }
    forall j | 0 <= j < |prefix|
      ensures !OnDay(d)(prefix[j])
    {
      assert prefix[j].day in keys;
    }
    FilterNone(prefix, OnDay(d));
  }

  /** Pushing onto the bucket of a day already seen keeps the grouping exact. */
  lemma GroupStepExisting(groups: seq<DayGroup>, classes: seq<ClassData>, i: nat, k: nat)
    requires i < |classes|
    requires IsGrouping(groups, classes[..i])
    requires k == FindGroup(groups, classes[i].day) < |groups|
    ensures IsGrouping(groups[k := DayGroup(classes[i].day, groups[k].entries + [classes[i]])], classes[..i + 1])
  {
    var c, prefix, next := classes[i], classes[..i], classes[..i + 1];
    var keys := DayKeys(prefix);
    var groups' := groups[k := DayGroup(c.day, groups[k].entries + [c])];
    PrefixStep(classes, i);
    assert keys[k] == c.day;
    assert DayKeys(next) == keys;
    forall j | 0 <= j < |groups'|
      ensures groups'[j].day == DayKeys(next)[j]
      ensures groups'[j].entries == Filter(next, OnDay(groups'[j].day))
    {
      PrefixFilterStep(classes, i, groups'[j].day);
      if j != k {
        assert groups'[j] == groups[j];
        assert keys[j] != keys[k];
      }
    }
  }

  /**
   * One step of the `classesByDay` reduce: open a bucket the first time a
   * day is seen, then push the class onto its day's bucket.
   */
  function PushClass(groups: seq<DayGroup>, c: ClassData): seq<DayGroup> {
    var k := FindGroup(groups, c.day);
    if k == |groups| then groups + [DayGroup(c.day, [c])]
    else groups[k := DayGroup(c.day, groups[k].entries + [c])]
  }

  lemma PushClassStep(groups: seq<DayGroup>, classes: seq<ClassData>, i: nat)
    requires i < |classes|
    requires IsGrouping(groups, classes[..i])
    ensures IsGrouping(PushClass(groups, classes[i]), classes[..i + 1])
  {
    var k := FindGroup(groups, classes[i].day);
    if k == |groups| {
      GroupStepNew(groups, classes, i);
    } else {
      GroupStepExisting(groups, classes, i, k);
    }
  }

  /**
   * The `classesByDay` reduce, with the accumulator keyed by the day names
   * alone: walk the sorted classes and push each onto its day's bucket.
   */
  method GroupByDay(sorted: seq<ClassData>) returns (groups: seq<DayGroup>)
    ensures IsGrouping(groups, sorted)
  {
    groups := [];
    var i := 0;
    while i < |sorted|
      invariant i <= |sorted|
      invariant IsGrouping(groups, sorted[..i])
    {
      PushClassStep(groups, sorted, i);
      groups := PushClass(groups, sorted[i]);
      i := i + 1;
    }
    assert sorted[..i] == sorted;
  }

  /**
   * The names every plain object inherits from `Object.prototype`. Looking
   * one of them up in an object literal finds a function (or, for
   * `__proto__`, the prototype object itself): truthy, and never an array.
   */
  const InheritedNames: set<string> := {
    "constructor", "hasOwnProperty", "isPrototypeOf", "propertyIsEnumerable",
    "toLocaleString", "toString", "valueOf", "__proto__",
    "__defineGetter__", "__defineSetter__", "__lookupGetter__", "__lookupSetter__"
  }

  /**
   * The reduce as written, on an object literal: for a class whose day is an
   * inherited name, `acc[day]` is already truthy, so no bucket is opened and
   * `acc[day].push` throws. `None` stands for that exception, which aborts
   * the page's render.
   */
  method GroupByDayAsWritten(sorted: seq<ClassData>) returns (groups: Option<seq<DayGroup>>)
    ensures groups.None? <==> exists i :: 0 <= i < |sorted| && sorted[i].day in InheritedNames
    ensures groups.Some? ==> IsGrouping(groups.value, sorted)
  {
    var acc := [];
    var i := 0;
    while i < |sorted|
      invariant i <= |sorted|
      invariant IsGrouping(acc, sorted[..i])
      invariant forall j :: 0 <= j < i ==> sorted[j].day !in InheritedNames
    {
      if sorted[i].day in InheritedNames {
        return None;
      }
      PushClassStep(acc, sorted, i);
      acc := PushClass(acc, sorted[i]);
      i := i + 1;
    }
    assert sorted[..i] == sorted;
    return Some(acc);
  }

  /** A single class on a day named "constructor" makes the reduce throw. */
  method InheritedDayBreaksGrouping() returns (asWritten: Option<seq<DayGroup>>, intended: seq<DayGroup>)
    ensures asWritten == None
    ensures |intended| == 1 && intended[0].day == "constructor" && |intended[0].entries| == 1
  {
    var c := ClassData(Some("c1"), "constructor", "09:00", "10:00", "CS101", "Introduction", "JD", "Room 101", "A");
    asWritten := GroupByDayAsWritten([c]);
    assert [c][0].day in InheritedNames;
    intended := GroupByDay([c]);
    assert DayKeys([c]) == ["constructor"] by {
      assert [c][..0] == [];
    }
    FilterMembers([c], OnDay("constructor"));
    assert Filter([c], OnDay("constructor")) == [c] by {
      assert [c][..0] == [];
    }
  }

  /** The buckets concatenated in key order. */
  function Flatten(groups: seq<DayGroup>): seq<ClassData>
    decreases |groups|
  {
    if groups == [] then [] else Flatten(groups[..|groups| - 1]) + groups[|groups| - 1].entries
  }

  /** Sum of the bucket sizes. */
  function TotalSize(groups: seq<DayGroup>): (n: nat)
    ensures n == |Flatten(groups)|
    decreases |groups|
  {
    if groups == [] then 0 else TotalSize(groups[..|groups| - 1]) + |groups[|groups| - 1].entries|
  }

  lemma {:induction false} FlattenCount(groups: seq<DayGroup>, classes: seq<ClassData>, m: nat, x: ClassData)
    requires IsGrouping(groups, classes)
    requires m <= |groups|
    ensures multiset(Flatten(groups[..m]))[x] ==
      if x.day in DayKeys(classes)[..m] then multiset(classes)[x] else 0
  {
    if m > 0 {
      FlattenCount(groups, classes, m - 1, x);
      FlattenLast(groups, m);
      BucketCount(groups, classes, m - 1, x);
      KeyPrefixStep(DayKeys(classes), m, x.day);
    }
  }

  lemma FlattenLast(groups: seq<DayGroup>, m: nat)
    requires 0 < m <= |groups|
    ensures multiset(Flatten(groups[..m])) == multiset(Flatten(groups[..m - 1])) + multiset(groups[m - 1].entries)
  {
    assert groups[..m][..m - 1] == groups[..m - 1];
  }

  lemma BucketCount(groups: seq<DayGroup>, classes: seq<ClassData>, k: nat, x: ClassData)
    requires IsGrouping(groups, classes)
    requires k < |groups|
    ensures groups[k].day == DayKeys(classes)[k]
    ensures multiset(groups[k].entries)[x] == if x.day == groups[k].day then multiset(classes)[x] else 0
  {
    FilterMultiset(classes, OnDay(groups[k].day));
  }

  lemma KeyPrefixStep(keys: seq<string>, m: nat, d: string)
    requires 0 < m <= |keys|
    requires forall i, j :: 0 <= i < j < |keys| ==> keys[i] != keys[j]
    ensures d in keys[..m] <==> d in keys[..m - 1] || d == keys[m - 1]
    ensures d == keys[m - 1] ==> d !in keys[..m - 1]
  {
    assert keys[..m] == keys[..m - 1] + [keys[m - 1]];
  }

  /**
   * The grouping loses and invents nothing: the buckets together hold
   * exactly the input's classes, and their sizes sum to its length.
   */
  lemma GroupingIsPartition(groups: seq<DayGroup>, classes: seq<ClassData>)
    requires IsGrouping(groups, classes)
    ensures multiset(Flatten(groups)) == multiset(classes)
    ensures TotalSize(groups) == |classes|
  {
    forall x
      ensures multiset(Flatten(groups))[x] == multiset(classes)[x]
    {
      PartitionCount(groups, classes, x);
    }
    assert multiset(Flatten(groups)) == multiset(classes);
    assert |multiset(Flatten(groups))| == |multiset(classes)|;
  }

  lemma PartitionCount(groups: seq<DayGroup>, classes: seq<ClassData>, x: ClassData)
    requires IsGrouping(groups, classes)
    ensures multiset(Flatten(groups))[x] == multiset(classes)[x]
  {
    FlattenCount(groups, classes, |groups|, x);
    var keys := DayKeys(classes);
    assert groups[..|groups|] == groups;
    assert keys[..|groups|] == keys;
    if x.day !in keys {
      DayOutsideKeys(classes, x);
    }
  }

  lemma DayOutsideKeys(classes: seq<ClassData>, x: ClassData)
    requires x.day !in DayKeys(classes)
    ensures multiset(classes)[x] == 0
  {
    assert x !in classes;
  }

  /** Every key is the day of some class. */
  lemma {:induction false} KeyOccurs(classes: seq<ClassData>, k: nat) returns (i: nat)
    requires k < |DayKeys(classes)|
    ensures i < |classes| && classes[i].day == DayKeys(classes)[k]
    decreases |classes|
  {
    var init, last := classes[..|classes| - 1], classes[|classes| - 1];
    if k < |DayKeys(init)| {
      i := KeyOccurs(init, k);
      assert classes[i] == init[i];
    } else {
      i := |classes| - 1;
    }
  }

  /**
   * Every class sits in the one bucket of its own day and in no other; keys
   * are distinct and no bucket is empty.
   */
  lemma GroupingPlacesEachClassOnce(groups: seq<DayGroup>, classes: seq<ClassData>)
    requires IsGrouping(groups, classes)
    ensures forall j, k :: 0 <= j < k < |groups| ==> groups[j].day != groups[k].day
    ensures forall k :: 0 <= k < |groups| ==> groups[k].entries != []
    ensures forall i, k :: 0 <= i < |classes| && 0 <= k < |groups| ==>
      (classes[i] in groups[k].entries <==> groups[k].day == classes[i].day)
    ensures forall i :: 0 <= i < |classes| ==> exists k :: 0 <= k < |groups| && groups[k].day == classes[i].day
  {
    forall k | 0 <= k < |groups|
      ensures forall c :: c in groups[k].entries <==> c in classes && c.day == groups[k].day
      ensures groups[k].entries != []
    {
      FilterMembers(classes, OnDay(groups[k].day));
      var i := KeyOccurs(classes, k);
      assert classes[i] in groups[k].entries;
    }
    forall i | 0 <= i < |classes|
      ensures exists k :: 0 <= k < |groups| && groups[k].day == classes[i].day
    {
      var keys := DayKeys(classes);
      var k :| 0 <= k < |keys| && keys[k] == classes[i].day;
      assert groups[k].day == classes[i].day;
    }
  }

  /**
   * Grouping a list ordered by day rank lists the days in week order, so the
   * buckets come out Monday first.
   */
  lemma {:induction false} DayKeysInWeekOrder(classes: seq<ClassData>)
    requires forall i, j :: 0 <= i < j < |classes| ==> DayRank(classes[i].day) <= DayRank(classes[j].day)
    ensures forall i, j :: 0 <= i < j < |DayKeys(classes)| ==>
      DayRank(DayKeys(classes)[i]) <= DayRank(DayKeys(classes)[j])
    decreases |classes|
  {
    if classes != [] {
      var init, last := classes[..|classes| - 1], classes[|classes| - 1];
      DayKeysInWeekOrder(init);
      var keys := DayKeys(init);
      forall k | 0 <= k < |keys|
        ensures DayRank(keys[k]) <= DayRank(last.day)
      {
        var i := KeyOccurs(init, k);
        assert classes[i] == init[i];
      }
    }
  }
}
