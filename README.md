# Class schedule planner — a Dafny model of its bookkeeping

The planner is a small web application with three pages and a sidebar. The
class-schedule page keeps a weekly timetable. The events page keeps dated
events. The dashboard shows today's part of both. This project models the
logic inside those pages, apart from rendering and the remote store, and
proves what that logic promises.

- **Schedule engine** (`ClassSchedule`). Weekday ranks with their fallback
  of 8. The sort comparator and the sorted copy of the classes. The
  start/end time check. The `classesByDay` reduce, as a method with a loop
  that is proved to build exactly the grouping of the sorted classes by day.
- **Schedule page** (`ClassSchedulePage.SchedulePage`). A class with the
  page's state: `formData`, `timeError`, `editingClass`, `expandedDays` and
  `isDialogOpen`. Its methods are the handlers and the mutation callbacks,
  which return the query keys they invalidate and the toast they raise.
- **Events** (`Events`, `EventsPage.EventsPage`). The payload normalisation
  shared by create and update. The time-slot label. The page's state and
  handlers, with no time-order check on submit.
- **Dashboard** (`Dashboard`). Today's classes and today's events as a
  filter followed by an ordering. The five-entry previews and their
  "View All" rule. The stat cards with their defaults. The "All day" label.
- **Store** (`Store`). Each collection is a sequence of rows. The model
  covers the requests the pages send, what a successful request does to the
  rows, and which cached queries it marks stale. It proves that the
  invalidation sets cover every query whose answer changes.
- **Sidebar** (`Sidebar`). The `isActive` prefix rule over the three-entry
  navigation table. At most one entry is ever active.

Support modules: `Optional` (an option type), `Seqs` (order-preserving
filter), `Text` (JavaScript string order, `localeCompare`, prefixes and
"HH:MM" times), `Sorting` (a stable comparison sort standing for
`Array.prototype.sort`) and `Feedback` (the toast the pages raise and its
two titles).

Four facts about the code shape the model.

- **The comparator is not a total order.** It compares the ranks of two
  different day names. Two different names outside the table both rank 8,
  so they tie whatever their times. That breaks transitivity, shown in
  `UnknownDaysBreakTransitivity`. What the sort yields is then up to the
  engine. The model therefore proves three properties for every input:
  - the result is a permutation;
  - it is ordered by rank;
  - it is stable within a day and start time.

  The full (rank, start time) order is proved only when at most one unknown
  day name occurs.
- **A stale time error blocks submit.** `timeError` is recomputed only when
  a time input changes, and submit trusts the stored message. See
  "## Findings".
- **Day names are object keys.** The grouping reduce indexes a plain object
  by day name, so a name such as "constructor" finds an inherited member and
  the render throws. The model keeps both readings: `GroupByDayAsWritten`
  fails exactly on such names, and `GroupByDay` groups every name. See
  "## Findings".
- **The store decides where untimed events go.** The dashboard's
  today-events query orders by a column that may be `null`, and the store
  chooses where nulls land. The model takes that choice as a parameter
  (`untimedFirst`). Every property is proved for both values.

## Model

| member | source | states |
|---|---|---|
| Text.Compare | src/pages/ClassSchedule.tsx:285 | `localeCompare`'s sign is negative, zero or positive exactly when the first string sorts before, equals, or sorts after the second |
| Text.TimeOrderIsChronological | src/pages/ClassSchedule.tsx:216-220 | on zero-padded "HH:MM" strings, string `<` is earlier-in-the-day order |
| Sorting.InsertionSortSorted | src/pages/ClassSchedule.tsx:278 | a stable sort with a comparator that is a total preorder on the elements yields a sorted permutation |
| Sorting.InsertionSortStable | src/pages/ClassSchedule.tsx:278 | elements the comparator ties keep their input order |
| ClassSchedule.DayRank | src/pages/ClassSchedule.tsx:268-283 | Monday..Sunday rank 1..7; every other name that is not an inherited object member ranks 8, after all of them |
| ClassSchedule.DayRankFollowsWeek | src/pages/ClassSchedule.tsx:268-276 | the i-th weekday of the form's list has rank i+1 and is the only name with it |
| ClassSchedule.SortClasses | src/pages/ClassSchedule.tsx:278-286 | the sorted copy is a permutation of the classes, ordered by day rank; the input is a value and stays as it is |
| ClassSchedule.Compare | src/pages/ClassSchedule.tsx:278-286 | classes on different days are ordered by day rank, classes on the same day by start time; the comparator returns 0 exactly on equal ranks or equal times |
| ClassSchedule.CompareAntisymmetric | src/pages/ClassSchedule.tsx:278-286 | swapping the arguments flips the comparator's sign |
| ClassSchedule.UnknownDaysCompareEqual | src/pages/ClassSchedule.tsx:279-283 | two different unknown day names compare equal whatever their start times |
| ClassSchedule.UnknownDaysBreakTransitivity | src/pages/ClassSchedule.tsx:279-285 | with two unknown day names, a ties b and b ties c while c sorts before a |
| ClassSchedule.ClassLeIsKeyLe | src/pages/ClassSchedule.tsx:278-286 | unless two different unknown names meet, the comparator is exactly "rank, then start time" |
| ClassSchedule.ComparatorConsistent | src/pages/ClassSchedule.tsx:278-286 | with at most one unknown day name the comparator is total and transitive on the classes |
| ClassSchedule.SortClassesOrdered | src/pages/ClassSchedule.tsx:278-286 | with at most one unknown day name the sorted copy is ordered by rank, then by start time |
| ClassSchedule.SortClassesStable | src/pages/ClassSchedule.tsx:278-286 | classes on the same day with the same start time keep their input order |
| ClassSchedule.TimeError | src/pages/ClassSchedule.tsx:216-224 | the error is exactly the one message when both times are filled in and start >= end as strings, and clear otherwise |
| ClassSchedule.TimeErrorIsChronological | src/pages/ClassSchedule.tsx:216-220 | on "HH:MM" times the check passes exactly when the class ends later in the day than it starts |
| ClassSchedule.DayKeys | src/pages/ClassSchedule.tsx:289-295 | the bucket keys are distinct and include the day of every class |
| ClassSchedule.DayKeysFirstOccurrence | src/pages/ClassSchedule.tsx:289-292 | keys appear in order of first occurrence: the keys of every prefix are a prefix of the keys |
| ClassSchedule.FindGroup | src/pages/ClassSchedule.tsx:290 | `acc[day]` finds the bucket of that day, or reports that none exists |
| ClassSchedule.GroupByDay | src/pages/ClassSchedule.tsx:289-295 | the reduce's loop, with the accumulator keyed by day names alone, builds one bucket per key, in key order, holding exactly that day's classes in sorted order |
| ClassSchedule.GroupByDayAsWritten | src/pages/ClassSchedule.tsx:289-295 | on an object literal the reduce throws exactly when some class's day is an inherited object member name, and otherwise builds the same grouping |
| ClassSchedule.InheritedDayBreaksGrouping | src/pages/ClassSchedule.tsx:289-295 | one class on a day named "constructor" makes the reduce as written throw, where the intended grouping has one bucket holding it |
| ClassSchedule.GroupingIsPartition | src/pages/ClassSchedule.tsx:289-295 | together the buckets hold exactly the sorted classes, and their sizes sum to the input length |
| ClassSchedule.GroupingPlacesEachClassOnce | src/pages/ClassSchedule.tsx:289-295 | every class sits in the bucket of its day and in no other; keys are distinct; no bucket is empty |
| ClassSchedule.DayKeysInWeekOrder | src/pages/ClassSchedule.tsx:278-295 | grouping the rank-sorted list yields the day buckets in week order, as the keys are listed in insertion order |
| ClassSchedulePage.WithTime | src/pages/ClassSchedule.tsx:213-214 | a time change sets only the named time field; every other field is unchanged |
| ClassSchedulePage.WithText | src/pages/ClassSchedule.tsx:338-465 | a plain input's field takes the value; every other plain field, the id and the two times are unchanged |
| ClassSchedulePage.Toggle | src/pages/ClassSchedule.tsx:261-266 | toggling flips only that day's card, a day with no flag counting as collapsed |
| ClassSchedulePage.ToggleTwiceRestores | src/pages/ClassSchedule.tsx:261-266 | toggling a day twice leaves every card as it was |
| ClassSchedulePage.SubmitDisabled | src/pages/ClassSchedule.tsx:477-479 | the submit button is disabled while a create or an update is pending |
| ClassSchedulePage.SchedulePage.constructor | src/pages/ClassSchedule.tsx:85-98 | the initial state: dialog closed, nothing edited, no error, no expanded day, blank form |
| ClassSchedulePage.SchedulePage.ResetForm | src/pages/ClassSchedule.tsx:196-207 | blanks the form and leaves the time error and everything else alone |
| ClassSchedulePage.SchedulePage.HandleTimeChange | src/pages/ClassSchedule.tsx:209-228 | sets one time field and sets the error to the check of the new pair |
| ClassSchedulePage.SchedulePage.SetTextField | src/pages/ClassSchedule.tsx:338-465 | a plain input copies its value into its own field; every other field of the form and all other state are unchanged |
| ClassSchedulePage.SchedulePage.HandleSubmit | src/pages/ClassSchedule.tsx:230-247 | blocked with an "Invalid Time" toast carrying the check's message iff a time error is stored; otherwise an update of the edited row's id, sent without an id, or a create |
| ClassSchedulePage.SchedulePage.HandleSubmitRevalidated | src/pages/ClassSchedule.tsx:230-247 | the corrected submit is blocked iff the form's current times fail the check, so no invalid pair is ever sent |
| ClassSchedulePage.SchedulePage.HandleEdit | src/pages/ClassSchedule.tsx:249-253 | loads the row into the form, marks it edited and opens the dialog; the time error is untouched |
| ClassSchedulePage.SchedulePage.HandleAdd | src/pages/ClassSchedule.tsx:255-259 | nothing edited, blank form, dialog open; the time error is untouched |
| ClassSchedulePage.SchedulePage.SetDialogOpen | src/pages/ClassSchedule.tsx:309 | opening or closing the dialog changes nothing else |
| ClassSchedulePage.SchedulePage.ToggleDayExpansion | src/pages/ClassSchedule.tsx:261-266 | the expansion flags become the toggle of the old ones; nothing else changes |
| ClassSchedulePage.SchedulePage.OnCreateSettled | src/pages/ClassSchedule.tsx:123-140 | success invalidates classes, classes-count and today-classes, closes the dialog and blanks the form; failure invalidates nothing and changes nothing; the toast text of each |
| ClassSchedulePage.SchedulePage.OnUpdateSettled | src/pages/ClassSchedule.tsx:152-169 | success invalidates classes and today-classes and also stops editing; failure changes nothing |
| ClassSchedulePage.SchedulePage.OnDeleteSettled | src/pages/ClassSchedule.tsx:178-193 | success invalidates all three class keys; the page state is not touched |
| ClassSchedulePage.StaleTimeErrorScenario | src/pages/ClassSchedule.tsx:249-253 | after an invalid pair is typed and the dialog cancelled, editing a valid class and submitting it is blocked; the revalidating submit sends the update |
| Events.NullIfEmpty | src/pages/Events.tsx:95-97 | `field \|\| null` keeps a non-empty value and turns an empty or missing one into null |
| Events.NormalizePayload | src/pages/Events.tsx:93-98 | the payload holds no empty optional field, keeps every non-empty one, and copies id, title and date |
| Events.NormalizeIdempotent | src/pages/Events.tsx:124-129 | normalising twice is normalising once |
| Events.NormalizeFixesNormalized | src/pages/Events.tsx:93-98 | a record is left unchanged exactly when it has no empty optional field |
| Events.TimeSlotLabel | src/pages/Events.tsx:473-483 | "start - end", the start alone, the end alone, or "No Time Slot", by which times are set |
| Events.NormalizeKeepsTimeSlot | src/pages/Events.tsx:473-483 | a record reads the same in the time-slot column before and after normalisation |
| EventsPage.InputValue | src/pages/Events.tsx:312-317 | an emptied time or description input stores null, any other value is stored as typed |
| EventsPage.EventsPage.constructor | src/pages/Events.tsx:63-72 | the initial state: dialog closed, nothing edited, no date picked, blank form |
| EventsPage.EventsPage.SubmitDisabled | src/pages/Events.tsx:385-389 | submit is enabled iff neither request is pending and a date is set |
| EventsPage.EventsPage.ResetForm | src/pages/Events.tsx:179-188 | blanks the form and clears the picked date |
| EventsPage.EventsPage.HandleSubmit | src/pages/Events.tsx:190-198 | always sends: an update of the edited row's id without the id, or a create when nothing is edited |
| EventsPage.EventsPage.HandleEdit | src/pages/Events.tsx:200-210 | loads the row normalised, picks its date, opens the dialog; submit is then enabled iff the row has a date |
| EventsPage.EventsPage.HandleAdd | src/pages/Events.tsx:212-216 | nothing edited, blank form, no date, dialog open, so submit starts disabled |
| EventsPage.EventsPage.HandleDateSelect | src/pages/Events.tsx:218-226 | a picked day becomes the form's date and changes nothing else; clearing the pick leaves the form as it is |
| EventsPage.EventsPage.SetTitle | src/pages/Events.tsx:269-274 | the title input changes only the title |
| EventsPage.EventsPage.SetStartTime | src/pages/Events.tsx:312-317 | the start input changes only the start time, empty meaning null |
| EventsPage.EventsPage.ClearStartTime | src/pages/Events.tsx:322-324 | the clear button sets only the start time to null |
| EventsPage.EventsPage.SetEndTime | src/pages/Events.tsx:338-343 | the end input changes only the end time, empty meaning null |
| EventsPage.EventsPage.ClearEndTime | src/pages/Events.tsx:348-350 | the clear button sets only the end time to null |
| EventsPage.EventsPage.SetDescription | src/pages/Events.tsx:364-369 | the description input changes only the description, empty meaning null |
| EventsPage.EventsPage.SetDialogOpen | src/pages/Events.tsx:240 | opening or closing the dialog changes nothing else |
| EventsPage.EventsPage.OnCreateSettled | src/pages/Events.tsx:102-119 | success invalidates events, events-count and today-events, closes the dialog and blanks the form; failure changes nothing |
| EventsPage.EventsPage.OnUpdateSettled | src/pages/Events.tsx:136-153 | success invalidates events and today-events and stops editing; failure changes nothing |
| EventsPage.EventsPage.OnDeleteSettled | src/pages/Events.tsx:161-176 | success invalidates all three event keys; the page state is not touched |
| EventsPage.ReversedTimesAreSent | src/pages/Events.tsx:190-198 | an event ending before it starts is still sent and written with both times |
| Dashboard.TodayClasses | src/pages/Dashboard.tsx:45-56 | exactly the classes whose day is today's weekday name, as a permutation of the filtered rows, ascending by start time; missing rows give an empty list |
| Dashboard.OtherDaysExcluded | src/pages/Dashboard.tsx:48-53 | a class on another day never appears among today's classes |
| Dashboard.TodayEvents | src/pages/Dashboard.tsx:32-43 | exactly the events dated today, as a permutation of the filtered rows, in the store's ascending start order; missing rows give an empty list |
| Dashboard.TodayEventsTimedInOrder | src/pages/Dashboard.tsx:36-40 | the timed events are in ascending start order and no untimed event sits between two timed ones |
| Dashboard.PreviewOf | src/pages/Dashboard.tsx:125-159 | a card lists the first min(5, n) entries; "View All" shows iff n > 5, that is iff some entry is hidden; the empty state shows iff n = 0 |
| Dashboard.CountOrZero | src/pages/Dashboard.tsx:12-30 | a missing count displays as 0 |
| Dashboard.StatCards | src/pages/Dashboard.tsx:77-107 | the totals are the counts with their default; the today cards show the uncapped lengths of today's lists, that is the number of matching rows, 0 when the rows are missing, never fewer than the preview lists |
| Dashboard.DashboardTimeLabel | src/pages/Dashboard.tsx:198-201 | the preview shows the events table's "start - end" when both times are set, and "All day" otherwise |
| Dashboard.OneTimeLabelsDisagree | src/pages/Dashboard.tsx:198-201 | with exactly one time set the dashboard says "All day" where the events table shows that time |
| Store.ApplyClass | src/pages/ClassSchedule.tsx:117-194 | create appends the record with its own or a store-assigned id; update rewrites exactly the rows with the requested id, keeping their ids and the count; delete leaves exactly the rows without that id, each as often as before, and none with it |
| Store.ApplyEvent | src/pages/Events.tsx:91-177 | the same for events, with the normalised payload written on create and update; a delete keeps each row without that id as often as before |
| Store.UpdateRows | src/pages/ClassSchedule.tsx:144-148 | an update rewrites exactly the rows whose id matches and keeps the number of rows |
| Store.ApplyClassCount | src/pages/ClassSchedule.tsx:117-176 | create adds exactly one row, update keeps the count, delete lowers it by exactly the number of rows carrying that id |
| Store.DeleteClassRemovesOnlyItsRow | src/pages/ClassSchedule.tsx:173-174 | a delete splits the rows into those that stay and those carrying the id, every occurrence in exactly one part |
| Store.UpdateClassIdempotent | src/pages/ClassSchedule.tsx:144-148 | sending the same update twice equals sending it once |
| Store.ApplyEventKeepsNormalized | src/pages/Events.tsx:91-134 | event requests keep every stored row free of empty optional fields |
| Store.ClassInvalidation | src/pages/ClassSchedule.tsx:123-181 | success invalidates classes and today-classes; classes-count exactly when the request is not an update; failure invalidates nothing |
| Store.EventInvalidation | src/pages/Events.tsx:102-164 | the same over events, events-count and today-events |
| Store.InvalidationsDisjoint | src/pages/Events.tsx:102-105 | a class request never invalidates an event query, nor the reverse |
| Store.ClassInvalidationSound | src/pages/ClassSchedule.tsx:152-154 | every class query whose answer a successful request changes is invalidated by it; in particular an update never changes the count |
| Store.EventInvalidationSound | src/pages/Events.tsx:136-138 | the same for event requests |
| Store.CreateClassChangesListAndCount | src/pages/ClassSchedule.tsx:123-126 | a create always changes the list and the count it invalidates |
| Sidebar.IsActive | src/components/layout/AppSidebar.tsx:15-27 | a path activates an entry iff it equals the entry's url or extends it by "/" followed by anything |
| Sidebar.ExactPathActive | src/components/layout/AppSidebar.tsx:26-27 | an entry is active on its own path |
| Sidebar.SubpathActive | src/components/layout/AppSidebar.tsx:27 | an entry is active on any path below it |
| Sidebar.TextualPrefixNotActive | src/components/layout/AppSidebar.tsx:27 | a path extending the URL by anything but "/" does not activate it |
| Sidebar.RootActiveOnlyAtRoot | src/components/layout/AppSidebar.tsx:15-27 | the root entry is active only on "/" and on paths beginning "//" |
| Sidebar.AtMostOneEntryActive | src/components/layout/AppSidebar.tsx:15-27 | no two entries of the table are active for the same path |
| Sidebar.ActiveFlags | src/components/layout/AppSidebar.tsx:41-45 | the highlight flag of each entry is its `isActive`, and at most one flag is set |

## Left out

- The remote store and the query cache are not modelled. A collection is a sequence of rows. A request's outcome is the `ok` input of the callbacks. A pending flag is a boolean parameter. Queries are refetched by whoever reads the invalidated keys.
- The store's order of the full `classes` and `events` lists (src/pages/ClassSchedule.tsx:109-110, src/pages/Events.tsx:83-84) is not modelled. The classes page re-sorts its list, and the model takes the store's order as the input of that sort.
- Dashboard.TodayClasses: ties between equal start times come back in an order the store chooses. The contract states only the permutation and the start-time order, and the model's tie order is one possible choice.
- Dashboard.TodayEvents: where `null` start times fall is the store's choice. It is a parameter, and nothing depends on its value.
- ClassSchedule.SortClassesOrdered: proved only when at most one day name outside the table occurs. With two such names the comparator is not transitive, and `Array.prototype.sort` may return any order. The model's sort is one such order; for it, rank order, permutation and stability are still proved.
- `localeCompare` is read as plain lexicographic order by character. Locale collation rules are not modelled, and neither is the difference between UTF-16 code units and characters.
- Clocks and dates are inputs, not computed. `new Date()`, `toISOString` and `toLocaleDateString` are not modelled, so today's weekday name and date string are parameters. The source takes the date in UTC and the weekday in local time, so near midnight they can disagree; this is not modelled either.
- Calendar dates in the events form are modelled as their "yyyy-MM-dd" strings. `format`, `parseISO` and the parse in `new Date(event.event_date)` are not modelled.
- Record fields beyond the declared interfaces are not modelled. A real row can carry columns such as creation timestamps, which `handleEdit` copies into the form and update then sends back.
- The browser's own validation of `required` inputs is not modelled. It can stop a submit before `handleSubmit` runs. The handlers are modelled as they are written.
- React's asynchronous, batched state updates are not modelled. Each handler is one atomic state change, with functional updaters reading the latest state.
- ClassSchedule.DayRank: for a day name that is an inherited object member ("constructor", "toString", ...), `dayOrder[day] || 8` yields a function, so the comparator returns NaN, which the sort reads as a tie. The model ranks such a name 8. The page's render fails on such a name anyway (see "## Findings"), so the sort result is never shown.
- ClassSchedulePage.Toggle: for an inherited object member name `prev[day]` starts truthy, so the first toggle collapses. The model reads a missing flag as collapsed. Such a day never reaches the day cards, because the render fails first.
- `classesByDay` is a JavaScript object. It is modelled as an association list in insertion order. That is how `Object.entries` enumerates every key except array-index names such as "1", which enumerate first in numeric order; that order is not modelled.
- ClassSchedule.DayKeysInWeekOrder: states the order of the model's key list. For a day named by an array index such as "7" (rank 8, sorted last), the page renders that bucket first, which the lemma does not capture.
- Rendering is not modelled. That covers JSX, CSS, row striping, spinners, the delete confirmation dialog and the dashboard's navigate buttons. It also covers `tailwind.config.ts`, `src/components/layout/AppLayout.tsx`, `src/components/footer.tsx` and `src/components/InstallPrompt.tsx`, which are presentation or browser install-prompt plumbing. Toasts are modelled only as the title, text and style they would show.

## Findings

| source | as written | input that shows it | evidently intended | confidence | as-written member | corrected member |
|---|---|---|---|---|---|---|
| src/pages/ClassSchedule.tsx:249-259 | `handleEdit`, `handleAdd` and `resetForm` replace the form's times but leave `timeError` as it was, and `handleSubmit` trusts the stored message | in the add form set start "10:00" and end "09:00", cancel, then edit a stored Monday class 09:00–10:00 and submit: an "Invalid Time" toast, no update | the time error describes the times on the form, so a valid loaded class can be submitted | not executed; follows from the handlers as written | ClassSchedulePage.StaleTimeErrorScenario | ClassSchedulePage.SchedulePage.HandleSubmitRevalidated |
| src/pages/ClassSchedule.tsx:289-295 | the reduce keys a plain object literal by day name, so `acc[day]` for an inherited member name finds that member instead of `undefined` | a stored class whose day is "constructor" (the column is free text; only the form's picker limits it): `acc["constructor"]` is the Object function, no bucket is opened, `.push` throws a TypeError and the page does not render | every class is grouped under its own day name, whatever that name is (an accumulator without inherited keys, such as a `Map` or `Object.create(null)`) | not executed; follows from JavaScript's property lookup | ClassSchedule.GroupByDayAsWritten | ClassSchedule.GroupByDay |
