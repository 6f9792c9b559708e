# EventConnect event store, creation form and display list, in Dafny

EventConnect is an Android app. The user creates dated "events" in a form, the
app keeps them in a local Room (SQLite) table, and the main screen shows them,
filtered by category and by distance from the user's position. This project
models the sequential logic under the UI, as pure functions and methods over
immutable values:

- `Entity`: the `EventEntity` row and its constructor defaults (`EventEntity.kt`).
- `Dao`: the `events` table as a `map<int, EventEntity>` plus the table's
  AUTOINCREMENT sequence, and the five DAO operations (`EventDao.kt`).
  `insertEvent` replaces a row with the same id. An id of 0 gets an id one
  past every id the table has ever held. `getAllEvents` returns a permutation of
  the rows, non-decreasing in `date` under string order. `getAllEventsOnce`
  returns the same rows with no order promised. `deleteEventById` and
  `deleteAll` keep the sequence, so ids are never reused.
- `CreateForm`: the creation form's state and handlers (`CreateEventForm.kt`):
  the date-picker callback, the location callback, the category dropdown and the
  "Créer" button, which validates title and date independently and builds the
  entity.
- `MainScreen`: the `nearbyEvents` / `displayedEvents` projection
  (`MainScreen.kt`), plus the screen's two store calls.
- Helpers: `Wrappers` (Option for Kotlin nullables), `Text` (Kotlin
  `Int.toString`, `padStart`, `isBlank`, `split`, and the string order SQLite
  sorts TEXT by), `Seqs` (Kotlin `filter` and order-preserving subsequences).

Kotlin `Double` coordinates are `real`. `calculateDistance` is in a utilities
file that is not part of this model. It is a function parameter
`distance` that the model knows nothing about, so "within 10 km" is
`distance(...) <= 10.0` for whatever `distance` is passed. The clock ("today") and the
location fix are also parameters.

A few facts about the code that the model keeps as written:

- `getAllEvents` orders by `date` alone, so rows with equal dates come in no
  promised order.
- The day in a stored date string is not zero-padded (see Findings).
- A row built without a category gets `"Autre"`.
- A row whose category is null matches no selected category.
- Latitude and longitude are independently nullable in the row. Only the form
  keeps them paired.

## Model

| member | source | states |
|---|---|---|
| Entity.ConstructorDefaults | app/src/main/java/com/example/eventconnect/data/EventEntity.kt:8-21 | a row built from title, date and location alone has id 0, no description, image or coordinates, category "Autre" and isParticipating false |
| Entity.CoordinatesIndependentlyNullable | app/src/main/java/com/example/eventconnect/data/EventEntity.kt:18-19 | the row type allows a latitude without a longitude and the reverse |
| Dao.AssignedId | app/src/main/java/com/example/eventconnect/data/EventDao.kt:17-18 | id 0 is replaced by an id absent from the table and beyond every id ever used; any other id is kept |
| Dao.InsertEvent | app/src/main/java/com/example/eventconnect/data/EventDao.kt:17-18 | the row lands under its assigned id (replacing a row with that id), the key set grows by that id only, all other rows are unchanged, the table stays well formed (one row per id) |
| Dao.InsertEventCount | app/src/main/java/com/example/eventconnect/data/EventDao.kt:17-18 | a new row grows the table by one; re-inserting an existing id keeps the size |
| Dao.InsertThenDelete | app/src/main/java/com/example/eventconnect/data/EventDao.kt:29-30 | deleting the row a fresh insert created restores the previous rows |
| Dao.IdsNeverReused | app/src/main/java/com/example/eventconnect/data/EventEntity.kt:9 | after deleteEventById or deleteAll, a new insert never receives an id a deleted row had |
| Dao.DeleteEventById | app/src/main/java/com/example/eventconnect/data/EventDao.kt:29-30 | removes exactly the row with that id, keeps every other row, is a no-op for an absent id |
| Dao.DeleteEventByIdIdempotent | app/src/main/java/com/example/eventconnect/data/EventDao.kt:29-30 | deleting the same id twice equals deleting it once |
| Dao.DeleteAll | app/src/main/java/com/example/eventconnect/data/EventDao.kt:25-26 | leaves no rows and keeps the id sequence |
| Dao.ListingAfterDeleteAll | app/src/main/java/com/example/eventconnect/data/EventDao.kt:25-26 | every listing of a cleared table is empty |
| Dao.GetAllEvents | app/src/main/java/com/example/eventconnect/data/EventDao.kt:21-22 | returns every row of the table exactly once and nothing else, non-decreasing in date string order |
| Dao.GetAllEventsOnce | app/src/main/java/com/example/eventconnect/data/EventDao.kt:27-28 | returns every row of the table exactly once and nothing else, in no promised order |
| Dao.ListingsArePermutations | app/src/main/java/com/example/eventconnect/data/EventDao.kt:27-28 | any two listings of one table (the ordered and the unordered query) have the same multiset of rows |
| Dao.ListingLength | app/src/main/java/com/example/eventconnect/data/EventDao.kt:21-22 | a listing has exactly as many entries as the table has rows |
| Dao.ListingAfterInsert | app/src/main/java/com/example/eventconnect/data/EventDao.kt:17-22 | after inserting a new entity, every listing holds the stored row exactly once |
| CreateForm.InitialForm | app/src/main/java/com/example/eventconnect/CreateEventForm.kt:49-50 | the form opens with the last dropdown category selected, which is the row's default category "Autre", and with no coordinates |
| CreateForm.SelectCategory | app/src/main/java/com/example/eventconnect/CreateEventForm.kt:179-186 | picking a dropdown entry changes only the selected category and keeps the form invariant |
| CreateForm.ReceiveLocation | app/src/main/java/com/example/eventconnect/CreateEventForm.kt:62-69 | a location fix sets latitude and longitude together; no fix changes nothing |
| CreateForm.OnDatePicked | app/src/main/java/com/example/eventconnect/CreateEventForm.kt:80-88 | a day before today sets the past-date error and keeps the date text; today or later clears the error and stores the built date string; nothing else changes |
| CreateForm.ParseDateText | app/src/main/java/com/example/eventconnect/CreateEventForm.kt:86 | the stored date string splits on '-' into year, the 1-based month and the day, read back exactly |
| CreateForm.DateTextLayout | app/src/main/java/com/example/eventconnect/CreateEventForm.kt:86 | the stored string is year digits, '-', two month digits, '-', the unpadded day digits; a one-digit day leaves a '-' in the second-to-last position |
| CreateForm.MonthSegment | app/src/main/java/com/example/eventconnect/CreateEventForm.kt:86 | for months 0 to 11 the month segment is two digits whose value is month + 1 |
| CreateForm.DayIsNotPadded | app/src/main/java/com/example/eventconnect/CreateEventForm.kt:86 | (2025, 2, 5) is stored as "2025-03-5" |
| CreateForm.Submit | app/src/main/java/com/example/eventconnect/CreateEventForm.kt:246-271 | a blank title sets the title error and a blank date the date error, independently, errors are never cleared; an entity is produced iff neither is blank, with id 0, isParticipating false and the form's fields copied |
| CreateForm.SubmitReportsBothErrors | app/src/main/java/com/example/eventconnect/CreateEventForm.kt:248-256 | with both fields blank both errors are set in one press and nothing is created |
| CreateForm.AcceptedPickPassesDateCheck | app/src/main/java/com/example/eventconnect/CreateEventForm.kt:84-86 | an accepted pick leaves a non-blank date text, so the button raises no date error |
| CreateForm.RejectedPickKeepsDate | app/src/main/java/com/example/eventconnect/CreateEventForm.kt:81-83 | a rejected pick does not change whether a press creates an entity |
| CreateForm.CreatedEntityShape | app/src/main/java/com/example/eventconnect/CreateEventForm.kt:259-268 | from a form whose handlers kept it consistent, the created entity has both coordinates or neither and a category from the dropdown list |
| CreateForm.UnpaddedDayMisorders | app/src/main/java/com/example/eventconnect/CreateEventForm.kt:86 | 5 March 2025 is before 10 March 2025, yet its stored string sorts after |
| CreateForm.UnpaddedListingMisorders | app/src/main/java/com/example/eventconnect/data/EventDao.kt:21-22 | a date-ordered listing of as-written dates can put the later day first |
| CreateForm.PaddedOrderIsChronological | app/src/main/java/com/example/eventconnect/CreateEventForm.kt:86 | with the day padded like the month, string order of dates of four-digit years is exactly day order |
| CreateForm.PaddedListingIsChronological | app/src/main/java/com/example/eventconnect/data/EventDao.kt:21-22 | a date-ordered listing of padded dates is in day order |
| MainScreen.NearbyEvents | app/src/main/java/com/example/eventconnect/ui/theme/MainScreen.kt:210-220 | without both current coordinates the nearby list is empty; otherwise it holds exactly the events with both coordinates within 10 of the position, in list order, each as often as it occurs in the events |
| MainScreen.DisplayedEvents | app/src/main/java/com/example/eventconnect/ui/theme/MainScreen.kt:222-229 | the displayed list is an order-preserving subsequence of the events; an event is shown iff it passes the category filter (or the filter is "Toutes") and, when any event is near, is near |
| MainScreen.DisplayedIsOneFilter | app/src/main/java/com/example/eventconnect/ui/theme/MainScreen.kt:210-229 | the four-way choice equals a single filter of the full list by that rule |
| MainScreen.DisplayedCounts | app/src/main/java/com/example/eventconnect/ui/theme/MainScreen.kt:210-229 | a shown event occurs in the displayed list exactly as often as in the full list, and any other event not at all |
| MainScreen.NearbyAndCategory | app/src/main/java/com/example/eventconnect/ui/theme/MainScreen.kt:223-224 | with near events and a category, exactly the near events of that category are shown |
| MainScreen.NoNearbyFallsBackToCategory | app/src/main/java/com/example/eventconnect/ui/theme/MainScreen.kt:225-226 | with no near event and a category, the category match over the full list is shown, proximity ignored |
| MainScreen.AllCategoriesShowsNearbyOrAll | app/src/main/java/com/example/eventconnect/ui/theme/MainScreen.kt:227-228 | with "Toutes", the nearby list if non-empty, otherwise the full list unchanged |
| MainScreen.NullCategoryNeverMatches | app/src/main/java/com/example/eventconnect/ui/theme/MainScreen.kt:224-226 | an event without a category is never shown under a selected category |
| MainScreen.NearbyCanHideMatches | app/src/main/java/com/example/eventconnect/ui/theme/MainScreen.kt:223-224 | a near event of another category yields an empty list although a far event of the selected category exists |
| MainScreen.MusicNearOrigin | app/src/main/java/com/example/eventconnect/ui/theme/MainScreen.kt:210-229 | A (Musique, near), B (Sport, far), C (Musique, no coordinates) under "Musique" show [A] |
| MainScreen.NoPositionNoFilterIsIdentity | app/src/main/java/com/example/eventconnect/ui/theme/MainScreen.kt:220-228 | without a position and with "Toutes" the list is shown unchanged |
| MainScreen.CreateThenInsert | app/src/main/java/com/example/eventconnect/ui/theme/MainScreen.kt:116-121 | a valid form press followed by insertEvent adds one row under a fresh id with the form's title, date and category, not participating, and keeps every other row |
| MainScreen.DeleteShownRow | app/src/main/java/com/example/eventconnect/ui/theme/MainScreen.kt:233-235 | the delete action removes the shown row only and shrinks the table by one |

## Findings

| source | as written | input that shows it | evidently intended | confidence | as-written member | corrected member |
|---|---|---|---|---|---|---|
| app/src/main/java/com/example/eventconnect/CreateEventForm.kt:86 | the day is appended unpadded (`-$d`) while the month is padded to two digits | days (2025, 2, 5) and (2025, 2, 10) are stored as "2025-03-5" and "2025-03-10"; `ORDER BY date ASC` (EventDao.kt:21) lists the 10th before the 5th | the day padded to two digits like the month, so that string order on `date` is day order | not executed; high (the proof exhibits the strings) | CreateForm.UnpaddedDayMisorders | CreateForm.PaddedOrderIsChronological |

`OnDatePicked` keeps the as-written builder `DateText`, because that is what the
app stores and what the listing sorts. The corrected builder `PaddedDateText`
is what the ordering results use: `PaddedListingIsChronological` shows that a
date-sorted listing of padded dates is in day order. `ParseDate` reads both
forms.

## Left out

- Compose rendering, toasts, dropdown expansion, icons and theming: no behaviour beyond display.
- Location services, permission prompts and the image picker are platform I/O. A location fix and the picked image's URI string are inputs to the form handlers.
- `calculateDistance` (haversine, floating point) is not part of this model. It is the uninterpreted `distance` parameter.
- Kotlin `Double` is modelled as `real`. NaN and rounding are not modelled.
- Room plumbing (EventDatabase.kt, AppDatabase.kt): the singleton, locking and destructive migration are library wrappers and concurrency.
- Flow reactivity (`collectAsState`, coroutines): `Dao.GetAllEvents` is one snapshot of the live query.
- `getEventById` and `updateParticipation` are called from EventDetailScreen.kt but not declared in EventDao.kt, so the participation toggle is not modelled.
- Dao.GetAllEvents: SQLite's actual order among rows with equal dates is not modelled. The method returns one of the orders the query allows.
- SQLite errors (full disk, an exhausted 64-bit rowid sequence) are not modelled. Neither is the narrowing of a stored id to Kotlin's 32-bit `Int` on read-back. Ids are unbounded integers.
- CreateForm.OnDatePicked: the past-date check compares (year, month, day) triples. `java.util.Calendar` time of day, lenient roll-over of impossible days and the moment `todayCal` is captured are not modelled.
- Edits of the title, location and description text fields only assign a field. They are free inputs of `FormState` and not separate operations.
