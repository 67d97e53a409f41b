# AgendaSimples scheduling core, modelled in Dafny

AgendaSimples publishes bookable time slots for two services ("Carregamento", loading, and
"Descarregamento", unloading) and lets clients book one, receiving a confirmation code. The
model covers the slot/appointment core:

- `schema.dfy` (module `Schema`): the service and status enums, the `AvailableSlot` and
  `Appointment` records and the request validators `createSlotSchema` and `bookingFormSchema`,
  as functions from a request body to a validated value or a rejection.
- `tables.dfy` (module `Tables`): the two database tables as maps keyed by id, the join that
  turns an appointment row and its slot into an `Appointment`, the slot-update and
  appointment-update rules, and the mirror invariant (every appointment's slot exists and is
  unavailable, and no two appointments share a slot) with the lemmas that booking, cancelling
  and blocking keep it. The invariant is one-way: a slot can be unavailable with no appointment
  on it, for instance after blocking.
- `storage.dfy` (module `Storage`): the class `DatabaseStorage` with its two tables as `map`
  fields and one method per storage operation. Listings are proved sorted by time and to list
  exactly the rows the SQL query selects.
- `routes.dfy` (module `Routes`): every HTTP handler as a method taking the store and the
  request, returning the status code (200, 201, 204, 400, 404, 500) and the body, with the new
  state of the store stated in full. `stats.dfy` (module `Stats`) holds the statistics
  computation of `GET /api/stats`.
- `admin.dfy` (module `Admin`) and `reports.dfy` (module `Reports`): the list logic of the two
  client pages: the admin search and status filter, the slot-selection toggle, the block
  dialog's list, the report filter, the time-band histogram (a loop over a dictionary) and
  the bar scale.
- `clock.dfy`, `lists.dfy`, `options.dfy`: instants as integer milliseconds with local time at
  a fixed UTC−3 offset, `filter`/`find`/`sort` on sequences, and `Option`/`Result`.

Ids, confirmation codes and the current instant are parameters of the operations that create
them. Date strings reach the model through a parameter `parse` (text to instant, `None` for an
invalid date) and, where the code compares strings, `toIso` (instant to ISO text).

Three places where the code does something other than what it evidently means to do; the
model follows the code and puts the intended behaviour beside it:

- The week count of `GET /api/stats` is meant to cover the current week from Sunday 00:00 to
  Saturday 23:59:59.999; `server/routes.ts:253-263` copies the week start from an instant
  already set to 23:59:59.999, so the window starts on Sunday at 23:59:59.999 (see Findings).
- Cancelling an appointment is meant to free the slot it held, which `deleteAppointment`
  does (`server/storage.ts:278-292`); the `DELETE /api/appointments/:id` handler
  (`server/routes.ts:179-187`) first also frees the first slot listed with the same time and
  service, which may be another booking's slot (see Findings).
- `DELETE /api/slots/:id` deletes the slot row whether or not an appointment still holds it
  (`server/storage.ts:114-115`), and the joined listings then drop the orphaned appointment
  (an inner join). The mirror invariant is therefore not kept by `DELETE /api/slots/:id` or by
  a `PUT /api/slots/:id` that sets `disponivel`, and the model does not claim it there.

## Model

| member | source | states |
|---|---|---|
| Clock.DayStart | AgendaSimples/server/routes.ts:252 | local midnight of an instant's day: at most the instant and less than a day before it |
| Clock.HourOf | AgendaSimples/client/src/pages/reports.tsx:127 | `getHours()` lies in 0..23 and the instant falls within that hour of its local day |
| Clock.DayOfWeek | AgendaSimples/server/routes.ts:261 | `getDay()` lies in 0..6 |
| Clock.LocalMidnight | AgendaSimples/client/src/pages/reports.tsx:66 | a local date-time string at 00:00 is the first instant of that local day |
| Clock.SameDayWindow | AgendaSimples/server/storage.ts:38-55 | an instant lies between 00:00:00.000 and 23:59:59.999 of a day exactly when it falls on that local day |
| Clock.ShiftDays | AgendaSimples/server/routes.ts:220-221 | moving by k whole days moves the local day by k, keeps the time of day, and moves the weekday by k modulo 7 |
| Clock.MinuteOf | AgendaSimples/server/routes.ts:226 | `getMinutes()` lies in 0..59 |
| Clock.TimeOfDayParts | AgendaSimples/server/routes.ts:226 | `setHours(h, m, 0, 0)` stays on the same day, has hour h and minute m, and is a whole minute |
| Lists.SortBy | AgendaSimples/client/src/pages/admin.tsx:428 | sorting by a numeric key yields an ascending permutation of its input |
| Lists.Find | AgendaSimples/server/routes.ts:126-130 | `find` returns nothing exactly when no element satisfies the test, otherwise the first element that does |
| Schema.ParseService | AgendaSimples/shared/schema.ts:7 | the service enum accepts exactly its two names and maps each back to itself |
| Schema.ParseStatus | AgendaSimples/shared/schema.ts:30 | the status enum accepts exactly its three names and maps each back to itself |
| Schema.StatusWithDefault | AgendaSimples/shared/schema.ts:30 | an absent status reads as "confirmado"; a present one is accepted exactly when it is one of the three names |
| Schema.ParseCreateSlot | AgendaSimples/shared/schema.ts:56-61 | a slot request is valid exactly when it has a non-empty time and a known service; availability defaults to true |
| Schema.Utf16Length | AgendaSimples/shared/schema.ts:46 | a string's JavaScript `length` counts at least one and at most two UTF-16 units per character |
| Schema.NameMinimum | AgendaSimples/shared/schema.ts:46 | `min(2)` on the name holds exactly for two or more characters or one character above U+FFFF |
| Schema.ParseBookingForm | AgendaSimples/shared/schema.ts:45-51 | a booking is valid exactly when time, known service, a name whose UTF-16 `length` is at least two, an accepted email and a known or absent status are present; optional fields pass through unchanged |
| Tables.Join | AgendaSimples/server/storage.ts:119-136 | a listed appointment takes its id from the appointment row and its time and service from the slot |
| Tables.Bookable | AgendaSimples/server/storage.ts:184-188 | the bookable slots are exactly those with the requested time and service that are available |
| Tables.ApplySlotUpdate | AgendaSimples/server/storage.ts:75-112 | each field present in the update replaces the slot's field; the id and creation time never change |
| Tables.SlotUpdateIdempotent | AgendaSimples/server/storage.ts:75-112 | applying the same slot update twice equals applying it once |
| Tables.SetAvailability | AgendaSimples/server/storage.ts:214 | setting one slot's flag changes that slot's flag and nothing else in the table |
| Tables.ApplyAppointmentUpdate | AgendaSimples/server/storage.ts:231-276 | an appointment update changes only status and notes, each only when present |
| Tables.BookableIsFree | AgendaSimples/server/storage.ts:178-217 | under the mirror invariant, no appointment references a bookable slot, so a booking never double-books |
| Tables.BookingKeepsMirror | AgendaSimples/server/storage.ts:178-217 | booking an available slot and marking it unavailable keeps the mirror invariant |
| Tables.CancellingKeepsMirror | AgendaSimples/server/storage.ts:278-292 | deleting an appointment and freeing its slot keeps the mirror invariant |
| Tables.BlockingKeepsMirror | AgendaSimples/server/routes.ts:83-86 | marking any slot unavailable keeps the mirror invariant |
| Tables.BookCancelRebook | AgendaSimples/server/storage.ts:178-292 | booking a slot makes it unbookable, cancelling that booking makes it bookable again, and the invariant holds throughout |
| Storage.OrNull | AgendaSimples/server/storage.ts:205-207 | an absent or empty optional field is stored as null, any other value as itself |
| Storage.StatusOrDefault | AgendaSimples/server/storage.ts:209 | an absent or empty status is stored as "confirmado", any other as given |
| Storage.DatabaseStorage.constructor | AgendaSimples/server/storage.ts:317 | the store starts with two empty tables |
| Storage.DatabaseStorage.GetAvailableSlots | AgendaSimples/server/storage.ts:25-36 | lists every slot once, in ascending time |
| Storage.DatabaseStorage.GetAvailableSlotsByDate | AgendaSimples/server/storage.ts:38-55 | lists, in ascending time, exactly the slots between local 00:00:00.000 and 23:59:59.999 of the given day |
| Storage.DatabaseStorage.CreateAvailableSlot | AgendaSimples/server/storage.ts:57-73 | inserts the new slot under the given id and returns it; nothing else changes |
| Storage.DatabaseStorage.UpdateAvailableSlot | AgendaSimples/server/storage.ts:75-112 | an empty update or an unknown id returns nothing and changes nothing; otherwise the slot is replaced by the updated slot, which is returned |
| Storage.DatabaseStorage.DeleteAvailableSlot | AgendaSimples/server/storage.ts:114-117 | removes the slot and reports whether it existed |
| Storage.DatabaseStorage.GetAppointments | AgendaSimples/server/storage.ts:119-136 | lists every appointment whose slot exists, joined with it, once, in ascending time |
| Storage.DatabaseStorage.GetAppointmentsByEmail | AgendaSimples/server/storage.ts:138-156 | lists, in ascending time, exactly the joined appointments with that email |
| Storage.DatabaseStorage.GetAppointmentsByDateRange | AgendaSimples/server/storage.ts:158-176 | lists, in ascending time, exactly the joined appointments whose time lies in the closed range |
| Storage.DatabaseStorage.CreateAppointment | AgendaSimples/server/storage.ts:178-229 | with no bookable slot it fails and changes nothing; otherwise it books one bookable slot, inserts the row with null/default fields, marks the slot unavailable and returns the joined record; the mirror invariant is kept |
| Storage.DatabaseStorage.UpdateAppointment | AgendaSimples/server/storage.ts:231-276 | an empty update or an unknown id returns nothing; otherwise the row takes the new status/notes and the joined record is returned (a failure when its slot is gone); slots never change |
| Storage.DatabaseStorage.DeleteAppointment | AgendaSimples/server/storage.ts:278-292 | removes the appointment and frees its slot, reporting whether it existed; the mirror invariant is kept |
| Storage.DatabaseStorage.GetAppointmentByCode | AgendaSimples/server/storage.ts:294-314 | returns nothing exactly when no joined appointment has the code, otherwise one that has it |
| Stats.TodayWindow | AgendaSimples/server/routes.ts:251-258 | the "today" window holds exactly the instants on the current local day |
| Stats.EndOfDayParts | AgendaSimples/server/routes.ts:253 | moving the clock to 23:59:59.999 keeps the day and the weekday |
| Stats.StatsWeekWindowBounds | AgendaSimples/server/routes.ts:253-263 | the week window as written runs from Sunday 23:59:59.999 to Saturday 23:59:59.999 of the current week |
| Stats.IntendedWeekWindow | AgendaSimples/server/routes.ts:260-268 | the corrected week window holds exactly the instants of the current Sunday-to-Saturday week |
| Stats.IntendedWeekMember | AgendaSimples/server/routes.ts:260-263 | the seven days from the current Sunday's midnight are exactly the instants of the current week |
| Stats.StatsWeekMissesSunday | AgendaSimples/server/routes.ts:253-268 | any instant on the current week's Sunday before 23:59:59.999 is in the week but outside the window as written |
| Stats.SlotTotals | AgendaSimples/server/routes.ts:272-281 | available and occupied slot counts add up to the number of slots |
| Stats.ServiceTotals | AgendaSimples/server/routes.ts:270-279 | the two service totals add up to at most the appointment count, and to exactly it when every service is a known name |
| Stats.ConformingServiceTotals | AgendaSimples/server/routes.ts:270-279 | on appointments that satisfy the schema the two service totals add up to the appointment count |
| Stats.WindowCountsBounded | AgendaSimples/server/routes.ts:255-268 | the today and week counts never exceed the appointment count |
| Stats.TodayCount | AgendaSimples/server/routes.ts:255-258 | on a listing of the appointments, the today count is the number of appointments on the current local day |
| Stats.WeekCount | AgendaSimples/server/routes.ts:265-268 | on a listing, the week count is the number of appointments inside the window as written |
| Stats.ServiceCount | AgendaSimples/server/routes.ts:270-271 | on a listing, a service total is the number of appointments of that service |
| Stats.SlotCounts | AgendaSimples/server/routes.ts:272-273 | on a listing of the slots, the counts are the numbers of available and of unavailable slots |
| Routes.SlotsOfDay | AgendaSimples/server/storage.ts:38-55 | the by-date query selects exactly the slots on the given local day |
| Routes.GetSlots | AgendaSimples/server/routes.ts:9-16 | 200 with every slot once, in ascending time |
| Routes.GetSlotsByDate | AgendaSimples/server/routes.ts:18-26 | an invalid date gives 500; otherwise 200 with exactly the slots of that local day, in ascending time |
| Routes.PostSlot | AgendaSimples/server/routes.ts:28-40 | an invalid body gives 400 and an invalid time 500, neither changing anything; otherwise 201 with the created slot, which is added and nothing else changes |
| Routes.PutSlot | AgendaSimples/server/routes.ts:42-56 | an invalid time gives 500; an empty update or unknown id 404; otherwise 200 with the updated slot, stored in place |
| Routes.DeleteSlot | AgendaSimples/server/routes.ts:58-71 | 404 for an unknown id; otherwise 204 and the slot is gone |
| Routes.KnownStep | AgendaSimples/server/routes.ts:83-86 | each id adds one to the blocked count exactly when it names a slot |
| Routes.BlockAll | AgendaSimples/server/routes.ts:83-86 | blocking a list of ids keeps the set of slots |
| Routes.BlockAllIdempotent | AgendaSimples/server/routes.ts:83-86 | blocking the same ids twice equals blocking them once |
| Routes.BlockAllKeepsMirror | AgendaSimples/server/routes.ts:83-86 | blocking keeps the mirror invariant |
| Routes.BlockAllBookable | AgendaSimples/server/routes.ts:83-86 | after blocking, the bookable slots are the previously bookable ones not named in the list |
| Routes.PostBlock | AgendaSimples/server/routes.ts:74-95 | a missing or empty id list gives 400 and changes nothing; otherwise 200, every named slot is unavailable and the count is the number of ids (with repeats) that name a slot |
| Routes.BlockEach | AgendaSimples/server/routes.ts:82-86 | the loop over the ids leaves the table given by `BlockAll` and counts the ids, with repeats, that named a slot |
| Routes.BlockedStep | AgendaSimples/server/routes.ts:83-86 | blocking one more listed id marks it unavailable and adds one to the count exactly when it names a slot |
| Routes.PostBlockTwice | AgendaSimples/server/routes.ts:74-95 | repeating a block request changes nothing more and reports the same count |
| Routes.GetAppointmentList | AgendaSimples/server/routes.ts:98-118 | a non-empty email wins; otherwise two non-empty dates select the closed range (500 when one is invalid); otherwise all appointments; listings are in ascending time |
| Routes.PreCheckFindsBookable | AgendaSimples/server/routes.ts:124-134 | the availability pre-check finds a slot exactly when the time string is canonical and a bookable slot exists, and the slot it finds is bookable |
| Routes.PostAppointment | AgendaSimples/server/routes.ts:120-150 | 400 for an invalid body or when no slot is bookable, 500 for an invalid time, each changing nothing; otherwise 201, one bookable slot is booked and marked unavailable and the row inserted; the mirror invariant is kept |
| Routes.PutAppointment | AgendaSimples/server/routes.ts:152-166 | an empty update or unknown id gives 404; otherwise status/notes are stored and 200 returns the joined record (500 when its slot is gone) |
| Routes.FindById | AgendaSimples/server/routes.ts:171-176 | looking the id up in the listing finds it exactly when the appointment and its slot exist, and returns the joined record |
| Routes.DeleteAppointmentAsWritten | AgendaSimples/server/routes.ts:168-194 | 404 when the appointment is not listed; otherwise 204, the appointment is gone, and the slot table is as `FreesAsWritten` describes for some slot with the same time and service: that slot is freed and so is the appointment's own |
| Routes.DeleteAppointmentRoute | AgendaSimples/server/routes.ts:168-194 | corrected handler: 404 when not listed; otherwise 204, the appointment is gone and only its own slot is freed; the mirror invariant is kept |
| Routes.TwinsMirrored | AgendaSimples/server/routes.ts:179-187 | two bookings of two slots with the same time and service satisfy the mirror invariant |
| Routes.TwinsListedBA | AgendaSimples/server/routes.ts:179-183 | a time-sorted listing may list the second twin first, and then `find` picks it |
| Routes.TwinsAfterDelete | AgendaSimples/server/routes.ts:185-189 | freeing both twins while only one booking goes breaks the invariant: the remaining booking's slot is bookable |
| Routes.DeleteAsWrittenFreesAnotherBooking | AgendaSimples/server/routes.ts:178-189 | on a mirrored two-booking store, an outcome that `DeleteAppointmentAsWritten`'s contract allows (the freed slot is the one first in a legal time-sorted listing) leaves the other booking's slot available while it is still booked, breaking the invariant |
| Routes.GetAppointmentByCodeRoute | AgendaSimples/server/routes.ts:196-209 | 404 exactly when no appointment has the code; otherwise 200 with one that has it |
| Routes.Planned | AgendaSimples/server/routes.ts:219-237 | the slots planned up to a day and entry number the loops have reached, one per (day, entry) pair |
| Routes.PlannedNext | AgendaSimples/server/routes.ts:223-236 | each inner iteration appends the slot of the next entry on the current day, with the next id |
| Routes.PlannedNextDay | AgendaSimples/server/routes.ts:219-237 | finishing a day's entries is starting the next day |
| Routes.PlannedAt | AgendaSimples/server/routes.ts:219-237 | position day·n+k of the plan is the slot of entry k on day d |
| Routes.BulkWeekSlot | AgendaSimples/server/routes.ts:217-233 | the slot for entry k on day d has the next id, the entry's service, is available, falls d days after the start day at the entry's hour and minute, on a whole minute, and was created at its own clock reading |
| Routes.CreateEntrySlot | AgendaSimples/server/routes.ts:224-235 | one entry with a readable time stores the planned slot of that entry under the next id, created at the next clock reading, and appends it to the created slots |
| Routes.StopsAt | AgendaSimples/server/routes.ts:224-226 | an unreadable entry met after readable ones is the first unreadable entry, and only the first day can meet it |
| Routes.CreateDaySlots | AgendaSimples/server/routes.ts:223-236 | one day of the bulk loop: with readable entries it creates that day's slots in order; an unreadable entry stops the request after the slots before it |
| Routes.PostBulkWeek | AgendaSimples/server/routes.ts:212-243 | with no entries 201 and nothing created; an invalid start 500; otherwise 201 with seven days of slots in order, or 500 after the slots created before the first unreadable entry, which stay stored |
| Routes.GetStats | AgendaSimples/server/routes.ts:246-286 | 200 with the numbers of appointments today, in the week window as written and per service, and of available and occupied slots |
| Admin.Lower | AgendaSimples/client/src/pages/admin.tsx:168-170 | lower-casing keeps the length and lower-cases each character on its own |
| Admin.LowerIdempotent | AgendaSimples/client/src/pages/admin.tsx:168-170 | lower-casing twice is lower-casing once |
| Admin.IncludesAt | AgendaSimples/client/src/pages/admin.tsx:168-170 | `includes` holds exactly when the term occurs at some position |
| Admin.SearchIgnoresCase | AgendaSimples/client/src/pages/admin.tsx:167-170 | the search does not depend on the case of the term, and the empty term matches every appointment |
| Admin.FilteredAppointments | AgendaSimples/client/src/pages/admin.tsx:166-175 | an appointment is shown exactly when it matches the search and the status choice |
| Admin.FilteredKeepsOrder | AgendaSimples/client/src/pages/admin.tsx:166-175 | the table is a subsequence of the appointments, and all of them with no search and no status choice |
| Admin.Toggle | AgendaSimples/client/src/pages/admin.tsx:438-442 | a selected id is removed (every copy), leaving a shorter subsequence; an unselected one is appended at the end; other ids are untouched |
| Admin.ToggleTwice | AgendaSimples/client/src/pages/admin.tsx:438-442 | clicking an unselected slot twice restores the selection; clicking a selected one twice moves it to the end |
| Admin.BlockDialogSlots | AgendaSimples/client/src/pages/admin.tsx:426-428 | the dialog lists exactly the available slots, as a permutation of them, in ascending time |
| Admin.DialogKeepsServerOrder | AgendaSimples/client/src/pages/admin.tsx:426-428 | on a time-sorted slot list the dialog shows the available slots in the given order |
| Reports.InDateRangeDays | AgendaSimples/client/src/pages/reports.tsx:65-66 | with both ends read in local time, a whole-second instant is in range exactly when its day lies between the two days |
| Reports.AsWrittenAddsEveningBefore | AgendaSimples/client/src/pages/reports.tsx:65-66 | the date test as written keeps exactly what the local-time test keeps plus 21:00–24:00 of the day before the start |
| Reports.TodayReportKeepsYesterdayEvening | AgendaSimples/client/src/pages/reports.tsx:39-43 | the "today" report keeps an appointment at 23:00 on the previous day |
| Reports.FilteredAppointments | AgendaSimples/client/src/pages/reports.tsx:61-72 | an appointment is kept exactly when its date passes the test and both service and status choices match |
| Reports.FilteredKeepsOrder | AgendaSimples/client/src/pages/reports.tsx:61-72 | the report is a subsequence of the appointments, and all of them with an empty date field and no choices |
| Reports.Band | AgendaSimples/client/src/pages/reports.tsx:126-134 | every hour falls in one of the five bands, and in "Outros" exactly outside 08–12 and 14–18 |
| Reports.CountStep | AgendaSimples/client/src/pages/reports.tsx:136 | one more appointment adds one to its band's count and leaves the others |
| Reports.CountedBands | AgendaSimples/client/src/pages/reports.tsx:126-138 | only the five bands can hold a count |
| Reports.HistogramAt | AgendaSimples/client/src/pages/reports.tsx:126-138 | a band is in the histogram exactly when it has appointments, and holds their number |
| Reports.HistogramStep | AgendaSimples/client/src/pages/reports.tsx:136 | one more appointment increments its band's entry, creating it at 1 |
| Reports.HistogramPrefix | AgendaSimples/client/src/pages/reports.tsx:125-137 | the histogram of one more appointment of the list is the previous histogram with that appointment's band incremented |
| Reports.TimeDistribution | AgendaSimples/client/src/pages/reports.tsx:126-138 | the loop over the filtered appointments builds exactly their histogram |
| Reports.CountsAddUp | AgendaSimples/client/src/pages/reports.tsx:126-138 | every appointment falls in exactly one band, so the five counts add up to the number of appointments |
| Reports.HistogramAddsUp | AgendaSimples/client/src/pages/reports.tsx:126-138 | the histogram's entries add up to the number of filtered appointments, and every entry is at least 1 and one of the five bands |
| Reports.Values | AgendaSimples/client/src/pages/reports.tsx:140 | the listed values are exactly the histogram's entries |
| Reports.MaxCount | AgendaSimples/client/src/pages/reports.tsx:140 | the scale is at least 1, at least every value, and either 1 or one of the values |
| Reports.MaxCountBoundsEntries | AgendaSimples/client/src/pages/reports.tsx:140 | the scale of a histogram is at least 1 and at least every entry, and is 1 or one of the entries |

## Left out

- The database: SQL text, the connection pool and database errors. Each table is a map; a
  failing query, the `catch` branches it would reach and their 500 responses are not modelled
  except where the model shows what raises them (an invalid date, a failed booking).
- Concurrency: each handler runs as one atomic step. The awaits between the availability
  pre-check and the booking, where two requests could interleave, are not modelled.
- Randomness and the clock: `randomUUID`, the `Math.random` confirmation code and `new Date()`
  are parameters (fresh ids are required to be unused). The bulk-week handler inserts one row
  per call of `createAvailableSlot`, each reading the clock; it takes one id and one clock
  reading per row, in insert order.
- Date text: parsing ISO strings and formatting with `toISOString` are the parameters `parse`
  and `toIso`; their agreement on canonical strings is a stated assumption of
  `Routes.PostAppointment`. Local time is a fixed UTC−3 offset with no daylight saving.
- Routes.GetSlotsByDate: date strings without a time (`new Date("yyyy-MM-dd")` is UTC midnight)
  are whatever `parse` makes of them; the model does not fix that reading.
- Request bodies of other JSON shapes: `slotIds` that is not an array is the `None` case of
  `Routes.PostBlock`, and its elements are taken to be strings; `timeSlots` is a sequence of
  entries whose `"hh:mm"` text is already split into optional numbers (`None` where `parseInt`
  gives NaN); other body fields are taken to have their declared types.
- Routes.PostBulkWeek: hours and minutes outside 0–23 and 0–59 are added to the day as given (as
  `setHours` does); `Routes.BulkWeekSlot` states the day, hour and minute only for entries within range.
- The report periods of `getDateRange` (today, week, month): calendar arithmetic with
  `date-fns`; the range reaches `Reports.FilteredAppointments` as two day numbers or empty
  fields.
- Admin.Lower: `toLowerCase` is modelled for the ASCII capitals only; other scripts are left
  unchanged.
- zod's email check is the parameter `isEmail`.
- Reports.Values: `Object.values` lists the entries in insertion order; the model lists them in
  band order, which the maximum does not depend on.
- Floating point: the percentage shares and bar widths of the reports page.
- The XLSX export, the printed receipt, the email stub, and all page rendering and other pages
  and components.
- Stats and reports keep the code's behaviour: `Routes.GetStats` counts with the week window as
  written and `Reports.FilteredAppointments` uses the date test as written; the corrected
  definitions are beside them.

## Findings

| source | as written | input that shows it | evidently intended | confidence | as-written member | corrected member |
|---|---|---|---|---|---|---|
| AgendaSimples/server/routes.ts:253-263 | `startOfWeek` is copied from `today` after `setHours(23, 59, 59, 999)`, so the week window starts on Sunday at 23:59:59.999 | any appointment on the current week's Sunday before 23:59:59.999, e.g. 10:00 | the week from Sunday 00:00:00.000 to Saturday 23:59:59.999 | not executed | Stats.StatsWeekMissesSunday | Stats.IntendedWeekWindow |
| AgendaSimples/server/routes.ts:179-187 | the handler frees the first listed slot with the same time and service, besides the slot that `deleteAppointment` frees | slots "a" and "b" at the same time and service, booked by appointments "1" and "2"; the listing gives "b" first; deleting "1" frees "b" while "2" still holds it | free only the deleted appointment's own slot | not executed | Routes.DeleteAsWrittenFreesAnotherBooking | Routes.DeleteAppointmentRoute |
| AgendaSimples/client/src/pages/reports.tsx:65-66 | the range start `new Date("yyyy-MM-dd")` is UTC midnight, 21:00 local on the day before, while the end is read in local time | the "today" report of day d and an appointment at 23:00 on day d − 1 | both ends in local time: from 00:00 of the start day | not executed | Reports.TodayReportKeepsYesterdayEvening | Reports.InDateRangeDays |
