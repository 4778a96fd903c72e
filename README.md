# Calendar booking rules, modelled in Dafny

This project models the core of a meeting-booking web service. Users can be
hosts. A host owns at most one calendar and publishes weekly time slots on
it: a start time, an end time and a list of weekdays (0 is Monday, 6 is
Sunday). Other users book a slot for a concrete date. The model covers
the five calendar endpoints and the topic-list helper they rely on. The web
framework, the database session and the HTTP status codes are left out.

Files and modules:

- `collections_sort.dfy`, module `Collections`: `deduplicate_and_sort`,
  the order-preserving removal of duplicates (`list(dict.fromkeys(items))`).
  It is a recursive function `Dedup` with lemmas. Together they show that
  the output is the only list that holds each input element once, in the
  order of first occurrence.
- `calendar_models.dfy`, module `CalendarModels`: the records (users,
  calendars, time slots, bookings) and the request payloads. It also holds
  the error kinds, the lookups the endpoints run against the database
  (`scalar_one_or_none` queries), the time-slot conflict predicate, and the
  constraints the database keeps true (`WellFormed`).
- `calendar_endpoints.dfy`, module `CalendarEndpoints`: each endpoint's
  decision as a function of the tables before the request. The result is
  the error raised, or the record to insert or rewrite. Lemmas state each
  endpoint's rules and error precedence against these functions.
- `calendar_store.dfy`, module `CalendarStore`: class `Store` holds the
  tables as sequences plus the next autoincrement id of each table. Each
  mutating endpoint is a method. It either returns an error and leaves
  every table unchanged, or appends or rewrites exactly one record. Every
  method keeps the database constraints (`Valid`). `CreateTimeSlot` runs
  the overlap query and then the weekday loop, as the endpoint does.

Modelling decisions:

- A date is its proleptic Gregorian day number, as Python's
  `date.toordinal()` gives it. `Weekday(d) = (d + 6) % 7` is then exactly
  `date.weekday()`. "Today" is a parameter of `CreateBooking`.
- A time of day is an integer. Only the order of two times matters.
- A host without a calendar reaches `host.calendar.id`
  (`appserver/apps/calendar/endpoints.py:168`) or `user.calendar.id`
  (`:118`). No domain exception covers this, so the request fails with a
  server error. The model makes that an explicit error, `ServerFault`,
  rather than a precondition.
- `create_calendar` does no check of its own. It relies on the unique
  constraint on `host_id` and turns the `IntegrityError` into
  `CalendarAlreadyExists`. With sequential requests a check against the
  stored calendars gives the same answer, so the model checks before it
  inserts.
- The request schemas are not part of this model. What they accept is
  taken from the tests:
  - weekdays in 0..6 and start before end, for time slots;
  - at least one topic, a description of at least 10 characters and a
    non-empty Google calendar id, for calendars;
  - topics deduplicated in order.
  These conditions are predicates (`ValidTimeSlotIn`,
  `ValidCalendarCreateIn`, `ValidCalendarUpdateIn`), and
  `ParseCalendarUpdate` gives the update schema. The store methods require
  payloads that passed the schema, because the endpoint never sees any
  other payload.
- The two user lookups differ:
  - `host_calendar_detail` looks the user up by name without a host
    filter (`appserver/apps/calendar/endpoints.py:22`);
  - `create_booking` looks up hosts only (`:155`).
- A booking against a host without a calendar fails at `host.calendar.id`
  (`:168`); the model answers `ServerFault`.
- An inverted time range is rejected before the endpoint runs
  (`tests/appserver/apps/calendar/test_timeslot_api.py:23-34`), so
  `CreateTimeSlot` requires `start < end`.

## Model

| member | source | states |
|---|---|---|
| `Collections.Dedup` | appserver/libs/collections/sort.py:1-21 | the output has no element twice, holds exactly the input's elements, and is never longer than the input |
| `Collections.DedupKeepsFirstOccurrenceOrder` | appserver/libs/collections/sort.py:20-21 | the output lists its elements in the order of their first occurrence in the input |
| `Collections.DedupCharacterization` | appserver/libs/collections/sort.py:1-21 | a list is the output if and only if it holds exactly the input's elements in first-occurrence order |
| `Collections.FirstOccurrenceOrderUnique` | appserver/libs/collections/sort.py:20-21 | two lists in first-occurrence order with the same elements are equal |
| `Collections.DedupOfDistinct` | appserver/libs/collections/sort.py:11-15 | a list with no duplicates is returned unchanged |
| `Collections.DedupIdempotent` | appserver/libs/collections/sort.py:21 | applying the function twice is the same as applying it once |
| `Collections.DedupAllEqual` | appserver/libs/collections/sort.py:17-18 | a non-empty list of equal elements collapses to that one element |
| `Collections.DedupExamples` | appserver/libs/collections/sort.py:5-18 | the five documented examples give the documented results |
| `CalendarModels.Weekday` | appserver/apps/calendar/endpoints.py:174 | the weekday of a date lies in 0..6, and day numbers 1 mod 7 (such as 1 January of year 1) are Mondays |
| `CalendarModels.ParseTopics` | tests/appserver/apps/calendar/test_calendar_update_api.py:62-72 | a topic list is accepted exactly when it is non-empty; the stored list holds the same topics, each once |
| `CalendarModels.ParseCalendarUpdate` | tests/appserver/apps/calendar/test_calendar_update_api.py:10-98 | an update body is accepted exactly when its supplied topics are non-empty, its description has at least 10 characters and its Google id is non-empty; supplied topics are stored deduplicated, other fields as given |
| `CalendarModels.FindUser` | appserver/apps/calendar/endpoints.py:152-160 | the user found has the name (and is a host when asked); none is found only when no such user exists |
| `CalendarModels.FindCalendarOf` | appserver/apps/calendar/endpoints.py:29-33 | the calendar found is owned by the user; none is found only when the user owns no calendar |
| `CalendarModels.FindSlot` | appserver/apps/calendar/endpoints.py:165-173 | the slot found has the id and is on the given calendar; none is found only when no slot has both |
| `CalendarEndpoints.CalendarDetail` | appserver/apps/calendar/endpoints.py:16-39 | HostNotFound exactly when no user, host or not, has that name; any other answer is CalendarNotFound or a stored calendar owned by a user of that name, shown in detail exactly when the viewer is that user |
| `CalendarEndpoints.CalendarDetailOfHost` | appserver/apps/calendar/endpoints.py:28-39 | for the named user: CalendarNotFound exactly when the user owns no calendar; otherwise that user's calendar, detailed exactly when the viewer is that user |
| `CalendarEndpoints.CreateCalendarDecision` | appserver/apps/calendar/endpoints.py:46-65 | no contract of its own; its rules are stated by `CreateCalendarSpec` and `CreateCalendarOnce` |
| `CalendarEndpoints.CreateCalendarSpec` | appserver/apps/calendar/endpoints.py:51-64 | a non-host gets GuestPermission first; a host with a calendar gets CalendarAlreadyExists; otherwise the new calendar has the host's id and the payload's fields |
| `CalendarEndpoints.CreateCalendarOnce` | appserver/apps/calendar/endpoints.py:54-64 | a created calendar keeps at most one calendar per host, and a second creation by that host is CalendarAlreadyExists |
| `CalendarEndpoints.ApplyUpdate` | appserver/apps/calendar/endpoints.py:85-95 | each field supplied in the update takes the new value; every omitted field, the id and the owner keep their prior values |
| `CalendarEndpoints.ApplyUpdateIdentityAndIdempotent` | appserver/apps/calendar/endpoints.py:85-95 | an update supplying nothing changes nothing; repeating an update changes nothing more |
| `CalendarEndpoints.ApplyUpdateKeepsValid` | tests/appserver/apps/calendar/test_calendar_update_api.py:62-98 | a valid calendar stays valid under an update the schema accepted |
| `CalendarEndpoints.UpdateCalendarDecision` | appserver/apps/calendar/endpoints.py:72-100 | no contract of its own; its rules are stated by `UpdateCalendarSpec` and `ApplyUpdate` |
| `CalendarEndpoints.UpdateCalendarSpec` | appserver/apps/calendar/endpoints.py:78-100 | a non-host gets GuestPermission first; a host without a calendar gets CalendarNotFound; otherwise the host's own calendar is rewritten by the update |
| `CalendarEndpoints.UpdateStoresDeduplicatedTopics` | tests/appserver/apps/calendar/test_calendar_update_api.py:41-46 | after an update listing topics, the calendar holds those topics deduplicated in order |
| `CalendarEndpoints.OverlapCandidates` | appserver/apps/calendar/endpoints.py:116-125 | the query returns exactly the slots of the calendar whose interval overlaps the new one (half-open test) |
| `CalendarEndpoints.FindWeekdayClash` | appserver/apps/calendar/endpoints.py:127-129 | the loop reports a clash exactly when some candidate shares a weekday with the new slot |
| `CalendarEndpoints.CandidatesClashIffConflict` | appserver/apps/calendar/endpoints.py:116-129 | the query followed by the loop finds a clash exactly when some slot of the calendar both overlaps in time and shares a weekday |
| `CalendarEndpoints.TimeSlotDecision` | appserver/apps/calendar/endpoints.py:107-139 | no contract of its own; its rules are stated by `TimeSlotGuestRefused`, `TimeSlotDecisionSpec` and `TimeSlotWithoutCalendar` |
| `CalendarEndpoints.TimeSlotGuestRefused` | appserver/apps/calendar/endpoints.py:112-113 | a non-host gets GuestPermission whatever else holds |
| `CalendarEndpoints.TimeSlotDecisionSpec` | appserver/apps/calendar/endpoints.py:115-138 | for a host with a calendar: TimeSlotOverlap exactly when an existing slot of that calendar has `start < new.end`, `end > new.start` and a common weekday; otherwise the new slot is on that calendar with the given times and weekdays |
| `CalendarEndpoints.TimeSlotWithoutCalendar` | appserver/apps/calendar/endpoints.py:118 | a host without a calendar makes slot creation fail with a server fault |
| `CalendarEndpoints.TouchingSlotsNeverConflict` | appserver/apps/calendar/endpoints.py:119-120 | slots that only touch at an endpoint never conflict |
| `CalendarEndpoints.DisjointWeekdaysNeverConflict` | appserver/apps/calendar/endpoints.py:128 | slots with no common weekday never conflict |
| `CalendarEndpoints.SlotsConflictSymmetric` | appserver/apps/calendar/endpoints.py:119-128 | whether two slots conflict does not depend on which was created first |
| `CalendarEndpoints.AdmittedSlotKeepsNoConflicts` | appserver/apps/calendar/endpoints.py:127-138 | a slot the guard admits keeps all stored slots pairwise free of conflicts |
| `CalendarEndpoints.TimeSlotScenario` | tests/appserver/apps/calendar/test_timeslot_api.py:56-99 | all eleven cases of the test: against a Monday to Wednesday 10:00-11:00 slot, the five Monday slots overlapping it in time are refused; the three slots apart in time or only touching it, and the three on other days, are admitted |
| `CalendarEndpoints.BookingDecision` | appserver/apps/calendar/endpoints.py:146-202 | no contract of its own; its rules are stated by `BookingHostNotFound` through `BookingWithSlot` and `BookingAdmitted` |
| `CalendarEndpoints.BookingHostNotFound` | appserver/apps/calendar/endpoints.py:152-160 | a booking is HostNotFound exactly when no host has that username; a user who is not a host does not count |
| `CalendarEndpoints.BookingSelf` | appserver/apps/calendar/endpoints.py:162-163 | once the host is found, the booking is SelfBooking exactly when the guest is the host |
| `CalendarEndpoints.BookingHostWithoutCalendar` | appserver/apps/calendar/endpoints.py:165-168 | after the identity checks, a host without a calendar makes booking fail with a server fault |
| `CalendarEndpoints.BookingSlotMissing` | appserver/apps/calendar/endpoints.py:165-173 | after the identity checks, a slot id that is missing or on another calendar is TimeSlotNotFound |
| `CalendarEndpoints.BookingWithSlot` | appserver/apps/calendar/endpoints.py:174-190 | for the host's slot: a weekday the slot does not offer is TimeSlotNotFound, then a date before today is PastDateBooking, then an identical booking is DuplicateBooking; admitted exactly when none applies |
| `CalendarEndpoints.PastDateIsStrict` | appserver/apps/calendar/endpoints.py:177-178 | a date on or after today is never PastDateBooking |
| `CalendarEndpoints.BookingAdmitted` | appserver/apps/calendar/endpoints.py:152-198 | an admitted booking is by the caller for the requested slot, date, topic and description; the slot is on the named host's calendar and offers the date's weekday; the host is not the caller, the date is not past and no identical booking exists |
| `CalendarEndpoints.AdmittedBookingKeepsUnique` | appserver/apps/calendar/endpoints.py:181-199 | storing an admitted booking keeps (guest, date, slot) unique among bookings |
| `CalendarEndpoints.RepeatedBookingIsDuplicate` | tests/appserver/apps/calendar/test_booking_api.py:136-155 | once an admitted booking is stored, the identical request is DuplicateBooking |
| `CalendarStore.Store.CreateCalendar` | appserver/apps/calendar/endpoints.py:46-65 | returns the decision of `CreateCalendarDecision`; on success appends exactly that calendar, otherwise changes nothing; keeps the store's constraints |
| `CalendarStore.Store.UpdateCalendar` | appserver/apps/calendar/endpoints.py:72-100 | returns the decision of `UpdateCalendarDecision`; on success rewrites only the caller's calendar, otherwise changes nothing; keeps the store's constraints |
| `CalendarStore.Store.CreateTimeSlot` | appserver/apps/calendar/endpoints.py:107-139 | returns the decision of `TimeSlotDecision` through the query and the weekday loop; on success appends exactly that slot, otherwise changes nothing; keeps slots free of conflicts |
| `CalendarStore.Store.CreateBooking` | appserver/apps/calendar/endpoints.py:146-202 | runs the checks in the endpoint's order and returns the decision of `BookingDecision`; on success appends exactly that booking, otherwise changes nothing; keeps bookings unique |
| `CalendarStore.BookingScenario` | tests/appserver/apps/calendar/test_booking_api.py:99-155 | after a guest's booking succeeds, the identical request is DuplicateBooking, and the host booking their own slot is SelfBooking |

## Left out

- The request schemas are not part of this model. Their checks come from
  the tests. The rules for calendar creation are taken to be those of the
  update, because no test exercises creation.
- The booking schema is not part of this model. A booking's topic and
  description are accepted as given.
- HTTP status codes and response shapes are left out. `CalendarOut` and
  `CalendarDetailOut` are reduced to the flag "detailed". The time slot
  embedded in the booking response is not returned.
- Concurrency is left out: async sessions, `commit`/`refresh`, and two
  requests racing past a check before the database's unique constraint
  decides. Any other unique constraint of the calendar table that could
  raise `IntegrityError` is left out too, because the table definition is
  not part of this model.
- `date.today()` is a parameter, and dates are day numbers. The Gregorian
  calendar (years, months) is not modelled.
- Users are given to the store when it is built. Sign-up, login, password
  hashing (`appserver/apps/account`) and the application wiring
  (`appserver/app.py`) are not part of this model.
- The booking update, listing, pagination and get-by-id endpoints are left
  out, because their source is not part of this model.
- Weekday lists are sequences. A list that names a day twice is not
  rejected, because no rule in the endpoints depends on that.
