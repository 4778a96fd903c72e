/**
 * The records of the calendar application (users, calendars, weekly time
 * slots and bookings), the request payloads of its endpoints, the error
 * kinds they raise, and the facts that the database and the request
 * schemas guarantee about them.
 */
module CalendarModels {
  import opened Collections

  datatype Option<+T> = None | Some(value: T)

  /** The conditions the calendar endpoints raise, one per exception class. */
  datatype Error =
    | HostNotFound
    | CalendarNotFound
    | CalendarAlreadyExists
    | GuestPermission
    | TimeSlotOverlap
    | TimeSlotNotFound
    | SelfBooking
    | PastDateBooking
    | DuplicateBooking
      /** A request body rejected by its schema before the endpoint runs (HTTP 422). */
    | InvalidPayload
      /**
       * The unhandled failure of reading `.calendar.id` of a host that has
       * no calendar: no domain exception, the request ends with a server error.
       */
    | ServerFault

  datatype Result<+T> = Ok(value: T) | Err(error: Error)

  /** A date, as its proleptic Gregorian day number (`date.toordinal()`; day 1 is Monday 1 January of year 1). */
  type Date = int

  /** A time of day; only the order of two times matters. */
  type TimeOfDay = int

  /** `date.weekday()`: 0 is Monday, ..., 6 is Sunday. */
  function Weekday(d: Date): (w: int)
    ensures 0 <= w <= 6
    ensures d % 7 == 1 ==> w == 0
  {
    (d + 6) % 7
  }

  /** The identity provider's current user. */
  datatype User = User(id: nat, username: string, isHost: bool)

  datatype Calendar = Calendar(
    id: nat,
    hostId: nat,
    topics: seq<string>,
    description: string,
    googleCalendarId: string)

  /** A weekly window `[start, end)` offered on each day listed in `weekdays`. */
  datatype TimeSlot = TimeSlot(
    id: nat,
    calendarId: nat,
    start: TimeOfDay,
    end: TimeOfDay,
    weekdays: seq<int>)

  datatype Booking = Booking(
    id: nat,
    guestId: nat,
    timeSlotId: nat,
    when: Date,
    topic: string,
    description: string)

  /** The tables the endpoints read and write. */
  datatype Db = Db(
    users: seq<User>,
    calendars: seq<Calendar>,
    slots: seq<TimeSlot>,
    bookings: seq<Booking>)

  // Request payloads

  datatype CalendarCreateIn = CalendarCreateIn(topics: seq<string>, description: string, googleCalendarId: string)

  /** A partial update: `None` is a field the request leaves out. */
  datatype CalendarUpdateIn = CalendarUpdateIn(
    topics: Option<seq<string>>,
    description: Option<string>,
    googleCalendarId: Option<string>)

  datatype TimeSlotCreateIn = TimeSlotCreateIn(start: TimeOfDay, end: TimeOfDay, weekdays: seq<int>)

  datatype BookingCreateIn = BookingCreateIn(when: Date, topic: string, description: string, timeSlotId: nat)

  // What the request schemas accept

  predicate ValidWeekdays(weekdays: seq<int>) {
    forall d :: d in weekdays ==> 0 <= d <= 6
  }

  predicate ValidTimeSlotIn(p: TimeSlotCreateIn) {
    p.start < p.end && ValidWeekdays(p.weekdays)
  }

  /** Topics as the schema stores them: at least one, each once. */
  predicate ValidTopics(topics: seq<string>) {
    |topics| > 0 && NoDuplicates(topics)
  }

  predicate ValidDescription(description: string) {
    |description| >= 10
  }

  predicate ValidGoogleCalendarId(id: string) {
    |id| > 0
  }

  predicate ValidCalendarCreateIn(p: CalendarCreateIn) {
    ValidTopics(p.topics) && ValidDescription(p.description) && ValidGoogleCalendarId(p.googleCalendarId)
  }

  predicate ValidCalendarUpdateIn(p: CalendarUpdateIn) {
    && (p.topics.Some? ==> ValidTopics(p.topics.value))
    && (p.description.Some? ==> ValidDescription(p.description.value))
    && (p.googleCalendarId.Some? ==> ValidGoogleCalendarId(p.googleCalendarId.value))
  }

  /** The topics field of a request body: rejected when empty, otherwise deduplicated in order. */
  function ParseTopics(raw: seq<string>): (r: Result<seq<string>>)
    ensures r.Ok? <==> |raw| > 0
    ensures r.Ok? ==> ValidTopics(r.value) && (forall t :: t in r.value <==> t in raw)
    ensures r.Err? ==> r.error == InvalidPayload
  {
    if |raw| == 0 then Err(InvalidPayload)
    else
      assert raw[0] in raw;
      Ok(Dedup(raw))
  }

  /** The body of a calendar update request, as the schema checks and normalises it. */
  function ParseCalendarUpdate(raw: CalendarUpdateIn): (r: Result<CalendarUpdateIn>)
    ensures r.Ok? ==> ValidCalendarUpdateIn(r.value)
    ensures r.Ok? <==>
      && (raw.topics.Some? ==> |raw.topics.value| > 0)
      && (raw.description.Some? ==> ValidDescription(raw.description.value))
      && (raw.googleCalendarId.Some? ==> ValidGoogleCalendarId(raw.googleCalendarId.value))
    ensures r.Ok? ==> r.value.description == raw.description && r.value.googleCalendarId == raw.googleCalendarId
    ensures r.Ok? ==> r.value.topics.Some? == raw.topics.Some?
    ensures r.Ok? && raw.topics.Some? ==> r.value.topics.value == Dedup(raw.topics.value)
  {
    if raw.description.Some? && !ValidDescription(raw.description.value) then Err(InvalidPayload)
    else if raw.googleCalendarId.Some? && !ValidGoogleCalendarId(raw.googleCalendarId.value) then Err(InvalidPayload)
    else match raw.topics
      case None => Ok(raw)
      case Some(t) =>
        match ParseTopics(t)
        case Err(e) => Err(e)
        case Ok(clean) => Ok(raw.(topics := Some(clean)))
  }

  // Lookups (`select ... scalar_one_or_none()`)

  /** The user called `username`, restricted to hosts when `hostsOnly`. */
  function FindUser(users: seq<User>, username: string, hostsOnly: bool): (r: Option<User>)
    ensures r.Some? ==> r.value in users && r.value.username == username && (hostsOnly ==> r.value.isHost)
    ensures r.None? ==> forall u :: u in users && u.username == username ==> hostsOnly && !u.isHost
  {
    if users == [] then None
    else if users[0].username == username && (!hostsOnly || users[0].isHost) then Some(users[0])
    else FindUser(users[1..], username, hostsOnly)
  }

  /** The position of the calendar owned by `hostId` (`user.calendar`). */
  function FindCalendarOf(calendars: seq<Calendar>, hostId: nat): (r: Option<nat>)
    ensures r.Some? ==> r.value < |calendars| && calendars[r.value].hostId == hostId
    ensures r.None? ==> forall i :: 0 <= i < |calendars| ==> calendars[i].hostId != hostId
  {
    if calendars == [] then None
    else if calendars[0].hostId == hostId then Some(0)
    else match FindCalendarOf(calendars[1..], hostId)
      case None => None
      case Some(i) => Some(i + 1)
  }

  /** The slot with the given id, provided it belongs to the given calendar. */
  function FindSlot(slots: seq<TimeSlot>, id: nat, calendarId: nat): (r: Option<TimeSlot>)
    ensures r.Some? ==> r.value in slots && r.value.id == id && r.value.calendarId == calendarId
    ensures r.None? ==> forall s :: s in slots ==> !(s.id == id && s.calendarId == calendarId)
  {
    if slots == [] then None
    else if slots[0].id == id && slots[0].calendarId == calendarId then Some(slots[0])
    else FindSlot(slots[1..], id, calendarId)
  }

  /** Some booking reserves `slotId` on `when` for `guestId`. */
  predicate HasBooking(bookings: seq<Booking>, guestId: nat, when: Date, slotId: nat) {
    exists b :: b in bookings && b.guestId == guestId && b.when == when && b.timeSlotId == slotId
  }

  // Time-slot conflicts

  /** `existing.start < new.end && existing.end > new.start`: touching endpoints do not overlap. */
  predicate TimesOverlap(existingStart: TimeOfDay, existingEnd: TimeOfDay, newStart: TimeOfDay, newEnd: TimeOfDay) {
    existingStart < newEnd && existingEnd > newStart
  }

  /** Some day of the new slot is also a day of the existing one. */
  predicate SharesWeekday(existing: seq<int>, proposed: seq<int>) {
    exists d :: d in proposed && d in existing
  }

  /** Whether `existing` blocks a new slot `p` on calendar `calendarId`. */
  predicate Clashes(existing: TimeSlot, calendarId: nat, p: TimeSlotCreateIn) {
    && existing.calendarId == calendarId
    && TimesOverlap(existing.start, existing.end, p.start, p.end)
    && SharesWeekday(existing.weekdays, p.weekdays)
  }

  predicate HasConflict(slots: seq<TimeSlot>, calendarId: nat, p: TimeSlotCreateIn) {
    exists s :: s in slots && Clashes(s, calendarId, p)
  }

  function SlotPayload(s: TimeSlot): TimeSlotCreateIn {
    TimeSlotCreateIn(s.start, s.end, s.weekdays)
  }

  /** Two stored slots, `a` created before `b`, that the creation guard would have refused to let coexist. */
  predicate SlotsConflict(a: TimeSlot, b: TimeSlot) {
    Clashes(a, b.calendarId, SlotPayload(b))
  }

  predicate NoConflicts(slots: seq<TimeSlot>) {
    forall i, j :: 0 <= i < j < |slots| ==> !SlotsConflict(slots[i], slots[j])
  }

  // What the database keeps true

  predicate UniqueUsers(users: seq<User>) {
    forall i, j :: 0 <= i < j < |users| ==> users[i].id != users[j].id && users[i].username != users[j].username
  }

  /** Distinct ids, and the unique constraint on `host_id`. */
  predicate UniqueCalendars(calendars: seq<Calendar>) {
    forall i, j :: 0 <= i < j < |calendars| ==> calendars[i].id != calendars[j].id && calendars[i].hostId != calendars[j].hostId
  }

  predicate ValidCalendar(c: Calendar) {
    ValidTopics(c.topics) && ValidDescription(c.description) && ValidGoogleCalendarId(c.googleCalendarId)
  }

  predicate UniqueSlotIds(slots: seq<TimeSlot>) {
    forall i, j :: 0 <= i < j < |slots| ==> slots[i].id != slots[j].id
  }

  /** Distinct ids, and no two bookings of one guest for one slot on one date. */
  predicate UniqueBookings(bookings: seq<Booking>) {
    forall i, j :: 0 <= i < j < |bookings| ==>
      && bookings[i].id != bookings[j].id
      && !(bookings[i].guestId == bookings[j].guestId && bookings[i].when == bookings[j].when
           && bookings[i].timeSlotId == bookings[j].timeSlotId)
  }

  predicate WellFormed(db: Db) {
    && UniqueUsers(db.users)
    && UniqueCalendars(db.calendars)
    && (forall c :: c in db.calendars ==> ValidCalendar(c))
    && UniqueSlotIds(db.slots)
    && NoConflicts(db.slots)
    && (forall s :: s in db.slots ==> ValidTimeSlotIn(SlotPayload(s)))
    && UniqueBookings(db.bookings)
  }

  /** Usernames are unique, so the lookup finds the one user with that name. */
  lemma FindUserUnique(users: seq<User>, username: string, hostsOnly: bool, u: User)
    requires UniqueUsers(users)
    requires u in users && u.username == username && (hostsOnly ==> u.isHost)
    ensures FindUser(users, username, hostsOnly) == Some(u)
  {
    var r := FindUser(users, username, hostsOnly);
    var i :| 0 <= i < |users| && users[i] == r.value;
    var j :| 0 <= j < |users| && users[j] == u;
    assert i == j;
  }

  /** A host owns at most one calendar, so the lookup finds the one it owns. */
  lemma FindCalendarOfUnique(calendars: seq<Calendar>, k: nat)
    requires UniqueCalendars(calendars) && k < |calendars|
    ensures FindCalendarOf(calendars, calendars[k].hostId) == Some(k)
  {
  }

  /** Slot ids are unique, so the lookup finds the slot with that id if it is on that calendar. */
  lemma FindSlotUnique(slots: seq<TimeSlot>, s: TimeSlot)
    requires UniqueSlotIds(slots) && s in slots
    ensures FindSlot(slots, s.id, s.calendarId) == Some(s)
  {
    var r := FindSlot(slots, s.id, s.calendarId);
    var i :| 0 <= i < |slots| && slots[i] == r.value;
    var j :| 0 <= j < |slots| && slots[j] == s;
    assert i == j;
  }
}
