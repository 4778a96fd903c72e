/**
 * The database behind the calendar endpoints as an in-memory store: one
 * table per record kind, each a sequence in insertion order, and the
 * next id each autoincrement column hands out. Every mutating endpoint is
 * a method that either answers with an error and leaves the store as it
 * was, or answers with the record it inserted or rewrote.
 */
module CalendarStore {
  import opened Collections
  import opened CalendarModels
  import opened CalendarEndpoints

  class Store {
    var users: seq<User>
    var calendars: seq<Calendar>
    var slots: seq<TimeSlot>
    var bookings: seq<Booking>
    var nextCalendarId: nat
    var nextSlotId: nat
    var nextBookingId: nat

    /** The tables as one value, for the decision functions. */
    function Tables(): Db
      reads this
    {
      Db(users, calendars, slots, bookings)
    }

    /** The database's constraints, and ids below the next id of their table. */
    ghost predicate Valid()
      reads this
    {
      && WellFormed(Tables())
      && (forall c :: c in calendars ==> c.id < nextCalendarId)
      && (forall s :: s in slots ==> s.id < nextSlotId)
      && (forall b :: b in bookings ==> b.id < nextBookingId)
    }

    /** A store holding the registered users and nothing else. */
    constructor (registered: seq<User>)
      requires UniqueUsers(registered)
      ensures Valid()
      ensures users == registered && calendars == [] && slots == [] && bookings == []
    {
      users := registered;
      calendars, slots, bookings := [], [], [];
      nextCalendarId, nextSlotId, nextBookingId := 1, 1, 1;
    }

    /** `create_calendar`: host only; a second calendar of the same host is refused. */
    method CreateCalendar(user: User, payload: CalendarCreateIn) returns (r: Result<Calendar>)
      requires Valid() && ValidCalendarCreateIn(payload)
      modifies this
      ensures Valid()
      ensures r == CreateCalendarDecision(old(Tables()), user, payload, old(nextCalendarId))
      ensures calendars == (if r.Ok? then old(calendars) + [r.value] else old(calendars))
      ensures nextCalendarId == (if r.Ok? then old(nextCalendarId) + 1 else old(nextCalendarId))
      ensures users == old(users) && slots == old(slots) && bookings == old(bookings)
      ensures nextSlotId == old(nextSlotId) && nextBookingId == old(nextBookingId)
    {
      if !user.isHost {
        return Err(GuestPermission);
      }
      if FindCalendarOf(calendars, user.id).Some? {
        return Err(CalendarAlreadyExists);
      }
      var calendar := Calendar(nextCalendarId, user.id, payload.topics, payload.description, payload.googleCalendarId);
      CreateCalendarOnce(Tables(), user, payload, payload, nextCalendarId, nextCalendarId + 1);
      calendars := calendars + [calendar];
      nextCalendarId := nextCalendarId + 1;
      r := Ok(calendar);
    }

    /** `update_calendar`: host only; rewrites the supplied fields of the caller's calendar in place. */
    method UpdateCalendar(user: User, payload: CalendarUpdateIn) returns (r: Result<Calendar>)
      requires Valid() && ValidCalendarUpdateIn(payload)
      modifies this
      ensures Valid()
      ensures var d := UpdateCalendarDecision(old(Tables()), user, payload);
        && (d.Err? ==> r == Err(d.error) && calendars == old(calendars))
        && (d.Ok? ==> r == Ok(d.value.1) && calendars == old(calendars)[d.value.0 := d.value.1])
      ensures users == old(users) && slots == old(slots) && bookings == old(bookings)
      ensures nextCalendarId == old(nextCalendarId) && nextSlotId == old(nextSlotId)
      ensures nextBookingId == old(nextBookingId)
    {
      if !user.isHost {
        return Err(GuestPermission);
      }
      var found := FindCalendarOf(calendars, user.id);
      if found.None? {
        return Err(CalendarNotFound);
      }
      var i := found.value;
      ghost var before := calendars[i];
      if payload.topics.Some? {
        calendars := calendars[i := calendars[i].(topics := payload.topics.value)];
      }
      if payload.description.Some? {
        calendars := calendars[i := calendars[i].(description := payload.description.value)];
      }
      if payload.googleCalendarId.Some? {
        calendars := calendars[i := calendars[i].(googleCalendarId := payload.googleCalendarId.value)];
      }
      assert calendars[i] == ApplyUpdate(before, payload);
      ApplyUpdateKeepsValid(before, payload);
      r := Ok(calendars[i]);
    }

    /**
     * `create_time_slot`: host only; queries the caller's slots that overlap
     * in time, refuses the new slot if one of them shares a weekday, and
     * otherwise inserts it.
     */
    method CreateTimeSlot(user: User, payload: TimeSlotCreateIn) returns (r: Result<TimeSlot>)
      requires Valid() && ValidTimeSlotIn(payload)
      modifies this
      ensures Valid()
      ensures r == TimeSlotDecision(old(Tables()), user, payload, old(nextSlotId))
      ensures slots == (if r.Ok? then old(slots) + [r.value] else old(slots))
      ensures nextSlotId == (if r.Ok? then old(nextSlotId) + 1 else old(nextSlotId))
      ensures users == old(users) && calendars == old(calendars) && bookings == old(bookings)
      ensures nextCalendarId == old(nextCalendarId) && nextBookingId == old(nextBookingId)
    {
      if !user.isHost {
        return Err(GuestPermission);
      }
      var found := FindCalendarOf(calendars, user.id);
      if found.None? {
        return Err(ServerFault);
      }
      var calendarId := calendars[found.value].id;
      var candidates := OverlapCandidates(slots, calendarId, payload.start, payload.end);
      var clash := FindWeekdayClash(candidates, payload.weekdays);
      CandidatesClashIffConflict(slots, calendarId, payload);
      if clash {
        return Err(TimeSlotOverlap);
      }
      var slot := TimeSlot(nextSlotId, calendarId, payload.start, payload.end, payload.weekdays);
      AdmittedSlotKeepsNoConflicts(slots, slot);
      slots := slots + [slot];
      nextSlotId := nextSlotId + 1;
      r := Ok(slot);
    }

    /**
     * `create_booking`: the checks in the endpoint's order, each ending the
     * request on failure, then the insertion of the booking.
     */
    method CreateBooking(hostUsername: string, user: User, payload: BookingCreateIn, today: Date)
      returns (r: Result<Booking>)
      requires Valid()
      modifies this
      ensures Valid()
      ensures r == BookingDecision(old(Tables()), user, hostUsername, payload, today, old(nextBookingId))
      ensures bookings == (if r.Ok? then old(bookings) + [r.value] else old(bookings))
      ensures nextBookingId == (if r.Ok? then old(nextBookingId) + 1 else old(nextBookingId))
      ensures users == old(users) && calendars == old(calendars) && slots == old(slots)
      ensures nextCalendarId == old(nextCalendarId) && nextSlotId == old(nextSlotId)
    {
      var host := FindUser(users, hostUsername, true);
      if host.None? {
        return Err(HostNotFound);
      }
      if user.id == host.value.id {
        return Err(SelfBooking);
      }
      var calendar := FindCalendarOf(calendars, host.value.id);
      if calendar.None? {
        return Err(ServerFault);
      }
      var slot := FindSlot(slots, payload.timeSlotId, calendars[calendar.value].id);
      if slot.None? {
        return Err(TimeSlotNotFound);
      }
      if Weekday(payload.when) !in slot.value.weekdays {
        return Err(TimeSlotNotFound);
      }
      if payload.when < today {
        return Err(PastDateBooking);
      }
      if HasBooking(bookings, user.id, payload.when, payload.timeSlotId) {
        return Err(DuplicateBooking);
      }
      var booking := NewBooking(nextBookingId, user, payload);
      AdmittedBookingKeepsUnique(Tables(), user, hostUsername, payload, today, nextBookingId);
      bookings := bookings + [booking];
      nextBookingId := nextBookingId + 1;
      r := Ok(booking);
    }
  }

  /**
   * The booking scenario: a guest books a host's slot for a date the slot
   * offers; the identical request is then refused as a duplicate, and the
   * host booking their own slot is refused as self-booking.
   */
  method BookingScenario(host: User, guest: User, topics: seq<string>, today: Date) returns (second: Result<Booking>, own: Result<Booking>)
    requires host.isHost && host.id != guest.id && host.username != guest.username
    requires ValidTopics(topics)
    ensures second == Err(DuplicateBooking)
    ensures own == Err(SelfBooking)
  {
    var store := new Store([host, guest]);
    var calendar := store.CreateCalendar(host, CalendarCreateIn(topics, "office hours", "calendar-id"));
    assert calendar.Ok?;
    var slot := store.CreateTimeSlot(host, TimeSlotCreateIn(600, 660, [Weekday(today)]));
    assert slot.Ok?;
    var request := BookingCreateIn(today, "topic", "description", slot.value.id);
    FindSlotUnique(store.slots, slot.value);
    ghost var before, firstId := store.Tables(), store.nextBookingId;
    var first := store.CreateBooking(host.username, guest, request, today);
    assert first.Ok?;
    RepeatedBookingIsDuplicate(before, guest, host.username, request, today, firstId, store.nextBookingId);
    second := store.CreateBooking(host.username, guest, request, today);
    own := store.CreateBooking(host.username, host, request, today);
  }
}
