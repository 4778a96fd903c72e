/**
 * The decisions of the calendar endpoints, as functions of the tables
 * before the request: what each endpoint answers and which record it
 * would insert or write back. The store (module CalendarStore) applies
 * them; here they are related to the rules they stand for.
 */
module CalendarEndpoints {
  import opened Collections
  import opened CalendarModels

  // host_calendar_detail

  /** A calendar and whether it is shown in its detailed form. */
  datatype CalendarView = CalendarView(calendar: Calendar, detailed: bool)

  /**
   * `GET /calendar/{host_username}` as seen by `viewer` (`None` when
   * anonymous). Any user, host or not, is looked up by name: a missing name
   * is HostNotFound. A found user's calendar is shown in detail exactly
   * when the viewer is that user.
   */
  function CalendarDetail(db: Db, hostUsername: string, viewer: Option<User>): (r: Result<CalendarView>)
    ensures r == Err(HostNotFound) <==> forall u :: u in db.users ==> u.username != hostUsername
    ensures r.Ok? || r == Err(HostNotFound) || r == Err(CalendarNotFound)
    ensures r.Ok? ==> r.value.calendar in db.calendars
    ensures r.Ok? ==> exists u :: u in db.users && u.username == hostUsername && u.id == r.value.calendar.hostId
                                  && (r.value.detailed <==> viewer.Some? && viewer.value.id == u.id)
  {
    match FindUser(db.users, hostUsername, false)
    case None => Err(HostNotFound)
    case Some(host) =>
      match FindCalendarOf(db.calendars, host.id)
      case None => Err(CalendarNotFound)
      case Some(i) => Ok(CalendarView(db.calendars[i], viewer.Some? && viewer.value.id == host.id))
  }

  /**
   * For the user `host` with that name: CalendarNotFound exactly when the
   * user owns no calendar; otherwise the owned calendar, detailed exactly
   * when the viewer is that user.
   */
  lemma CalendarDetailOfHost(db: Db, hostUsername: string, viewer: Option<User>, host: User)
    requires UniqueUsers(db.users)
    requires host in db.users && host.username == hostUsername
    ensures var r := CalendarDetail(db, hostUsername, viewer);
      && (r == Err(CalendarNotFound) <==> forall c :: c in db.calendars ==> c.hostId != host.id)
      && (r.Ok? ==> r.value.calendar in db.calendars && r.value.calendar.hostId == host.id)
      && (r.Ok? ==> (r.value.detailed <==> viewer.Some? && viewer.value.id == host.id))
      && (r.Ok? || r == Err(CalendarNotFound))
  {
  }

  // create_calendar

  /** `POST /calendar`: the calendar to insert under id `newId`, or the error. */
  function CreateCalendarDecision(db: Db, user: User, p: CalendarCreateIn, newId: nat): Result<Calendar> {
    if !user.isHost then Err(GuestPermission)
    else if FindCalendarOf(db.calendars, user.id).Some? then Err(CalendarAlreadyExists)
    else Ok(Calendar(newId, user.id, p.topics, p.description, p.googleCalendarId))
  }

  /**
   * A guest is refused first; a host that already owns a calendar gets
   * CalendarAlreadyExists; otherwise the new calendar carries the host's
   * id and the payload's fields.
   */
  lemma CreateCalendarSpec(db: Db, user: User, p: CalendarCreateIn, newId: nat)
    ensures var r := CreateCalendarDecision(db, user, p, newId);
      && (!user.isHost ==> r == Err(GuestPermission))
      && (user.isHost ==> (r == Err(CalendarAlreadyExists) <==> exists c :: c in db.calendars && c.hostId == user.id))
      && (r.Ok? <==> user.isHost && forall c :: c in db.calendars ==> c.hostId != user.id)
      && (r.Ok? ==> r.value.id == newId && r.value.hostId == user.id && r.value.topics == p.topics
                    && r.value.description == p.description && r.value.googleCalendarId == p.googleCalendarId)
  {
  }

  /** Creating a calendar keeps at most one calendar per host, and a second attempt is refused. */
  lemma CreateCalendarOnce(db: Db, user: User, p: CalendarCreateIn, q: CalendarCreateIn, newId: nat, nextId: nat)
    requires UniqueCalendars(db.calendars)
    requires forall c :: c in db.calendars ==> c.id < newId
    requires CreateCalendarDecision(db, user, p, newId).Ok?
    ensures var db' := db.(calendars := db.calendars + [CreateCalendarDecision(db, user, p, newId).value]);
      && UniqueCalendars(db'.calendars)
      && CreateCalendarDecision(db', user, q, nextId) == Err(CalendarAlreadyExists)
  {
    var c := CreateCalendarDecision(db, user, p, newId).value;
    var cs := db.calendars + [c];
    assert FindCalendarOf(db.calendars, user.id).None?;
    forall i, j | 0 <= i < j < |cs| ensures cs[i].id != cs[j].id && cs[i].hostId != cs[j].hostId {
      if j == |cs| - 1 {
        assert cs[i] in db.calendars;
      }
    }
    FindCalendarOfUnique(cs, |cs| - 1);
  }

  // update_calendar

  /** The fields of `c` that the payload supplies, replaced; everything else kept. */
  function ApplyUpdate(c: Calendar, p: CalendarUpdateIn): (r: Calendar)
    ensures r.id == c.id && r.hostId == c.hostId
    ensures r.topics == (if p.topics.Some? then p.topics.value else c.topics)
    ensures r.description == (if p.description.Some? then p.description.value else c.description)
    ensures r.googleCalendarId == (if p.googleCalendarId.Some? then p.googleCalendarId.value else c.googleCalendarId)
  {
    var c1 := if p.topics.Some? then c.(topics := p.topics.value) else c;
    var c2 := if p.description.Some? then c1.(description := p.description.value) else c1;
    if p.googleCalendarId.Some? then c2.(googleCalendarId := p.googleCalendarId.value) else c2
  }

  /** An update that supplies nothing changes nothing; applying an update twice is applying it once. */
  lemma ApplyUpdateIdentityAndIdempotent(c: Calendar, p: CalendarUpdateIn)
    ensures ApplyUpdate(c, CalendarUpdateIn(None, None, None)) == c
    ensures ApplyUpdate(ApplyUpdate(c, p), p) == ApplyUpdate(c, p)
  {
  }

  /** An update keeps a calendar well formed when the payload passed the schema. */
  lemma ApplyUpdateKeepsValid(c: Calendar, p: CalendarUpdateIn)
    requires ValidCalendar(c) && ValidCalendarUpdateIn(p)
    ensures ValidCalendar(ApplyUpdate(c, p))
  {
  }

  /** `PATCH /calendar`: the position of the caller's calendar and its new value, or the error. */
  function UpdateCalendarDecision(db: Db, user: User, p: CalendarUpdateIn): Result<(nat, Calendar)> {
    if !user.isHost then Err(GuestPermission)
    else match FindCalendarOf(db.calendars, user.id)
      case None => Err(CalendarNotFound)
      case Some(i) => Ok((i, ApplyUpdate(db.calendars[i], p)))
  }

  /**
   * A guest is refused first; a host without a calendar gets
   * CalendarNotFound; otherwise the host's own calendar is rewritten with
   * exactly the supplied fields.
   */
  lemma UpdateCalendarSpec(db: Db, user: User, p: CalendarUpdateIn)
    requires UniqueCalendars(db.calendars)
    ensures var r := UpdateCalendarDecision(db, user, p);
      && (!user.isHost ==> r == Err(GuestPermission))
      && (user.isHost ==> (r == Err(CalendarNotFound) <==> forall c :: c in db.calendars ==> c.hostId != user.id))
      && (forall k :: 0 <= k < |db.calendars| && user.isHost && db.calendars[k].hostId == user.id ==>
            r == Ok((k, ApplyUpdate(db.calendars[k], p))))
  {
    forall k | 0 <= k < |db.calendars| && user.isHost && db.calendars[k].hostId == user.id
      ensures UpdateCalendarDecision(db, user, p) == Ok((k, ApplyUpdate(db.calendars[k], p)))
    {
      FindCalendarOfUnique(db.calendars, k);
    }
  }

  /**
   * The topics a calendar ends up with after an update whose raw body
   * listed topics are those topics, deduplicated in order.
   */
  lemma UpdateStoresDeduplicatedTopics(c: Calendar, raw: CalendarUpdateIn)
    requires raw.topics.Some? && ParseCalendarUpdate(raw).Ok?
    ensures ApplyUpdate(c, ParseCalendarUpdate(raw).value).topics == Dedup(raw.topics.value)
  {
  }

  // create_time_slot

  /**
   * The slots the database query returns: those of the calendar whose
   * interval overlaps `[start, end)`, in table order.
   */
  function OverlapCandidates(slots: seq<TimeSlot>, calendarId: nat, start: TimeOfDay, end: TimeOfDay): (r: seq<TimeSlot>)
    ensures forall s :: s in r <==> s in slots && s.calendarId == calendarId && TimesOverlap(s.start, s.end, start, end)
    ensures |r| <= |slots|
  {
    if slots == [] then []
    else
      var rest := OverlapCandidates(slots[1..], calendarId, start, end);
      assert forall s :: s in slots <==> s == slots[0] || s in slots[1..];
      var s := slots[0];
      if s.calendarId == calendarId && TimesOverlap(s.start, s.end, start, end) then [s] + rest else rest
  }

  /** The loop over the query's result: does any candidate share a weekday with the new slot? */
  method FindWeekdayClash(candidates: seq<TimeSlot>, weekdays: seq<int>) returns (clash: bool)
    ensures clash <==> exists s :: s in candidates && SharesWeekday(s.weekdays, weekdays)
  {
    var k := 0;
    while k < |candidates|
      invariant 0 <= k <= |candidates|
      invariant forall i :: 0 <= i < k ==> !SharesWeekday(candidates[i].weekdays, weekdays)
    {
      if SharesWeekday(candidates[k].weekdays, weekdays) {
        return true;
      }
      k := k + 1;
    }
    return false;
  }

  /** The query followed by the loop finds a clash exactly when some slot of the calendar conflicts. */
  lemma CandidatesClashIffConflict(slots: seq<TimeSlot>, calendarId: nat, p: TimeSlotCreateIn)
    ensures (exists s :: s in OverlapCandidates(slots, calendarId, p.start, p.end) && SharesWeekday(s.weekdays, p.weekdays))
        <==> HasConflict(slots, calendarId, p)
  {
    var cands := OverlapCandidates(slots, calendarId, p.start, p.end);
    if HasConflict(slots, calendarId, p) {
      var s :| s in slots && Clashes(s, calendarId, p);
      assert s in cands;
    }
  }

  /** `POST /time-slots`: the slot to insert under id `newId`, or the error. */
  function TimeSlotDecision(db: Db, user: User, p: TimeSlotCreateIn, newId: nat): Result<TimeSlot> {
    if !user.isHost then Err(GuestPermission)
    else match FindCalendarOf(db.calendars, user.id)
      case None => Err(ServerFault)
      case Some(i) =>
        var calendarId := db.calendars[i].id;
        if HasConflict(db.slots, calendarId, p) then Err(TimeSlotOverlap)
        else Ok(TimeSlot(newId, calendarId, p.start, p.end, p.weekdays))
  }

  /** A guest gets GuestPermission whatever else holds. */
  lemma TimeSlotGuestRefused(db: Db, user: User, p: TimeSlotCreateIn, newId: nat)
    requires !user.isHost
    ensures TimeSlotDecision(db, user, p, newId) == Err(GuestPermission)
  {
  }

  /**
   * For a host with calendar `cal`: TimeSlotOverlap exactly when some slot
   * of that calendar overlaps in time and shares a weekday; otherwise the
   * new slot is on `cal` with the payload's times and weekdays.
   */
  lemma TimeSlotDecisionSpec(db: Db, user: User, p: TimeSlotCreateIn, newId: nat, cal: Calendar)
    requires UniqueCalendars(db.calendars)
    requires user.isHost && cal in db.calendars && cal.hostId == user.id
    ensures var r := TimeSlotDecision(db, user, p, newId);
      && (r == Err(TimeSlotOverlap) <==>
            exists s :: s in db.slots && s.calendarId == cal.id && s.start < p.end && s.end > p.start
                        && (exists d :: d in p.weekdays && d in s.weekdays))
      && (r.Ok? <==> !HasConflict(db.slots, cal.id, p))
      && (r.Ok? ==> r.value == TimeSlot(newId, cal.id, p.start, p.end, p.weekdays))
  {
    var k :| 0 <= k < |db.calendars| && db.calendars[k] == cal;
    FindCalendarOfUnique(db.calendars, k);
  }

  /** A host without a calendar makes the endpoint fail on `user.calendar.id`. */
  lemma TimeSlotWithoutCalendar(db: Db, user: User, p: TimeSlotCreateIn, newId: nat)
    requires user.isHost && forall c :: c in db.calendars ==> c.hostId != user.id
    ensures TimeSlotDecision(db, user, p, newId) == Err(ServerFault)
  {
  }

  /** Slots that only touch at an endpoint never conflict, whichever was created first. */
  lemma TouchingSlotsNeverConflict(a: TimeSlot, b: TimeSlot)
    requires a.end == b.start
    ensures !SlotsConflict(a, b) && !SlotsConflict(b, a)
  {
  }

  /** Slots with no weekday in common never conflict. */
  lemma DisjointWeekdaysNeverConflict(a: TimeSlot, b: TimeSlot)
    requires forall d :: d in a.weekdays ==> d !in b.weekdays
    ensures !SlotsConflict(a, b) && !SlotsConflict(b, a)
  {
  }

  /** Whether two slots conflict does not depend on which one was created first. */
  lemma SlotsConflictSymmetric(a: TimeSlot, b: TimeSlot)
    ensures SlotsConflict(a, b) <==> SlotsConflict(b, a)
  {
    if SlotsConflict(a, b) {
      var d :| d in b.weekdays && d in a.weekdays;
      assert SharesWeekday(b.weekdays, a.weekdays);
    }
    if SlotsConflict(b, a) {
      var d :| d in a.weekdays && d in b.weekdays;
      assert SharesWeekday(a.weekdays, b.weekdays);
    }
  }

  /** A slot the guard admits keeps the calendar's slots pairwise free of conflicts. */
  lemma AdmittedSlotKeepsNoConflicts(slots: seq<TimeSlot>, s: TimeSlot)
    requires NoConflicts(slots)
    requires !HasConflict(slots, s.calendarId, SlotPayload(s))
    ensures NoConflicts(slots + [s])
  {
    var all := slots + [s];
    forall i, j | 0 <= i < j < |all| ensures !SlotsConflict(all[i], all[j]) {
      if j == |slots| {
        assert all[i] in slots;
      }
    }
  }

  /**
   * A calendar with a Monday, Tuesday and Wednesday 10:00-11:00 slot (times
   * in minutes): a new slot overlapping it in time on a Monday is refused;
   * one that only touches it, lies before it, or falls on other days is
   * admitted.
   */
  lemma TimeSlotScenario(host: User, cal: Calendar, base: TimeSlot, newId: nat)
    requires host.isHost && cal.hostId == host.id
    requires base == TimeSlot(1, cal.id, 600, 660, [0, 1, 2])
    ensures var db := Db([host], [cal], [base], []);
      // apart in time
      && TimeSlotDecision(db, host, TimeSlotCreateIn(540, 600, [0]), newId).Ok?
      && TimeSlotDecision(db, host, TimeSlotCreateIn(660, 720, [0]), newId).Ok?
      && TimeSlotDecision(db, host, TimeSlotCreateIn(480, 540, [1]), newId).Ok?
      // same day, overlapping times
      && TimeSlotDecision(db, host, TimeSlotCreateIn(600, 660, [0]), newId) == Err(TimeSlotOverlap)
      && TimeSlotDecision(db, host, TimeSlotCreateIn(630, 690, [0]), newId) == Err(TimeSlotOverlap)
      && TimeSlotDecision(db, host, TimeSlotCreateIn(570, 630, [0]), newId) == Err(TimeSlotOverlap)
      && TimeSlotDecision(db, host, TimeSlotCreateIn(615, 645, [0]), newId) == Err(TimeSlotOverlap)
      && TimeSlotDecision(db, host, TimeSlotCreateIn(540, 720, [0]), newId) == Err(TimeSlotOverlap)
      // other days
      && TimeSlotDecision(db, host, TimeSlotCreateIn(600, 660, [3]), newId).Ok?
      && TimeSlotDecision(db, host, TimeSlotCreateIn(630, 690, [4]), newId).Ok?
      && TimeSlotDecision(db, host, TimeSlotCreateIn(540, 720, [5, 6]), newId).Ok?
  {
    assert 0 in [0] && 0 in base.weekdays;
    assert Clashes(base, cal.id, TimeSlotCreateIn(600, 660, [0]));
    assert Clashes(base, cal.id, TimeSlotCreateIn(630, 690, [0]));
    assert Clashes(base, cal.id, TimeSlotCreateIn(570, 630, [0]));
    assert Clashes(base, cal.id, TimeSlotCreateIn(615, 645, [0]));
    assert Clashes(base, cal.id, TimeSlotCreateIn(540, 720, [0]));
    assert forall d :: d in base.weekdays ==> d == 0 || d == 1 || d == 2;
  }

  // create_booking

  /** The booking a successful request inserts under id `newId`. */
  function NewBooking(newId: nat, guest: User, p: BookingCreateIn): Booking {
    Booking(newId, guest.id, p.timeSlotId, p.when, p.topic, p.description)
  }

  /**
   * `POST /bookings/{host_username}` by `guest` on day `today`: the booking
   * to insert, or the first check that fails.
   */
  function BookingDecision(db: Db, guest: User, hostUsername: string, p: BookingCreateIn, today: Date, newId: nat): Result<Booking> {
    match FindUser(db.users, hostUsername, true)
    case None => Err(HostNotFound)
    case Some(host) =>
      if guest.id == host.id then Err(SelfBooking)
      else match FindCalendarOf(db.calendars, host.id)
        case None => Err(ServerFault)
        case Some(ci) =>
          match FindSlot(db.slots, p.timeSlotId, db.calendars[ci].id)
          case None => Err(TimeSlotNotFound)
          case Some(slot) =>
            if Weekday(p.when) !in slot.weekdays then Err(TimeSlotNotFound)
            else if p.when < today then Err(PastDateBooking)
            else if HasBooking(db.bookings, guest.id, p.when, p.timeSlotId) then Err(DuplicateBooking)
            else Ok(NewBooking(newId, guest, p))
  }

  /** 1. HostNotFound exactly when no host has that username (a user who is not a host does not count). */
  lemma BookingHostNotFound(db: Db, guest: User, hostUsername: string, p: BookingCreateIn, today: Date, newId: nat)
    ensures BookingDecision(db, guest, hostUsername, p, today, newId) == Err(HostNotFound)
        <==> forall u :: u in db.users && u.username == hostUsername ==> !u.isHost
  {
  }

  /** 2. Once the host is found, SelfBooking exactly when the guest is the host. */
  lemma BookingSelf(db: Db, guest: User, hostUsername: string, p: BookingCreateIn, today: Date, newId: nat, host: User)
    requires UniqueUsers(db.users)
    requires host in db.users && host.username == hostUsername && host.isHost
    ensures BookingDecision(db, guest, hostUsername, p, today, newId) == Err(SelfBooking) <==> guest.id == host.id
  {
    FindUserUnique(db.users, hostUsername, true, host);
  }

  /** 3. After the identity checks, a host without a calendar makes the endpoint fail on `host.calendar.id`. */
  lemma BookingHostWithoutCalendar(db: Db, guest: User, hostUsername: string, p: BookingCreateIn, today: Date, newId: nat, host: User)
    requires UniqueUsers(db.users)
    requires host in db.users && host.username == hostUsername && host.isHost && guest.id != host.id
    requires forall c :: c in db.calendars ==> c.hostId != host.id
    ensures BookingDecision(db, guest, hostUsername, p, today, newId) == Err(ServerFault)
  {
    FindUserUnique(db.users, hostUsername, true, host);
  }

  /** 4. A slot id that is missing or belongs to another calendar is TimeSlotNotFound. */
  lemma BookingSlotMissing(db: Db, guest: User, hostUsername: string, p: BookingCreateIn, today: Date, newId: nat,
                           host: User, cal: Calendar)
    requires UniqueUsers(db.users) && UniqueCalendars(db.calendars)
    requires host in db.users && host.username == hostUsername && host.isHost && guest.id != host.id
    requires cal in db.calendars && cal.hostId == host.id
    requires forall s :: s in db.slots ==> !(s.id == p.timeSlotId && s.calendarId == cal.id)
    ensures BookingDecision(db, guest, hostUsername, p, today, newId) == Err(TimeSlotNotFound)
  {
    FindUserUnique(db.users, hostUsername, true, host);
    var k :| 0 <= k < |db.calendars| && db.calendars[k] == cal;
    FindCalendarOfUnique(db.calendars, k);
  }

  /**
   * 5-7. For the host's slot with the requested id: a date whose weekday
   * the slot does not offer is TimeSlotNotFound; then a date before today
   * is PastDateBooking; then an identical booking is DuplicateBooking;
   * otherwise the booking is admitted.
   */
  lemma BookingWithSlot(db: Db, guest: User, hostUsername: string, p: BookingCreateIn, today: Date, newId: nat,
                        host: User, cal: Calendar, slot: TimeSlot)
    requires UniqueUsers(db.users) && UniqueCalendars(db.calendars) && UniqueSlotIds(db.slots)
    requires host in db.users && host.username == hostUsername && host.isHost && guest.id != host.id
    requires cal in db.calendars && cal.hostId == host.id
    requires slot in db.slots && slot.id == p.timeSlotId && slot.calendarId == cal.id
    ensures var r := BookingDecision(db, guest, hostUsername, p, today, newId);
      && (Weekday(p.when) !in slot.weekdays ==> r == Err(TimeSlotNotFound))
      && (Weekday(p.when) in slot.weekdays && p.when < today ==> r == Err(PastDateBooking))
      && (Weekday(p.when) in slot.weekdays && p.when >= today ==>
            (r == Err(DuplicateBooking) <==> exists b :: b in db.bookings && b.guestId == guest.id
                                                    && b.when == p.when && b.timeSlotId == p.timeSlotId))
      && (r.Ok? <==> Weekday(p.when) in slot.weekdays && p.when >= today
                     && !HasBooking(db.bookings, guest.id, p.when, p.timeSlotId))
  {
    FindUserUnique(db.users, hostUsername, true, host);
    var k :| 0 <= k < |db.calendars| && db.calendars[k] == cal;
    FindCalendarOfUnique(db.calendars, k);
    FindSlotUnique(db.slots, slot);
  }

  /** PastDateBooking needs a date strictly before today: a booking for today passes that check. */
  lemma PastDateIsStrict(db: Db, guest: User, hostUsername: string, p: BookingCreateIn, today: Date, newId: nat)
    requires p.when >= today
    ensures BookingDecision(db, guest, hostUsername, p, today, newId) != Err(PastDateBooking)
  {
  }

  /**
   * An admitted booking is by the guest for the requested slot, date,
   * topic and description; that slot is on the named host's calendar,
   * offers the date's weekday, the date is not past and no identical
   * booking exists.
   */
  lemma BookingAdmitted(db: Db, guest: User, hostUsername: string, p: BookingCreateIn, today: Date, newId: nat)
    requires BookingDecision(db, guest, hostUsername, p, today, newId).Ok?
    ensures var b := BookingDecision(db, guest, hostUsername, p, today, newId).value;
      && b.id == newId && b.guestId == guest.id && b.timeSlotId == p.timeSlotId && b.when == p.when
      && b.topic == p.topic && b.description == p.description
      && p.when >= today
      && !HasBooking(db.bookings, guest.id, p.when, p.timeSlotId)
      && (exists host ::
            host in db.users && host.username == hostUsername && host.isHost && host.id != guest.id &&
            exists cal ::
              cal in db.calendars && cal.hostId == host.id &&
              exists s ::
                s in db.slots && s.id == p.timeSlotId && s.calendarId == cal.id && Weekday(p.when) in s.weekdays)
  {
    var host := FindUser(db.users, hostUsername, true).value;
    var ci := FindCalendarOf(db.calendars, host.id).value;
    var cal := db.calendars[ci];
    var s := FindSlot(db.slots, p.timeSlotId, cal.id).value;
    assert cal in db.calendars;
  }

  /** An admitted booking keeps bookings unique when its id is fresh. */
  lemma AdmittedBookingKeepsUnique(db: Db, guest: User, hostUsername: string, p: BookingCreateIn, today: Date, newId: nat)
    requires UniqueBookings(db.bookings)
    requires forall b :: b in db.bookings ==> b.id < newId
    requires BookingDecision(db, guest, hostUsername, p, today, newId).Ok?
    ensures UniqueBookings(db.bookings + [BookingDecision(db, guest, hostUsername, p, today, newId).value])
  {
    var b := BookingDecision(db, guest, hostUsername, p, today, newId).value;
    BookingAdmitted(db, guest, hostUsername, p, today, newId);
    var all := db.bookings + [b];
    forall i, j | 0 <= i < j < |all|
      ensures all[i].id != all[j].id
      ensures !(all[i].guestId == all[j].guestId && all[i].when == all[j].when && all[i].timeSlotId == all[j].timeSlotId)
    {
      if j == |db.bookings| {
        assert all[i] in db.bookings;
      }
    }
  }

  /** Repeating an admitted request once its booking is stored yields DuplicateBooking. */
  lemma RepeatedBookingIsDuplicate(db: Db, guest: User, hostUsername: string, p: BookingCreateIn, today: Date, newId: nat, nextId: nat)
    requires BookingDecision(db, guest, hostUsername, p, today, newId).Ok?
    ensures var db' := db.(bookings := db.bookings + [BookingDecision(db, guest, hostUsername, p, today, newId).value]);
      BookingDecision(db', guest, hostUsername, p, today, nextId) == Err(DuplicateBooking)
  {
    var b := BookingDecision(db, guest, hostUsername, p, today, newId).value;
    assert b in db.bookings + [b];
  }
}
