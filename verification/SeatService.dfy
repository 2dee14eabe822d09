/** The services that update the seat tables in place, each proved equal to its operation on values. */
module SeatService {
  import opened Common
  import opened Seats
  import E = SeatEffects

  class Tables {
    var sessions: seq<Session>
    var bookings: seq<Booking>
    var waitlist: seq<Entry>
    var courses: seq<Course>
    var enrollments: seq<Enrollment>
    ghost var lost: seq<nat>

    ghost function Contents(): State
      reads this
    {
      State(sessions, bookings, waitlist, courses, enrollments, lost)
    }

    constructor ()
      ensures Contents() == State([], [], [], [], [], [])
    {
      sessions, bookings, waitlist, courses, enrollments, lost := [], [], [], [], [], [];
    }

    method Create(capacity: int, spotCount: int, onMachine: bool) returns (r: Result<nat>)
      modifies this
      ensures (Contents(), r) == CreateSession(old(Contents()), capacity, spotCount, onMachine)
    {
      if capacity < 1 || (capacity < 2 && !onMachine) { return Failed(CapacityTooLow); }
      sessions := sessions + [Session(capacity, 0, Open, None, spotCount)];
      lost := lost + [0];
      return Ok(|sessions| - 1);
    }

    /** The named sessions belong to the course afterwards and keep their seats; all others are untouched. */
    method MarkLessons(ids: seq<nat>, course: nat)
      modifies this`sessions
      ensures |sessions| == |old(sessions)|
      ensures forall s :: 0 <= s < |sessions| && s in ids ==>
        sessions[s].course == Some(course) && sessions[s] == old(sessions)[s].(course := sessions[s].course)
      ensures forall s :: 0 <= s < |sessions| && s !in ids ==> sessions[s] == old(sessions)[s]
    {
      sessions := AssignLessons(sessions, ids, course);
    }

    /** UPDATE ... SET booked_count = booked_count + 1 WHERE open AND booked_count < capacity */
    method TryReserve(session: nat) returns (reserved: bool)
      requires session < |sessions|
      modifies this`sessions
      ensures reserved == HasSeat(old(sessions)[session])
      ensures sessions == if reserved then old(sessions)[session := Reserve(old(sessions)[session])] else old(sessions)
    {
      var s := sessions[session];
      reserved := s.status.Open? && s.booked < s.capacity;
      if reserved {
        sessions := sessions[session := s.(booked := s.booked + 1)];
      }
    }

    /** Gives a seat back; never below zero. */
    method GiveBack(session: nat)
      requires session < |sessions|
      modifies this`sessions
      ensures sessions == old(sessions)[session := Release(old(sessions)[session])]
    {
      var s := sessions[session];
      sessions := sessions[session := s.(booked := if s.booked - 1 > 0 then s.booked - 1 else 0)];
    }

    /** INSERT under the unique indexes: on a violation nothing is written. */
    method TryInsert(b: Booking) returns (violation: Option<Reason>)
      modifies this`bookings
      ensures violation == Violation(old(bookings), b, -1)
      ensures bookings == if violation.None? then old(bookings) + [b] else old(bookings)
    {
      violation := Violation(bookings, b, -1);
      if violation.None? {
        bookings := bookings + [b];
      }
    }

    method PerformJoin(session: nat, p: Person) returns (r: Result<nat>)
      modifies this
      ensures (Contents(), r) == Join(old(Contents()), session, p)
    {
      if session >= |sessions| { return Failed(NotFound); }
      var s := sessions[session];
      if Participates(bookings, session, p.email) { return Failed(Already); }
      if p.gate.Some? { return Failed(p.gate.value); }
      var spot: Option<string> := None;
      if s.spotCount > 0 && p.spot.Some? && p.spot.value.text != "" {
        if p.spot.value.number.None? || p.spot.value.number.value < 1 || p.spot.value.number.value > s.spotCount {
          return Failed(InvalidSpot);
        }
        spot := Some(p.spot.value.text);
      }
      var reserved := TryReserve(session);
      if !reserved { return Failed(Full); }
      var violation := TryInsert(Booking(session, p.customer, p.email, spot, Confirmed));
      if violation.Some? {
        GiveBack(session);
        assert sessions == old(sessions)[session := Release(Reserve(s))];
        return Failed(violation.value);
      }
      return Ok(|bookings| - 1);
    }

    method PromoteFromWaitlist(session: nat, customer: nat) returns (promoted: Option<nat>)
      requires session < |sessions|
      modifies this
      ensures (Contents(), promoted) == Promote(old(Contents()), session, customer)
    {
      if !sessions[session].status.Open? { return None; }
      var head := Head(waitlist, session);
      if head.None? { return None; }
      var reserved := TryReserve(session);
      if !reserved { return None; }
      var entry := waitlist[head.value];
      ghost var s := old(sessions)[session];
      var violation := TryInsert(Booking(session, customer, entry.email, None, Confirmed));
      if violation.Some? {
        GiveBack(session);
        assert sessions == old(sessions)[session := Release(Reserve(s))];
        waitlist := waitlist[head.value := entry.(status := Removed)];
        return None;
      }
      waitlist := waitlist[head.value := entry.(status := Promoted)];
      return Some(|bookings| - 1);
    }

    method LeaveSession(session: nat, booking: nat, customer: nat) returns (r: Result<Option<nat>>)
      modifies this
      ensures (Contents(), r) == Leave(old(Contents()), session, booking, customer)
    {
      if session >= |sessions| || booking >= |bookings| || bookings[booking].session != session
        || !bookings[booking].Active()
      {
        return Failed(NotFound);
      }
      bookings := bookings[booking := bookings[booking].(status := Cancelled)];
      GiveBack(session);
      var promoted := PromoteFromWaitlist(session, customer);
      return Ok(promoted);
    }

    /** The system's variant: nothing to leave is not an error. */
    method LeaveSystem(session: nat, booking: nat, customer: nat) returns (left: bool)
      modifies this
      ensures left == CanLeave(old(Contents()), session, booking)
      ensures Contents() == Leave(old(Contents()), session, booking, customer).0
    {
      var r := LeaveSession(session, booking, customer);
      return r.Ok?;
    }

    /** The cancellation of the portal, or of staff, which knows nothing of sessions. */
    method CancelOutside(booking: nat, portal: bool) returns (r: Result<nat>)
      modifies this`bookings, this`lost
      ensures (Contents(), r) == CancelAlone(old(Contents()), booking, portal)
    {
      if booking >= |bookings| { return Failed(NotFound); }
      var b := bookings[booking];
      if b.status.Cancelled? { return Failed(AlreadyCancelled); }
      if portal && b.status.Completed? { return Failed(CannotCancel); }
      bookings := bookings[booking := b.(status := Cancelled)];
      lost := if b.session < |lost| then lost[b.session := lost[b.session] + 1] else lost;
      return Ok(booking);
    }

    method Attend(session: nat, booking: nat, attended: bool) returns (r: Result<nat>)
      modifies this
      ensures (Contents(), r) == MarkAttendance(old(Contents()), session, booking, attended)
    {
      if booking >= |bookings| || bookings[booking].session != session || bookings[booking].status.Cancelled? {
        return Failed(NotFound);
      }
      var b := bookings[booking].(status := if attended then Completed else NoShow);
      if Violation(bookings, b, booking).Some? { return Failed(UniqueViolation); }
      bookings := bookings[booking := b];
      return Ok(booking);
    }

    method ChangeCapacity(session: nat, capacity: int, onMachine: bool) returns (r: Result<nat>)
      modifies this
      ensures (Contents(), r) == EditCapacity(old(Contents()), session, capacity, onMachine)
    {
      if session >= |sessions| { return Failed(NotFound); }
      if !sessions[session].status.Open? { return Failed(NotEditable); }
      if capacity < sessions[session].booked { return Failed(CapacityBelowBooked); }
      if capacity < 1 || (capacity < 2 && !onMachine) { return Failed(CapacityTooLow); }
      sessions := sessions[session := sessions[session].(capacity := capacity)];
      return Ok(session);
    }

    method CallOff(session: nat) returns (r: Result<nat>)
      modifies this
      ensures (Contents(), r) == CancelSession(old(Contents()), session)
    {
      if session >= |sessions| { return Failed(NotFound); }
      if sessions[session].status.CalledOff? { return Failed(AlreadyCancelled); }
      bookings := CancelBookings(bookings, InSession(session));
      sessions := sessions[session := sessions[session].(status := CalledOff, booked := 0)];
      return Ok(session);
    }

    method PerformWaitlistJoin(session: nat, email: string) returns (r: Result<nat>)
      modifies this
      ensures (Contents(), r) == JoinWaitlist(old(Contents()), session, email)
    {
      if session >= |sessions| { return Failed(NotFound); }
      var s := sessions[session];
      if !s.status.Open? { return Failed(Closed); }
      if s.booked < s.capacity { return Failed(HasSpace); }
      if Participates(bookings, session, email) { return Failed(Already); }
      var nextPosition := MaxPosition(waitlist, session) + 1;
      if exists i :: 0 <= i < |waitlist| && IsQueued(waitlist[i], session, email) { return Failed(AlreadyWaiting); }
      waitlist := waitlist + [Entry(session, email, nextPosition, Waiting)];
      return Ok(|waitlist| - 1);
    }

    method DropFromWaitlist(session: nat, entry: nat) returns (r: Result<nat>)
      modifies this
      ensures (Contents(), r) == LeaveWaitlist(old(Contents()), session, entry)
    {
      if entry >= |waitlist| || waitlist[entry].session != session || !waitlist[entry].status.Waiting? {
        return Failed(NotFound);
      }
      waitlist := waitlist[entry := waitlist[entry].(status := Removed)];
      return Ok(entry);
    }

    /** Books each lesson that has room; stops at the first unique violation. */
    method BookEach(lessons: seq<nat>, customer: nat, email: string) returns (complete: bool)
      modifies this`sessions, this`bookings
      ensures var done := BookLessons(old(Contents()), lessons, customer, email);
        complete == done.Some? && (complete ==> done.value == Contents())
    {
      for n := 0 to |lessons|
        invariant BookLessons(old(Contents()), lessons[..n], customer, email) == Some(Contents())
      {
        assert lessons[..n + 1][..n] == lessons[..n];
        var lesson := lessons[n];
        if lesson >= |sessions| || sessions[lesson].booked >= sessions[lesson].capacity { continue; }
        sessions := sessions[lesson := sessions[lesson].(booked := sessions[lesson].booked + 1)];
        var violation := TryInsert(Booking(lesson, customer, email, None, Confirmed));
        if violation.Some? {
          BookLessonsStops(old(Contents()), lessons, n + 1, customer, email);
          return false;
        }
      }
      assert lessons[..|lessons|] == lessons;
      return true;
    }

    /** Books every open lesson of the course that has room; a unique violation rolls everything back. */
    method EnrollInCourse(course: nat, email: string, customer: nat) returns (r: Result<nat>)
      modifies this
      ensures (Contents(), r) == Enroll(old(Contents()), course, email, customer)
      ensures r.Ok? <==>
        E.MayEnroll(old(Contents()), course, email) && E.FreeForCourse(old(Contents()), course, customer)
      ensures r.Ok? ==>
        && old(bookings) <= bookings && |sessions| == |old(sessions)|
        && E.OneBookingEach(old(sessions), course, customer, email, bookings[|old(bookings)|..])
        && forall s: nat :: s < |sessions| ==>
             sessions[s] == if E.RoomyLesson(old(sessions), course, s)
                            then old(sessions)[s].(booked := old(sessions)[s].booked + 1) else old(sessions)[s]
    {
      E.EnrollEffect(Contents(), course, email, customer);
      if course >= |courses| { return Failed(NotFound); }
      if !courses[course].open { return Failed(CourseClosed); }
      if EnrolledCount(enrollments, course) >= courses[course].capacity { return Failed(CourseFull); }
      if exists i :: 0 <= i < |enrollments| && IsEnrolled(enrollments[i], course, email) {
        return Failed(AlreadyEnrolled);
      }
      var savedSessions, savedBookings, savedEnrollments := sessions, bookings, enrollments;
      enrollments := enrollments + [Enrollment(course, customer, email, false)];
      var complete := BookEach(OpenLessons(sessions, course), customer, email);
      if !complete {
        sessions, bookings, enrollments := savedSessions, savedBookings, savedEnrollments;
        return Failed(UniqueViolation);
      }
      return Ok(|savedEnrollments|);
    }

    /** Cancels the student's bookings in the course, then releases one seat per cancelled booking. */
    method CancelCourseEnrollment(course: nat, enrollment: nat) returns (r: Result<nat>)
      modifies this
      ensures (Contents(), r) == CancelEnrollment(old(Contents()), course, enrollment)
      ensures r.Ok? <==> enrollment < |old(enrollments)| && old(enrollments)[enrollment].course == course
      ensures r.Ok? ==>
        var customer := old(enrollments)[enrollment].customer;
        && |bookings| == |old(bookings)|
        && (forall i :: 0 <= i < |bookings| ==>
              bookings[i] == if E.InLesson(old(sessions), course, customer, old(bookings)[i])
                             then old(bookings)[i].(status := Cancelled) else old(bookings)[i])
        && r.value == |set i: nat | i < |bookings| && E.InLesson(old(sessions), course, customer, old(bookings)[i])|
    {
      E.CancelEnrollmentEffect(Contents(), course, enrollment);
      if enrollment >= |enrollments| || enrollments[enrollment].course != course { return Failed(NotFound); }
      var e := enrollments[enrollment];
      enrollments := enrollments[enrollment := e.(cancelled := true)];
      var which := InCourse(sessions, course, e.customer);
      var cancelled := SessionsOf(bookings, which);
      bookings := CancelBookings(bookings, which);
      for n := 0 to |cancelled|
        invariant sessions == ReleaseEach(old(sessions), cancelled[..n])
        invariant bookings == CancelBookings(old(bookings), which)
        invariant enrollments == old(enrollments)[enrollment := e.(cancelled := true)]
        invariant waitlist == old(waitlist) && courses == old(courses) && lost == old(lost)
      {
        assert cancelled[..n + 1][..n] == cancelled[..n];
        if cancelled[n] < |sessions| {
          GiveBack(cancelled[n]);
        }
      }
      assert cancelled[..|cancelled|] == cancelled;
      return Ok(|cancelled|);
    }
  }

  lemma {:induction false} BookLessonsStops(st: State, lessons: seq<nat>, n: nat, customer: nat, email: string)
    requires n <= |lessons| && BookLessons(st, lessons[..n], customer, email).None?
    ensures BookLessons(st, lessons, customer, email).None?
  {
    if n == |lessons| {
      assert lessons[..n] == lessons;
    } else {
      var init := lessons[..|lessons| - 1];
      assert init[..n] == lessons[..n];
      BookLessonsStops(st, init, n, customer, email);
    }
  }
}
