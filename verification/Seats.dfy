/** Seats, waitlist and courses of group sessions, each service call an atomic transaction on in-memory tables. */
module Seats {
  import opened Common

  datatype SessionStatus = Open | CalledOff | Finished

  datatype BookingStatus = Confirmed | Completed | NoShow | Cancelled

  datatype EntryStatus = Waiting | Promoted | Removed

  datatype Session = Session(capacity: int, booked: int, status: SessionStatus, course: Option<nat>, spotCount: int)

  datatype Booking = Booking(session: nat, customer: nat, email: string, spot: Option<string>, status: BookingStatus)
  {
    /** Counts for the unique indexes and for "already joined". */
    predicate Active() { status.Confirmed? || status.Completed? }
  }

  /** Entries are numbered in order of arrival. */
  datatype Entry = Entry(session: nat, email: string, position: int, status: EntryStatus)

  datatype Course = Course(capacity: int, open: bool)

  datatype Enrollment = Enrollment(course: nat, customer: nat, email: string, cancelled: bool)

  /** lost is a history variable: the bookings of each session that were cancelled past its counter. */
  datatype State = State(
    sessions: seq<Session>,
    bookings: seq<Booking>,
    waitlist: seq<Entry>,
    courses: seq<Course>,
    enrollments: seq<Enrollment>,
    lost: seq<nat>)

  datatype Reason =
    | NotFound | Already | AgeUnknown | AgeRestricted | PrerequisiteMissing | InvalidSpot | Full | SpotTaken
    | CapacityTooLow | CapacityBelowBooked | NotEditable | AlreadyCancelled | Closed | HasSpace | AlreadyWaiting
    | CourseClosed | CourseFull | AlreadyEnrolled | UniqueViolation | CannotCancel

  datatype Result<+T> = Ok(value: T) | Failed(reason: Reason)

  /** The chosen spot: its label and the number the label reads as, if it is an integer. */
  datatype Spot = Spot(text: string, number: Option<int>)

  /** A person joining: lower-cased e-mail, the customer row found or created for it, and the verdict of the age and
      prerequisite conditions. */
  datatype Person = Person(email: string, customer: nat, spot: Option<Spot>, gate: Option<Reason>)

  // ---- Counting ----

  predicate Seated(b: Booking, session: nat) { b.session == session && !b.status.Cancelled? }

  function SeatCount(bookings: seq<Booking>, session: nat): nat {
    if bookings == [] then 0
    else SeatCount(bookings[..|bookings| - 1], session) + if Seated(bookings[|bookings| - 1], session) then 1 else 0
  }

  // ---- The conditional update and its compensation ----

  predicate HasSeat(s: Session) { s.status.Open? && s.booked < s.capacity }

  function Reserve(s: Session): Session { s.(booked := s.booked + 1) }

  /** GREATEST(booked_count - 1, 0) */
  function Release(s: Session): Session { s.(booked := Max(s.booked - 1, 0)) }

  predicate SameCustomer(a: Booking, b: Booking) {
    a.session == b.session && a.customer == b.customer && a.Active() && b.Active()
  }

  predicate SameSpot(a: Booking, b: Booking) {
    a.session == b.session && a.spot.Some? && a.spot == b.spot && a.Active() && b.Active()
  }

  /** The unique indexes on (session, customer) and (session, spot), checked in that order. */
  function Violation(bookings: seq<Booking>, b: Booking, self: int): Option<Reason> {
    if exists i :: 0 <= i < |bookings| && i != self && SameCustomer(bookings[i], b) then Some(Already)
    else if exists i :: 0 <= i < |bookings| && i != self && SameSpot(bookings[i], b) then Some(SpotTaken)
    else None
  }

  predicate IsParticipant(b: Booking, session: nat, email: string) {
    b.session == session && b.email == email && b.Active()
  }

  predicate Participates(bookings: seq<Booking>, session: nat, email: string) {
    exists i :: 0 <= i < |bookings| && IsParticipant(bookings[i], session, email)
  }

  function SpotLabel(s: Session, spot: Option<Spot>): Option<string> {
    if s.spotCount > 0 && spot.Some? && spot.value.text != "" then Some(spot.value.text) else None
  }

  predicate SpotValid(s: Session, spot: Option<Spot>) {
    SpotLabel(s, spot).Some? ==> spot.value.number.Some? && 1 <= spot.value.number.value <= s.spotCount
  }

  // ---- Operations on the tables ----

  function CreateSession(st: State, capacity: int, spotCount: int, onMachine: bool): (State, Result<nat>) {
    if capacity < 1 || (capacity < 2 && !onMachine) then (st, Failed(CapacityTooLow))
    else
      (st.(sessions := st.sessions + [Session(capacity, 0, Open, None, spotCount)], lost := st.lost + [0]),
       Ok(|st.sessions|))
  }

  /** The lessons created for a new course are marked as its own. */
  function AssignLessons(sessions: seq<Session>, ids: seq<nat>, course: nat): seq<Session> {
    seq(|sessions|, i requires 0 <= i < |sessions| =>
      if i in ids then sessions[i].(course := Some(course)) else sessions[i])
  }

  function Join(st: State, session: nat, p: Person): (State, Result<nat>) {
    if session >= |st.sessions| then (st, Failed(NotFound))
    else
      var s := st.sessions[session];
      if Participates(st.bookings, session, p.email) then (st, Failed(Already))
      else if p.gate.Some? then (st, Failed(p.gate.value))
      else if !SpotValid(s, p.spot) then (st, Failed(InvalidSpot))
      else if !HasSeat(s) then (st, Failed(Full))
      else
        var b := Booking(session, p.customer, p.email, SpotLabel(s, p.spot), Confirmed);
        match Violation(st.bookings, b, -1)
        case Some(why) => (st.(sessions := st.sessions[session := Release(Reserve(s))]), Failed(why))
        case None =>
          (st.(sessions := st.sessions[session := Reserve(s)], bookings := st.bookings + [b]), Ok(|st.bookings|))
  }

  /** The waiting entry with the least position. */
  function Head(waitlist: seq<Entry>, session: nat): (head: Option<nat>)
    ensures head.Some? ==>
      head.value < |waitlist| && waitlist[head.value].session == session && waitlist[head.value].status.Waiting?
  {
    if waitlist == [] then None
    else
      var n := |waitlist| - 1;
      var best := Head(waitlist[..n], session);
      if waitlist[n].session != session || !waitlist[n].status.Waiting? then best
      else if best.Some? && waitlist[best.value].position <= waitlist[n].position then best
      else Some(n)
  }

  function Promote(st: State, session: nat, customer: nat): (State, Option<nat>)
    requires session < |st.sessions|
  {
    var s := st.sessions[session];
    var head := Head(st.waitlist, session);
    if !s.status.Open? || head.None? || !HasSeat(s) then (st, None)
    else
      var e := st.waitlist[head.value];
      var b := Booking(session, customer, e.email, None, Confirmed);
      if Violation(st.bookings, b, -1).Some? then
        (st.(sessions := st.sessions[session := Release(Reserve(s))],
             waitlist := st.waitlist[head.value := e.(status := Removed)]), None)
      else
        (st.(sessions := st.sessions[session := Reserve(s)], bookings := st.bookings + [b],
             waitlist := st.waitlist[head.value := e.(status := Promoted)]), Some(|st.bookings|))
  }

  function Withdraw(st: State, session: nat, booking: nat): State
    requires session < |st.sessions| && booking < |st.bookings|
  {
    st.(bookings := st.bookings[booking := st.bookings[booking].(status := Cancelled)],
        sessions := st.sessions[session := Release(st.sessions[session])])
  }

  predicate CanLeave(st: State, session: nat, booking: nat) {
    && session < |st.sessions|
    && booking < |st.bookings|
    && st.bookings[booking].session == session
    && st.bookings[booking].Active()
  }

  /** customer is the row found or created for the promoted entry. */
  function Leave(st: State, session: nat, booking: nat, customer: nat): (State, Result<Option<nat>>) {
    if !CanLeave(st, session, booking) then (st, Failed(NotFound))
    else
      var (st', promoted) := Promote(Withdraw(st, session, booking), session, customer);
      (st', Ok(promoted))
  }

  /** A booking of a session cancelled like any other booking, by the customer in the portal or by staff in the list of
      bookings: its session is not looked at, so the counter keeps the seat and nobody is promoted. */
  function CancelAlone(st: State, booking: nat, portal: bool): (State, Result<nat>) {
    if booking >= |st.bookings| then (st, Failed(NotFound))
    else
      var b := st.bookings[booking];
      if b.status.Cancelled? then (st, Failed(AlreadyCancelled))
      else if portal && b.status.Completed? then (st, Failed(CannotCancel))
      else
        (st.(bookings := st.bookings[booking := b.(status := Cancelled)],
             lost := if b.session < |st.lost| then st.lost[b.session := st.lost[b.session] + 1] else st.lost),
         Ok(booking))
  }

  function MarkAttendance(st: State, session: nat, booking: nat, attended: bool): (State, Result<nat>) {
    if booking >= |st.bookings| || !Seated(st.bookings[booking], session) then (st, Failed(NotFound))
    else
      var b := st.bookings[booking].(status := if attended then Completed else NoShow);
      if Violation(st.bookings, b, booking).Some? then (st, Failed(UniqueViolation))
      else (st.(bookings := st.bookings[booking := b]), Ok(booking))
  }

  function EditCapacity(st: State, session: nat, capacity: int, onMachine: bool): (State, Result<nat>) {
    if session >= |st.sessions| then (st, Failed(NotFound))
    else
      var s := st.sessions[session];
      if !s.status.Open? then (st, Failed(NotEditable))
      else if capacity < s.booked then (st, Failed(CapacityBelowBooked))
      else if capacity < 1 || (capacity < 2 && !onMachine) then (st, Failed(CapacityTooLow))
      else (st.(sessions := st.sessions[session := s.(capacity := capacity)]), Ok(session))
  }

  function CancelBookings(bookings: seq<Booking>, which: Booking -> bool): seq<Booking> {
    seq(|bookings|, i requires 0 <= i < |bookings| =>
      if which(bookings[i]) then bookings[i].(status := Cancelled) else bookings[i])
  }

  function InSession(session: nat): Booking -> bool { (b: Booking) => b.session == session && b.Active() }

  function CancelSession(st: State, session: nat): (State, Result<nat>) {
    if session >= |st.sessions| then (st, Failed(NotFound))
    else if st.sessions[session].status.CalledOff? then (st, Failed(AlreadyCancelled))
    else
      (st.(bookings := CancelBookings(st.bookings, InSession(session)),
           sessions := st.sessions[session := st.sessions[session].(status := CalledOff, booked := 0)]),
       Ok(session))
  }

  function MaxPosition(waitlist: seq<Entry>, session: nat): int {
    if waitlist == [] then 0
    else
      var e := waitlist[|waitlist| - 1];
      var m := MaxPosition(waitlist[..|waitlist| - 1], session);
      if e.session == session && e.status.Waiting? then Max(m, e.position) else m
  }

  /** The unique index on (session, lower e-mail) of waiting entries. */
  predicate IsQueued(e: Entry, session: nat, email: string) {
    e.session == session && e.email == email && e.status.Waiting?
  }

  function JoinWaitlist(st: State, session: nat, email: string): (State, Result<nat>) {
    if session >= |st.sessions| then (st, Failed(NotFound))
    else
      var s := st.sessions[session];
      if !s.status.Open? then (st, Failed(Closed))
      else if s.booked < s.capacity then (st, Failed(HasSpace))
      else if Participates(st.bookings, session, email) then (st, Failed(Already))
      else if exists i :: 0 <= i < |st.waitlist| && IsQueued(st.waitlist[i], session, email)
      then (st, Failed(AlreadyWaiting))
      else
        (st.(waitlist := st.waitlist + [Entry(session, email, MaxPosition(st.waitlist, session) + 1, Waiting)]),
         Ok(|st.waitlist|))
  }

  function LeaveWaitlist(st: State, session: nat, entry: nat): (State, Result<nat>) {
    if entry >= |st.waitlist| || st.waitlist[entry].session != session || !st.waitlist[entry].status.Waiting?
    then (st, Failed(NotFound))
    else (st.(waitlist := st.waitlist[entry := st.waitlist[entry].(status := Removed)]), Ok(entry))
  }

  function OpenLessons(sessions: seq<Session>, course: nat): seq<nat> {
    if sessions == [] then []
    else
      var n := |sessions| - 1;
      OpenLessons(sessions[..n], course)
      + if sessions[n].course == Some(course) && sessions[n].status.Open? then [n] else []
  }

  /** Book a lesson if it has room; None when a unique index stops the whole transaction. */
  function BookLesson(st: State, lesson: nat, customer: nat, email: string): Option<State> {
    if lesson >= |st.sessions| || st.sessions[lesson].booked >= st.sessions[lesson].capacity then Some(st)
    else
      var b := Booking(lesson, customer, email, None, Confirmed);
      if Violation(st.bookings, b, -1).Some? then None
      else
        Some(st.(sessions := st.sessions[lesson := Reserve(st.sessions[lesson])], bookings := st.bookings + [b]))
  }

  function BookLessons(st: State, lessons: seq<nat>, customer: nat, email: string): Option<State> {
    if lessons == [] then Some(st)
    else
      match BookLessons(st, lessons[..|lessons| - 1], customer, email)
      case None => None
      case Some(before) => BookLesson(before, lessons[|lessons| - 1], customer, email)
  }

  function EnrolledCount(enrollments: seq<Enrollment>, course: nat): nat {
    if enrollments == [] then 0
    else
      var e := enrollments[|enrollments| - 1];
      EnrolledCount(enrollments[..|enrollments| - 1], course) + if e.course == course && !e.cancelled then 1 else 0
  }

  /** The unique index on (course, lower e-mail) of enrolments that are not cancelled. */
  predicate IsEnrolled(e: Enrollment, course: nat, email: string) {
    e.course == course && e.email == email && !e.cancelled
  }

  function Enroll(st: State, course: nat, email: string, customer: nat): (State, Result<nat>) {
    if course >= |st.courses| then (st, Failed(NotFound))
    else if !st.courses[course].open then (st, Failed(CourseClosed))
    else if EnrolledCount(st.enrollments, course) >= st.courses[course].capacity then (st, Failed(CourseFull))
    else if exists i :: 0 <= i < |st.enrollments| && IsEnrolled(st.enrollments[i], course, email)
    then (st, Failed(AlreadyEnrolled))
    else
      var st' := st.(enrollments := st.enrollments + [Enrollment(course, customer, email, false)]);
      match BookLessons(st', OpenLessons(st.sessions, course), customer, email)
      case None => (st, Failed(UniqueViolation))
      case Some(done) => (done, Ok(|st.enrollments|))
  }

  /** Sessions of the bookings that match, one per booking. */
  function SessionsOf(bookings: seq<Booking>, which: Booking -> bool): seq<nat> {
    if bookings == [] then []
    else
      var b := bookings[|bookings| - 1];
      SessionsOf(bookings[..|bookings| - 1], which) + if which(b) then [b.session] else []
  }

  function ReleaseEach(sessions: seq<Session>, ids: seq<nat>): seq<Session> {
    if ids == [] then sessions
    else
      var before := ReleaseEach(sessions, ids[..|ids| - 1]);
      var id := ids[|ids| - 1];
      if id < |before| then before[id := Release(before[id])] else before
  }

  function InCourse(sessions: seq<Session>, course: nat, customer: nat): Booking -> bool {
    (b: Booking) => b.customer == customer && b.Active() && b.session < |sessions|
      && sessions[b.session].course == Some(course)
  }

  function CancelEnrollment(st: State, course: nat, enrollment: nat): (State, Result<nat>) {
    if enrollment >= |st.enrollments| || st.enrollments[enrollment].course != course then (st, Failed(NotFound))
    else
      var e := st.enrollments[enrollment];
      var which := InCourse(st.sessions, course, e.customer);
      var released := SessionsOf(st.bookings, which);
      (st.(enrollments := st.enrollments[enrollment := e.(cancelled := true)],
           bookings := CancelBookings(st.bookings, which),
           sessions := ReleaseEach(st.sessions, released)),
       Ok(|released|))
  }
}
