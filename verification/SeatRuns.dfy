/** Seat accounting and waitlist order over whole runs of the seat tables. */
module SeatRuns {
  import opened Common
  import opened Seats

  // ---- The invariant ----

  /** The counter of an open session is the number of its bookings that are not cancelled, and of those cancelled past
      the counter. */
  ghost predicate Accounted(st: State) {
    && |st.lost| == |st.sessions|
    && forall s :: 0 <= s < |st.sessions| && st.sessions[s].status.Open? ==>
         st.sessions[s].booked == SeatCount(st.bookings, s) + st.lost[s]
  }

  ghost predicate InRange(st: State) {
    && (forall s :: 0 <= s < |st.sessions| ==> 0 <= st.sessions[s].booked <= st.sessions[s].capacity)
    && (forall s :: 0 <= s < |st.sessions| && !st.sessions[s].status.Open? ==> st.sessions[s].booked == 0)
    && (forall i :: 0 <= i < |st.bookings| ==> st.bookings[i].session < |st.sessions|)
  }

  ghost predicate NoDoubles(bookings: seq<Booking>) {
    forall i, j :: 0 <= i < j < |bookings| ==>
      !SameCustomer(bookings[i], bookings[j]) && !SameSpot(bookings[i], bookings[j])
  }

  predicate WaitsFor(e: Entry, session: nat) { e.session == session && e.status.Waiting? }

  /** Among the waiting entries of a session, later arrivals have greater positions and other e-mails. */
  ghost predicate Queued(waitlist: seq<Entry>) {
    forall i, j :: 0 <= i < j < |waitlist| && WaitsFor(waitlist[i], waitlist[j].session) && waitlist[j].status.Waiting?
      ==> waitlist[i].position < waitlist[j].position && waitlist[i].email != waitlist[j].email
  }

  ghost predicate Inv(st: State) {
    Accounted(st) && InRange(st) && NoDoubles(st.bookings) && Queued(st.waitlist)
  }

  // ---- Counting ----

  lemma CountSnoc(bookings: seq<Booking>, b: Booking, s: nat)
    ensures SeatCount(bookings + [b], s) == SeatCount(bookings, s) + if Seated(b, s) then 1 else 0
  {
  }

  lemma {:induction false} CountSet(bookings: seq<Booking>, k: nat, b: Booking, s: nat)
    requires k < |bookings|
    ensures SeatCount(bookings[k := b], s)
         == SeatCount(bookings, s) - (if Seated(bookings[k], s) then 1 else 0) + if Seated(b, s) then 1 else 0
  {
    var n := |bookings| - 1;
    var all := bookings[k := b];
    if k < n {
      assert all[..n] == bookings[..n][k := b];
      CountSet(bookings[..n], k, b, s);
    } else {
      assert all[..n] == bookings[..n];
    }
  }

  lemma {:induction false} CountNone(bookings: seq<Booking>, s: nat)
    requires forall i :: 0 <= i < |bookings| ==> bookings[i].session != s
    ensures SeatCount(bookings, s) == 0
  {
    if bookings != [] { CountNone(bookings[..|bookings| - 1], s); }
  }

  lemma {:induction false} CountPositive(bookings: seq<Booking>, k: nat, s: nat)
    requires k < |bookings| && Seated(bookings[k], s)
    ensures SeatCount(bookings, s) >= 1
  {
    if k < |bookings| - 1 { CountPositive(bookings[..|bookings| - 1], k, s); }
  }

  function Times(ids: seq<nat>, s: nat): nat {
    if ids == [] then 0 else Times(ids[..|ids| - 1], s) + if ids[|ids| - 1] == s then 1 else 0
  }

  lemma CancelSnoc(bookings: seq<Booking>, b: Booking, which: Booking -> bool)
    ensures CancelBookings(bookings + [b], which)
         == CancelBookings(bookings, which) + [if which(b) then b.(status := Cancelled) else b]
    ensures SessionsOf(bookings + [b], which)
         == if which(b) then SessionsOf(bookings, which) + [b.session] else SessionsOf(bookings, which)
  {
    assert (bookings + [b])[..|bookings|] == bookings;
  }

  /** Cancelling matching bookings that were not cancelled lowers each count by the number of matches. */
  lemma {:induction false} CountCancelled(bookings: seq<Booking>, which: Booking -> bool, s: nat)
    requires forall i :: 0 <= i < |bookings| && which(bookings[i]) ==> !bookings[i].status.Cancelled?
    ensures SeatCount(CancelBookings(bookings, which), s)
         == SeatCount(bookings, s) - Times(SessionsOf(bookings, which), s)
  {
    if bookings != [] {
      var n := |bookings| - 1;
      var init, last := bookings[..n], bookings[n];
      assert forall i :: 0 <= i < n ==> init[i] == bookings[i];
      assert bookings == init + [last];
      CountCancelled(init, which, s);
      CancelSnoc(init, last, which);
      CountSnoc(init, last, s);
      if which(last) {
        CountSnoc(CancelBookings(init, which), last.(status := Cancelled), s);
        TimesSnoc(SessionsOf(init, which), last.session, s);
      } else {
        CountSnoc(CancelBookings(init, which), last, s);
      }
    }
  }

  lemma TimesSnoc(ids: seq<nat>, id: nat, s: nat)
    ensures Times(ids + [id], s) == Times(ids, s) + if id == s then 1 else 0
  {
  }

  /** Releasing a list of seats one by one: the clamp matters only for a session released more often than booked. */
  lemma {:induction false} ReleaseEachCounts(sessions: seq<Session>, ids: seq<nat>)
    requires forall k :: 0 <= k < |ids| ==> ids[k] < |sessions|
    requires forall s :: 0 <= s < |sessions| ==> sessions[s].booked >= 0
    ensures |ReleaseEach(sessions, ids)| == |sessions|
    ensures forall s :: 0 <= s < |sessions| ==>
      ReleaseEach(sessions, ids)[s] == sessions[s].(booked := Max(sessions[s].booked - Times(ids, s), 0))
  {
    if ids != [] {
      var init := ids[..|ids| - 1];
      ReleaseEachCounts(sessions, init);
    }
  }

  // ---- Single steps ----

  lemma ReserveRelease(s: Session)
    requires s.booked >= 0
    ensures Release(Reserve(s)) == s
  {
  }

  lemma TakenKeepsDoubles(bookings: seq<Booking>, b: Booking)
    requires NoDoubles(bookings) && Violation(bookings, b, -1).None?
    ensures NoDoubles(bookings + [b])
  {
  }

  /** Reserving a seat and inserting the booking keeps the books. */
  lemma SeatTaken(st: State, session: nat, b: Booking, waitlist: seq<Entry>)
    requires Inv(st) && session < |st.sessions| && HasSeat(st.sessions[session])
    requires b.session == session && b.status.Confirmed? && Violation(st.bookings, b, -1).None? && Queued(waitlist)
    ensures Inv(st.(sessions := st.sessions[session := Reserve(st.sessions[session])], bookings := st.bookings + [b],
                    waitlist := waitlist))
  {
    var s := st.sessions[session];
    var sessions', bookings' := st.sessions[session := Reserve(s)], st.bookings + [b];
    TakenKeepsDoubles(st.bookings, b);
    forall k | 0 <= k < |sessions'| && sessions'[k].status.Open?
      ensures sessions'[k].booked == SeatCount(bookings', k) + st.lost[k]
    {
      CountSnoc(st.bookings, b, k);
    }
  }

  lemma JoinKeeps(st: State, session: nat, p: Person)
    requires Inv(st)
    ensures Inv(Join(st, session, p).0)
    ensures Join(st, session, p).1.Failed? ==> Join(st, session, p).0 == st
  {
    if session < |st.sessions| {
      var s := st.sessions[session];
      ReserveRelease(s);
      assert st.sessions[session := s] == st.sessions;
      var b := Booking(session, p.customer, p.email, SpotLabel(s, p.spot), Confirmed);
      if HasSeat(s) && Violation(st.bookings, b, -1).None? { SeatTaken(st, session, b, st.waitlist); }
    }
  }

  lemma {:induction false} HeadIsFirst(waitlist: seq<Entry>, session: nat)
    requires Queued(waitlist)
    ensures match Head(waitlist, session)
      case None => forall i :: 0 <= i < |waitlist| ==> !WaitsFor(waitlist[i], session)
      case Some(h) =>
        && h < |waitlist| && WaitsFor(waitlist[h], session)
        && forall i :: 0 <= i < h ==> !WaitsFor(waitlist[i], session)
  {
    if waitlist != [] {
      var n := |waitlist| - 1;
      var init := waitlist[..n];
      assert forall i :: 0 <= i < n ==> init[i] == waitlist[i];
      assert Queued(init);
      HeadIsFirst(init, session);
    }
  }

  lemma SettleKeepsQueue(waitlist: seq<Entry>, k: nat, status: EntryStatus)
    requires Queued(waitlist) && k < |waitlist| && !status.Waiting?
    ensures Queued(waitlist[k := waitlist[k].(status := status)])
  {
  }

  lemma PromoteKeeps(st: State, session: nat, customer: nat)
    requires Inv(st) && session < |st.sessions|
    ensures Inv(Promote(st, session, customer).0)
  {
    var s := st.sessions[session];
    var head := Head(st.waitlist, session);
    if s.status.Open? && head.Some? && HasSeat(s) {
      var e := st.waitlist[head.value];
      var b := Booking(session, customer, e.email, None, Confirmed);
      SettleKeepsQueue(st.waitlist, head.value, Removed);
      SettleKeepsQueue(st.waitlist, head.value, Promoted);
      ReserveRelease(s);
      assert st.sessions[session := s] == st.sessions;
      if Violation(st.bookings, b, -1).None? {
        SeatTaken(st, session, b, st.waitlist[head.value := e.(status := Promoted)]);
      }
    }
  }

  lemma ShrinkKeepsDoubles(bookings: seq<Booking>, bookings': seq<Booking>)
    requires NoDoubles(bookings) && |bookings'| == |bookings|
    requires forall i :: 0 <= i < |bookings| ==>
      bookings'[i] == bookings[i] || !bookings'[i].Active()
    ensures NoDoubles(bookings')
  {
  }

  lemma WithdrawKeeps(st: State, session: nat, booking: nat)
    requires Inv(st) && CanLeave(st, session, booking)
    ensures Inv(Withdraw(st, session, booking))
    ensures st.sessions[session].status.Open? ==>
      Withdraw(st, session, booking).sessions[session].booked == st.sessions[session].booked - 1
  {
    var st' := Withdraw(st, session, booking);
    ShrinkKeepsDoubles(st.bookings, st'.bookings);
    CountPositive(st.bookings, booking, session);
    forall s | 0 <= s < |st'.sessions| && st'.sessions[s].status.Open?
      ensures st'.sessions[s].booked == SeatCount(st'.bookings, s) + st'.lost[s]
    {
      CountSet(st.bookings, booking, st.bookings[booking].(status := Cancelled), s);
    }
  }

  lemma LeaveKeeps(st: State, session: nat, booking: nat, customer: nat)
    requires Inv(st)
    ensures Inv(Leave(st, session, booking, customer).0)
  {
    if CanLeave(st, session, booking) {
      WithdrawKeeps(st, session, booking);
      PromoteKeeps(Withdraw(st, session, booking), session, customer);
    }
  }

  lemma AttendanceKeeps(st: State, session: nat, booking: nat, attended: bool)
    requires Inv(st)
    ensures Inv(MarkAttendance(st, session, booking, attended).0)
  {
    var (st', r) := MarkAttendance(st, session, booking, attended);
    if r.Ok? {
      var b := st'.bookings[booking];
      forall s ensures SeatCount(st'.bookings, s) == SeatCount(st.bookings, s) {
        CountSet(st.bookings, booking, b, s);
      }
      forall i, j | 0 <= i < j < |st'.bookings|
        ensures !SameCustomer(st'.bookings[i], st'.bookings[j]) && !SameSpot(st'.bookings[i], st'.bookings[j])
      {
        if i == booking {
          assert !SameCustomer(st.bookings[j], b) && !SameSpot(st.bookings[j], b);
        } else if j == booking {
          assert !SameCustomer(st.bookings[i], b) && !SameSpot(st.bookings[i], b);
        } else {
          assert !SameCustomer(st.bookings[i], st.bookings[j]) && !SameSpot(st.bookings[i], st.bookings[j]);
        }
      }
    }
  }

  lemma CancelAloneKeeps(st: State, booking: nat, portal: bool)
    requires Inv(st)
    ensures Inv(CancelAlone(st, booking, portal).0)
  {
    var (st', r) := CancelAlone(st, booking, portal);
    if r.Ok? {
      ShrinkKeepsDoubles(st.bookings, st'.bookings);
      forall s | 0 <= s < |st'.sessions| && st'.sessions[s].status.Open?
        ensures st'.sessions[s].booked == SeatCount(st'.bookings, s) + st'.lost[s]
      {
        CountSet(st.bookings, booking, st'.bookings[booking], s);
      }
    }
  }

  lemma CancelSessionKeeps(st: State, session: nat)
    requires Inv(st)
    ensures Inv(CancelSession(st, session).0)
  {
    var (st', r) := CancelSession(st, session);
    if r.Ok? {
      ShrinkKeepsDoubles(st.bookings, st'.bookings);
      forall s | 0 <= s < |st'.sessions| && st'.sessions[s].status.Open?
        ensures st'.sessions[s].booked == SeatCount(st'.bookings, s) + st'.lost[s]
      {
        CountOthers(st.bookings, st'.bookings, session, s);
      }
    }
  }

  lemma {:induction false} CountOthers(bookings: seq<Booking>, bookings': seq<Booking>, session: nat, s: nat)
    requires s != session && |bookings'| == |bookings|
    requires forall i :: 0 <= i < |bookings| ==>
      bookings'[i] == bookings[i] || (bookings[i].session == session && bookings'[i].session == session)
    ensures SeatCount(bookings', s) == SeatCount(bookings, s)
  {
    if bookings != [] {
      CountOthers(bookings[..|bookings| - 1], bookings'[..|bookings| - 1], session, s);
    }
  }

  lemma {:induction false} MaxPositionBounds(waitlist: seq<Entry>, session: nat)
    ensures forall i :: 0 <= i < |waitlist| && WaitsFor(waitlist[i], session) ==>
      waitlist[i].position <= MaxPosition(waitlist, session)
  {
    if waitlist != [] {
      var n := |waitlist| - 1;
      MaxPositionBounds(waitlist[..n], session);
      assert forall i :: 0 <= i < n ==> waitlist[..n][i] == waitlist[i];
    }
  }

  lemma JoinWaitlistKeeps(st: State, session: nat, email: string)
    requires Inv(st)
    ensures Inv(JoinWaitlist(st, session, email).0)
  {
    MaxPositionBounds(st.waitlist, session);
  }

  lemma {:induction false} LessonsAreOpen(sessions: seq<Session>, course: nat)
    ensures forall k :: 0 <= k < |OpenLessons(sessions, course)| ==>
      OpenLessons(sessions, course)[k] < |sessions| && sessions[OpenLessons(sessions, course)[k]].status.Open?
  {
    if sessions != [] { LessonsAreOpen(sessions[..|sessions| - 1], course); }
  }

  ghost predicate AllOpen(sessions: seq<Session>, ids: seq<nat>) {
    forall k :: 0 <= k < |ids| ==> ids[k] < |sessions| && sessions[ids[k]].status.Open?
  }

  lemma BookLessonKeeps(st: State, lesson: nat, customer: nat, email: string)
    requires Inv(st) && lesson < |st.sessions| && st.sessions[lesson].status.Open?
    ensures var done := BookLesson(st, lesson, customer, email);
      done.Some? ==> Inv(done.value) && SameStatuses(st.sessions, done.value.sessions)
  {
    var b := Booking(lesson, customer, email, None, Confirmed);
    if HasSeat(st.sessions[lesson]) && Violation(st.bookings, b, -1).None? {
      SeatTaken(st, lesson, b, st.waitlist);
    }
  }

  lemma {:induction false} BookLessonsKeeps(st: State, lessons: seq<nat>, customer: nat, email: string)
    requires Inv(st) && AllOpen(st.sessions, lessons)
    ensures var done := BookLessons(st, lessons, customer, email);
      done.Some? ==> Inv(done.value) && SameStatuses(st.sessions, done.value.sessions)
  {
    if lessons != [] {
      var init, lesson := lessons[..|lessons| - 1], lessons[|lessons| - 1];
      assert forall k :: 0 <= k < |init| ==> init[k] == lessons[k];
      BookLessonsKeeps(st, init, customer, email);
      var before := BookLessons(st, init, customer, email);
      if before.Some? { BookLessonKeeps(before.value, lesson, customer, email); }
    }
  }

  ghost predicate SameStatuses(a: seq<Session>, b: seq<Session>) {
    |a| == |b| && forall s :: 0 <= s < |a| ==> a[s].status == b[s].status
  }

  lemma EnrollKeeps(st: State, course: nat, email: string, customer: nat)
    requires Inv(st)
    ensures Inv(Enroll(st, course, email, customer).0)
  {
    var st' := st.(enrollments := st.enrollments + [Enrollment(course, customer, email, false)]);
    LessonsAreOpen(st.sessions, course);
    BookLessonsKeeps(st', OpenLessons(st.sessions, course), customer, email);
  }

  lemma {:induction false} SessionsOfInRange(bookings: seq<Booking>, which: Booking -> bool, n: nat)
    requires forall i :: 0 <= i < |bookings| ==> bookings[i].session < n
    ensures forall k :: 0 <= k < |SessionsOf(bookings, which)| ==> SessionsOf(bookings, which)[k] < n
  {
    if bookings != [] { SessionsOfInRange(bookings[..|bookings| - 1], which, n); }
  }

  lemma CancelEnrollmentKeeps(st: State, course: nat, enrollment: nat)
    requires Inv(st)
    ensures Inv(CancelEnrollment(st, course, enrollment).0)
  {
    var (st', r) := CancelEnrollment(st, course, enrollment);
    if r.Ok? {
      var which := InCourse(st.sessions, course, st.enrollments[enrollment].customer);
      var released := SessionsOf(st.bookings, which);
      SessionsOfInRange(st.bookings, which, |st.sessions|);
      ReleaseEachCounts(st.sessions, released);
      ShrinkKeepsDoubles(st.bookings, st'.bookings);
      forall s | 0 <= s < |st'.sessions| && st'.sessions[s].status.Open?
        ensures st'.sessions[s].booked == SeatCount(st'.bookings, s) + st'.lost[s]
      {
        CountCancelled(st.bookings, which, s);
      }
    }
  }

  // ---- Runs ----

  datatype Event =
    | DoCreateSession(capacity: int, spotCount: int, onMachine: bool)
    | DoCreateCourse(newCourse: Course)
    | DoAssignLessons(ids: seq<nat>, owningCourse: nat)
    | DoJoin(session: nat, person: Person)
    | DoLeave(session: nat, booking: nat, customer: nat)
    | DoMarkAttendance(session: nat, booking: nat, attended: bool)
    | DoCancelAlone(booking: nat, portal: bool)
    | DoEditCapacity(session: nat, capacity: int, onMachine: bool)
    | DoCancelSession(session: nat)
    | DoJoinWaitlist(session: nat, email: string)
    | DoLeaveWaitlist(session: nat, entry: nat)
    | DoEnroll(course: nat, email: string, customer: nat)
    | DoCancelEnrollment(course: nat, enrollment: nat)

  function Step(st: State, ev: Event): State {
    match ev
    case DoCreateSession(capacity, spotCount, onMachine) => CreateSession(st, capacity, spotCount, onMachine).0
    case DoCreateCourse(course) => st.(courses := st.courses + [course])
    case DoAssignLessons(ids, course) => st.(sessions := AssignLessons(st.sessions, ids, course))
    case DoJoin(session, person) => Join(st, session, person).0
    case DoLeave(session, booking, customer) => Leave(st, session, booking, customer).0
    case DoMarkAttendance(session, booking, attended) => MarkAttendance(st, session, booking, attended).0
    case DoCancelAlone(booking, portal) => CancelAlone(st, booking, portal).0
    case DoEditCapacity(session, capacity, onMachine) => EditCapacity(st, session, capacity, onMachine).0
    case DoCancelSession(session) => CancelSession(st, session).0
    case DoJoinWaitlist(session, email) => JoinWaitlist(st, session, email).0
    case DoLeaveWaitlist(session, entry) => LeaveWaitlist(st, session, entry).0
    case DoEnroll(course, email, customer) => Enroll(st, course, email, customer).0
    case DoCancelEnrollment(course, enrollment) => CancelEnrollment(st, course, enrollment).0
  }

  function Run(events: seq<Event>): State {
    if events == [] then State([], [], [], [], [], []) else Step(Run(events[..|events| - 1]), events[|events| - 1])
  }

  lemma EditCapacityKeeps(st: State, session: nat, capacity: int, onMachine: bool)
    requires Inv(st)
    ensures Inv(EditCapacity(st, session, capacity, onMachine).0)
  {
  }

  lemma AssignLessonsKeeps(st: State, ids: seq<nat>, course: nat)
    requires Inv(st)
    ensures Inv(st.(sessions := AssignLessons(st.sessions, ids, course)))
  {
  }

  lemma CreateSessionKeeps(st: State, capacity: int, spotCount: int, onMachine: bool)
    requires Inv(st)
    ensures Inv(CreateSession(st, capacity, spotCount, onMachine).0)
  {
    CountNone(st.bookings, |st.sessions|);
  }

  predicate OnOneSession(ev: Event) {
    ev.DoJoin? || ev.DoLeave? || ev.DoMarkAttendance? || ev.DoCancelAlone? || ev.DoEditCapacity? || ev.DoCancelSession?
  }

  lemma SessionStepKeeps(st: State, ev: Event)
    requires Inv(st) && OnOneSession(ev)
    ensures Inv(Step(st, ev))
  {
    match ev
    case DoJoin(session, person) => JoinKeeps(st, session, person);
    case DoLeave(session, booking, customer) => LeaveKeeps(st, session, booking, customer);
    case DoMarkAttendance(session, booking, attended) => AttendanceKeeps(st, session, booking, attended);
    case DoCancelAlone(booking, portal) => CancelAloneKeeps(st, booking, portal);
    case DoEditCapacity(session, capacity, onMachine) => EditCapacityKeeps(st, session, capacity, onMachine);
    case DoCancelSession(session) => CancelSessionKeeps(st, session);
  }

  lemma OtherStepKeeps(st: State, ev: Event)
    requires Inv(st) && !OnOneSession(ev)
    ensures Inv(Step(st, ev))
  {
    match ev
    case DoCreateSession(capacity, spotCount, onMachine) => CreateSessionKeeps(st, capacity, spotCount, onMachine);
    case DoCreateCourse(_) =>
    case DoAssignLessons(ids, course) => AssignLessonsKeeps(st, ids, course);
    case DoJoinWaitlist(session, email) => JoinWaitlistKeeps(st, session, email);
    case DoLeaveWaitlist(session, entry) => LeaveWaitlistKeeps(st, session, entry);
    case DoEnroll(course, email, customer) => EnrollKeeps(st, course, email, customer);
    case DoCancelEnrollment(course, enrollment) => CancelEnrollmentKeeps(st, course, enrollment);
  }

  lemma StepKeeps(st: State, ev: Event)
    requires Inv(st)
    ensures Inv(Step(st, ev))
  {
    if OnOneSession(ev) { SessionStepKeeps(st, ev); } else { OtherStepKeeps(st, ev); }
  }

  lemma LeaveWaitlistKeeps(st: State, session: nat, entry: nat)
    requires Inv(st)
    ensures Inv(LeaveWaitlist(st, session, entry).0)
  {
    if LeaveWaitlist(st, session, entry).1.Ok? { SettleKeepsQueue(st.waitlist, entry, Removed); }
  }

  /** In every reachable state: the counter of each open session is the number of its non-cancelled bookings plus those
      cancelled past it, no counter exceeds its capacity, nobody holds two active seats or one spot twice, and waiting
      positions follow arrival. So no session is ever oversold. */
  lemma {:induction false} SeatsStayAccounted(events: seq<Event>)
    ensures Inv(Run(events))
    ensures forall s :: 0 <= s < |Run(events).sessions| && Run(events).sessions[s].status.Open? ==>
      SeatCount(Run(events).bookings, s) <= Run(events).sessions[s].booked <= Run(events).sessions[s].capacity
  {
    if events != [] {
      SeatsStayAccounted(events[..|events| - 1]);
      StepKeeps(Run(events[..|events| - 1]), events[|events| - 1]);
    }
  }

  // ---- Cancellations past the counter ----

  /** The event cancels a booking of the session without its service. */
  predicate CancelsPast(st: State, ev: Event, s: nat) {
    && ev.DoCancelAlone? && CancelAlone(st, ev.booking, ev.portal).1.Ok?
    && ev.booking < |st.bookings| && st.bookings[ev.booking].session == s
  }

  /** Event n of the run does. */
  predicate PastAt(events: seq<Event>, n: nat, s: nat)
    requires n < |events|
  {
    CancelsPast(Run(events[..n]), events[n], s)
  }

  /** How many events of the run do. */
  function CancelledPast(events: seq<Event>, s: nat): nat {
    if events == [] then 0
    else CancelledPast(events[..|events| - 1], s) + if PastAt(events, |events| - 1, s) then 1 else 0
  }

  lemma StepLost(st: State, ev: Event, s: nat)
    requires Inv(st)
    ensures |st.lost| <= |Step(st, ev).lost|
    ensures s < |st.lost| ==> Step(st, ev).lost[s] == st.lost[s] + if CancelsPast(st, ev, s) then 1 else 0
    ensures |st.lost| <= s < |Step(st, ev).lost| ==> Step(st, ev).lost[s] == 0
  {
    if ev.DoEnroll? { EnrollLost(st, ev.course, ev.email, ev.customer); }
  }

  lemma EnrollLost(st: State, course: nat, email: string, customer: nat)
    ensures Enroll(st, course, email, customer).0.lost == st.lost
    ensures Enroll(st, course, email, customer).0.waitlist == st.waitlist
  {
    var st' := st.(enrollments := st.enrollments + [Enrollment(course, customer, email, false)]);
    BookLessonsWaitlist(st', OpenLessons(st.sessions, course), customer, email);
  }

  lemma {:induction false} LostIsCancelledPast(events: seq<Event>, s: nat)
    ensures CancelledPast(events, s) == if s < |Run(events).lost| then Run(events).lost[s] else 0
  {
    if events != [] {
      var init := events[..|events| - 1];
      LostIsCancelledPast(init, s);
      SeatsStayAccounted(init);
      StepLost(Run(init), events[|events| - 1], s);
    }
  }

  /** The counter of an open session runs ahead of its bookings by exactly the cancellations past it, so it is the
      number of its non-cancelled bookings if and only if there was none. */
  lemma CounterIsExactIff(events: seq<Event>, s: nat)
    requires s < |Run(events).sessions| && Run(events).sessions[s].status.Open?
    ensures Run(events).sessions[s].booked == SeatCount(Run(events).bookings, s) + CancelledPast(events, s)
    ensures Run(events).sessions[s].booked == SeatCount(Run(events).bookings, s)
       <==> NonePast(events, s)
  {
    SeatsStayAccounted(events);
    LostIsCancelledPast(events, s);
    NoneCancelledPastIff(events, s);
  }

  ghost predicate NonePast(events: seq<Event>, s: nat) {
    forall n :: 0 <= n < |events| ==> !PastAt(events, n, s)
  }

  lemma NonePastSnoc(events: seq<Event>, s: nat)
    requires events != []
    ensures NonePast(events, s) <==> NonePast(events[..|events| - 1], s) && !PastAt(events, |events| - 1, s)
  {
    var init := events[..|events| - 1];
    forall n | 0 <= n < |init| ensures PastAt(events, n, s) <==> PastAt(init, n, s) {
      assert init[..n] == events[..n];
    }
  }

  lemma {:induction false} NoneCancelledPastIff(events: seq<Event>, s: nat)
    ensures CancelledPast(events, s) == 0 <==> NonePast(events, s)
  {
    if events != [] {
      NoneCancelledPastIff(events[..|events| - 1], s);
      NonePastSnoc(events, s);
    }
  }

  function OneLeft(): State {
    State([Session(2, 2, Open, None, 0)],
          [Booking(0, 7, "a", None, Cancelled), Booking(0, 8, "b", None, Confirmed)], [], [], [], [1])
  }

  lemma TwoJoined() returns (events: seq<Event>)
    ensures Run(events)
         == State([Session(2, 2, Open, None, 0)],
                  [Booking(0, 7, "a", None, Confirmed), Booking(0, 8, "b", None, Confirmed)], [], [], [], [0])
  {
    var one := ListAndJoin();
    RunSnoc(one, DoJoin(0, Person("b", 8, None, None)));
    events := one + [DoJoin(0, Person("b", 8, None, None))];
  }

  lemma OneGaveUp() returns (events: seq<Event>)
    ensures Run(events) == OneLeft()
  {
    var two := TwoJoined();
    RunSnoc(two, DoCancelAlone(0, true));
    events := two + [DoCancelAlone(0, true)];
  }

  /** A seat given up in the portal stays taken: in a session of two places with one booking left, a second customer is
      turned away as from a full one. */
  lemma SeatGivenUpStaysTaken() returns (events: seq<Event>)
    ensures var st := Run(events);
      && |st.sessions| == 1 && st.sessions[0].status.Open? && st.sessions[0].capacity == 2
      && SeatCount(st.bookings, 0) == 1
      && Join(st, 0, Person("c", 9, None, None)).1 == Failed(Full)
  {
    events := OneGaveUp();
    OneSeated(OneLeft().bookings[0], OneLeft().bookings[1]);
  }

  lemma OneSeated(a: Booking, b: Booking)
    requires a.status.Cancelled? && Seated(b, 0)
    ensures SeatCount([a, b], 0) == 1
  {
    assert [a, b] == [a] + [b] && [a] == [] + [a];
    CountSnoc([a], b, 0);
    CountSnoc([], a, 0);
  }

  // ---- The clamp ----

  /** When somebody leaves, GREATEST(booked_count - 1, 0) is a plain decrement if and only if the session is open. */
  lemma ClampIdleIffOpen(events: seq<Event>, session: nat, booking: nat)
    requires CanLeave(Run(events), session, booking)
    ensures Run(events).sessions[session].status.Open?
       <==> Release(Run(events).sessions[session]).booked == Run(events).sessions[session].booked - 1
  {
    SeatsStayAccounted(events);
    if Run(events).sessions[session].status.Open? { CountPositive(Run(events).bookings, booking, session); }
  }

  /** On an open lesson it never acts when an enrolment is cancelled: the counter falls by exactly the cancelled
      bookings. */
  lemma ClampIdleOnCourseCancel(events: seq<Event>, course: nat, enrollment: nat, s: nat)
    requires CancelEnrollment(Run(events), course, enrollment).1.Ok?
    requires s < |Run(events).sessions| && Run(events).sessions[s].status.Open?
    ensures var st := Run(events);
      var released := SessionsOf(st.bookings, InCourse(st.sessions, course, st.enrollments[enrollment].customer));
      && |CancelEnrollment(st, course, enrollment).0.sessions| == |st.sessions|
      && CancelEnrollment(st, course, enrollment).0.sessions[s].booked == st.sessions[s].booked - Times(released, s)
  {
    var st := Run(events);
    SeatsStayAccounted(events);
    CancelEnrollmentKeeps(st, course, enrollment);
    var which := InCourse(st.sessions, course, st.enrollments[enrollment].customer);
    SessionsOfInRange(st.bookings, which, |st.sessions|);
    ReleaseEachCounts(st.sessions, SessionsOf(st.bookings, which));
    CountCancelled(st.bookings, which, s);
  }

  lemma RunSnoc(events: seq<Event>, ev: Event)
    ensures Run(events + [ev]) == Step(Run(events), ev)
  {
  }

  /** One session of two places with one booking in the given status. */
  function OneBooking(status: BookingStatus): State {
    State([Session(2, 1, Open, None, 0)], [Booking(0, 7, "a", None, status)], [], [], [], [0])
  }

  lemma ListAndJoin() returns (events: seq<Event>)
    ensures Run(events) == OneBooking(Confirmed)
  {
    var create, join := DoCreateSession(2, 0, false), DoJoin(0, Person("a", 7, None, None));
    RunSnoc([], create);
    assert [] + [create] == [create];
    assert Run([create]) == State([Session(2, 0, Open, None, 0)], [], [], [], [], [0]);
    RunSnoc([create], join);
    events := [create] + [join];
  }

  lemma OneNoShow() returns (events: seq<Event>)
    ensures Run(events) == OneBooking(NoShow)
  {
    var joined := ListAndJoin();
    RunSnoc(joined, DoMarkAttendance(0, 0, false));
    events := joined + [DoMarkAttendance(0, 0, false)];
  }

  /** A session one can leave after it was called off is reachable: a no-show survives the cancellation and is then
      marked present. */
  lemma ClampActsOnCalledOffSession() returns (events: seq<Event>)
    ensures CanLeave(Run(events), 0, 0) && Run(events).sessions[0].status.CalledOff?
    ensures Leave(Run(events), 0, 0, 7).0.sessions[0].booked == Run(events).sessions[0].booked == 0
  {
    var before := OneNoShow();
    RunSnoc(before, DoCancelSession(0));
    var cancelled := before + [DoCancelSession(0)];
    assert Run(cancelled)
      == State([Session(2, 0, CalledOff, None, 0)], [Booking(0, 7, "a", None, NoShow)], [], [], [], [0]);
    RunSnoc(cancelled, DoMarkAttendance(0, 0, true));
    events := cancelled + [DoMarkAttendance(0, 0, true)];
  }

  // ---- The waitlist ----

  /** Only a leave promotes anybody. */
  lemma OnlyLeavePromotes(st: State, ev: Event, j: nat)
    requires j < |st.waitlist| && st.waitlist[j].status.Waiting?
    requires j < |Step(st, ev).waitlist| && Step(st, ev).waitlist[j].status.Promoted?
    ensures ev.DoLeave?
  {
    if ev.DoEnroll? { EnrollLost(st, ev.course, ev.email, ev.customer); }
  }

  /** First come, first promoted: an entry is promoted only when nobody who arrived earlier still waits. */
  lemma PromotionIsFifo(st: State, ev: Event, j: nat)
    requires Inv(st) && j < |st.waitlist| && st.waitlist[j].status.Waiting?
    requires j < |Step(st, ev).waitlist| && Step(st, ev).waitlist[j].status.Promoted?
    ensures forall i :: 0 <= i < j ==> !WaitsFor(st.waitlist[i], st.waitlist[j].session)
  {
    OnlyLeavePromotes(st, ev, j);
    HeadIsFirst(st.waitlist, ev.session);
  }

  lemma {:induction false} BookLessonsWaitlist(st: State, lessons: seq<nat>, customer: nat, email: string)
    ensures var done := BookLessons(st, lessons, customer, email);
      done.Some? ==> done.value.waitlist == st.waitlist && done.value.lost == st.lost
  {
    if lessons != [] { BookLessonsWaitlist(st, lessons[..|lessons| - 1], customer, email); }
  }

  /** The order holds along every run. */
  lemma WaitlistIsFifo(events: seq<Event>, n: nat, j: nat)
    requires n < |events|
    requires j < |Run(events[..n]).waitlist| && Run(events[..n]).waitlist[j].status.Waiting?
    requires j < |Run(events[..n + 1]).waitlist| && Run(events[..n + 1]).waitlist[j].status.Promoted?
    ensures var before := Run(events[..n]).waitlist;
      forall i :: 0 <= i < j ==> !WaitsFor(before[i], before[j].session)
  {
    assert events[..n + 1][..n] == events[..n];
    SeatsStayAccounted(events[..n]);
    PromotionIsFifo(Run(events[..n]), events[n], j);
  }

  /** A leave with a promotion keeps the counter; without one it falls by one, even when the head of the queue turns out
      to be a participant already, whose reserved seat goes back. */
  lemma LeaveMovesOneSeat(st: State, session: nat, booking: nat, customer: nat)
    requires Inv(st) && CanLeave(st, session, booking) && st.sessions[session].status.Open?
    ensures var (st', r) := Leave(st, session, booking, customer);
      && r.Ok?
      && st'.sessions[session].booked == (if r.value.Some? then 0 else -1) + st.sessions[session].booked
      && (forall s :: 0 <= s < |st.sessions| && s != session ==> st'.sessions[s] == st.sessions[s])
  {
    WithdrawKeeps(st, session, booking);
    PromoteKeeps(Withdraw(st, session, booking), session, customer);
  }

  /** After a leave the head of the queue never waits on: it is promoted, or removed because it was a participant. */
  lemma LeaveSettlesHead(st: State, session: nat, booking: nat, customer: nat)
    requires Inv(st) && CanLeave(st, session, booking) && st.sessions[session].status.Open?
    requires Head(st.waitlist, session).Some?
    ensures var (st', r) := Leave(st, session, booking, customer);
      var h := Head(st.waitlist, session).value;
      var b := Booking(session, customer, st.waitlist[h].email, None, Confirmed);
      var freed := Withdraw(st, session, booking).bookings;
      && |st'.waitlist| == |st.waitlist|
      && (Violation(freed, b, -1).None? ==>
            r == Ok(Some(|st.bookings|)) && st'.bookings == freed + [b] && st'.waitlist[h].status.Promoted?)
      && (Violation(freed, b, -1).Some? ==>
            r == Ok(None) && st'.bookings == freed && st'.waitlist[h].status.Removed?)
      && (forall i :: 0 <= i < |st.waitlist| && i != h ==> st'.waitlist[i] == st.waitlist[i])
  {
    HeadIsFirst(st.waitlist, session);
    WithdrawKeeps(st, session, booking);
    CountPositive(st.bookings, booking, session);
  }
}
