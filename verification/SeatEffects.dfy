/** What each operation on the seat tables does, row by row, in terms of the tables alone. */
module SeatEffects {
  import opened Common
  import opened Seats
  import opened SeatRuns

  /** A booking that takes part: confirmed, or marked present. */
  predicate TakesPart(b: Booking) { b.status == Confirmed || b.status == Completed }

  predicate Has(bookings: seq<Booking>, session: nat, customer: nat) {
    exists i :: 0 <= i < |bookings| && bookings[i].session == session && bookings[i].customer == customer
      && TakesPart(bookings[i])
  }

  predicate HasEmail(bookings: seq<Booking>, session: nat, email: string) {
    exists i :: 0 <= i < |bookings| && bookings[i].session == session && bookings[i].email == email
      && TakesPart(bookings[i])
  }

  predicate SpotOccupied(bookings: seq<Booking>, session: nat, spot: Option<string>) {
    exists i :: 0 <= i < |bookings| && bookings[i].session == session && bookings[i].spot == spot && spot.Some?
      && TakesPart(bookings[i])
  }

  lemma ViolationIff(bookings: seq<Booking>, b: Booking)
    requires TakesPart(b)
    ensures Violation(bookings, b, -1)
         == if Has(bookings, b.session, b.customer) then Some(Already)
            else if SpotOccupied(bookings, b.session, b.spot) then Some(SpotTaken) else None
  {
    assert forall x: Booking :: SameCustomer(x, b) <==>
      x.session == b.session && x.customer == b.customer && TakesPart(x);
    assert forall x: Booking :: SameSpot(x, b) <==>
      x.session == b.session && x.spot == b.spot && b.spot.Some? && TakesPart(x);
  }

  lemma ParticipatesIff(bookings: seq<Booking>, session: nat, email: string)
    ensures Participates(bookings, session, email) <==> HasEmail(bookings, session, email)
  {
    assert forall x: Booking :: IsParticipant(x, session, email) <==>
      x.session == session && x.email == email && TakesPart(x);
  }

  // ---- Joining ----

  /** The spot asked for: none where the session has no spots or the choice is left empty. */
  function Wanted(s: Session, spot: Option<Spot>): Option<string> {
    match spot
    case None => None
    case Some(x) => if s.spotCount >= 1 && |x.text| >= 1 then Some(x.text) else None
  }

  predicate SpotExists(s: Session, spot: Option<Spot>) {
    Wanted(s, spot).Some? ==> spot.value.number.Some? && 0 < spot.value.number.value < s.spotCount + 1
  }

  /** Who may join: nobody with the e-mail or the customer takes part, the conditions are met, the spot exists and is
      free, and the open session has room. Then one seat is taken and one booking added; otherwise nothing changes, and
      the reason given is the first that applies. */
  lemma JoinEffect(st: State, session: nat, p: Person)
    requires session < |st.sessions| && st.sessions[session].booked >= 0
    ensures var s := st.sessions[session];
      var spot := Wanted(s, p.spot);
      Join(st, session, p) ==
        if HasEmail(st.bookings, session, p.email) then (st, Failed(Already))
        else if p.gate.Some? then (st, Failed(p.gate.value))
        else if !SpotExists(s, p.spot) then (st, Failed(InvalidSpot))
        else if s.status != Open || s.capacity <= s.booked then (st, Failed(Full))
        else if Has(st.bookings, session, p.customer) then (st, Failed(Already))
        else if SpotOccupied(st.bookings, session, spot) then (st, Failed(SpotTaken))
        else
          (st.(sessions := st.sessions[session := s.(booked := s.booked + 1)],
               bookings := st.bookings + [Booking(session, p.customer, p.email, spot, Confirmed)]),
           Ok(|st.bookings|))
  {
    var s := st.sessions[session];
    ParticipatesIff(st.bookings, session, p.email);
    assert Wanted(s, p.spot) == SpotLabel(s, p.spot);
    assert SpotExists(s, p.spot) <==> SpotValid(s, p.spot);
    ViolationIff(st.bookings, Booking(session, p.customer, p.email, Wanted(s, p.spot), Confirmed));
    ReserveRelease(s);
    assert st.sessions[session := s] == st.sessions;
  }

  // ---- Leaving ----

  predicate Waits(e: Entry, session: nat) { e.session == session && e.status == Waiting }

  /** Entry h is the one of the session waiting with the least position. */
  predicate IsNext(waitlist: seq<Entry>, session: nat, h: nat) {
    && h < |waitlist| && Waits(waitlist[h], session)
    && forall i :: 0 <= i < |waitlist| && Waits(waitlist[i], session) ==> waitlist[h].position <= waitlist[i].position
  }

  lemma {:induction false} HeadIff(waitlist: seq<Entry>, session: nat)
    ensures match Head(waitlist, session)
      case None => forall i :: 0 <= i < |waitlist| ==> !Waits(waitlist[i], session)
      case Some(h) => IsNext(waitlist, session, h)
  {
    if waitlist != [] {
      var init := waitlist[..|waitlist| - 1];
      HeadIff(init, session);
      assert forall i :: 0 <= i < |init| ==> init[i] == waitlist[i];
    }
  }

  /** Positions of waiting entries are different, so there is only one next. */
  lemma NextIsHead(waitlist: seq<Entry>, session: nat, h: nat)
    requires Queued(waitlist) && IsNext(waitlist, session, h)
    ensures Head(waitlist, session) == Some(h)
  {
    HeadIff(waitlist, session);
    if Head(waitlist, session).Some? && Head(waitlist, session).value != h {
      var k := Head(waitlist, session).value;
      assert waitlist[h].position == waitlist[k].position;
      assert if h < k then WaitsFor(waitlist[h], waitlist[k].session) else WaitsFor(waitlist[k], waitlist[h].session);
    }
  }

  /** The tables after the booking is cancelled and its seat is given back. */
  function Freed(st: State, session: nat, booking: nat): State
    requires session < |st.sessions| && booking < |st.bookings|
  {
    var s := st.sessions[session];
    st.(bookings := st.bookings[booking := st.bookings[booking].(status := Cancelled)],
        sessions := st.sessions[session := s.(booked := if s.booked == 0 then 0 else s.booked - 1)])
  }

  lemma WithdrawIsFreed(st: State, session: nat, booking: nat)
    requires session < |st.sessions| && booking < |st.bookings| && st.sessions[session].booked >= 0
    ensures Withdraw(st, session, booking) == Freed(st, session, booking)
  {
  }

  /** A leave goes through for a booking of the session that takes part. In a session that is not open, or with nobody
      waiting, the seat becomes free. */
  lemma LeaveEffect(st: State, session: nat, booking: nat, customer: nat)
    requires Inv(st)
    ensures var (st', r) := Leave(st, session, booking, customer);
      && (r.Ok? <==> session < |st.sessions| && booking < |st.bookings| && st.bookings[booking].session == session
                     && TakesPart(st.bookings[booking]))
      && (r.Failed? ==> st' == st && r.reason == NotFound)
      && (r.Ok? && (st.sessions[session].status != Open
                    || forall i :: 0 <= i < |st.waitlist| ==> !Waits(st.waitlist[i], session)) ==>
            st' == Freed(st, session, booking) && r.value == None)
  {
    if CanLeave(st, session, booking) {
      WithdrawIsFreed(st, session, booking);
      HeadIff(st.waitlist, session);
    }
  }

  /** With somebody waiting in an open session, the next one gets the seat and a booking of the entry's e-mail, or, as a
      participant already, is taken off the list. */
  lemma LeavePromotes(st: State, session: nat, booking: nat, customer: nat, h: nat)
    requires Inv(st) && session < |st.sessions| && st.sessions[session].status == Open
    requires booking < |st.bookings| && st.bookings[booking].session == session && TakesPart(st.bookings[booking])
    requires IsNext(st.waitlist, session, h)
    ensures var e, freed := st.waitlist[h], Freed(st, session, booking);
      Leave(st, session, booking, customer) ==
        if Has(freed.bookings, session, customer)
        then (freed.(waitlist := st.waitlist[h := Entry(session, e.email, e.position, Removed)]), Ok(None))
        else
          (freed.(sessions := st.sessions,
                  bookings := freed.bookings + [Booking(session, customer, e.email, None, Confirmed)],
                  waitlist := st.waitlist[h := Entry(session, e.email, e.position, Promoted)]),
           Ok(Some(|st.bookings|)))
  {
    var s := st.sessions[session];
    CountPositive(st.bookings, booking, session);
    WithdrawIsFreed(st, session, booking);
    NextIsHead(st.waitlist, session, h);
    var freed := Freed(st, session, booking);
    ViolationIff(freed.bookings, Booking(session, customer, st.waitlist[h].email, None, Confirmed));
    assert freed.sessions[session := s] == st.sessions;
    assert freed.sessions[session := freed.sessions[session]] == freed.sessions;
  }

  // ---- Other changes of one session ----

  lemma CreateEffect(st: State, capacity: int, spotCount: int, onMachine: bool)
    ensures CreateSession(st, capacity, spotCount, onMachine) ==
      if capacity >= 2 || (onMachine && capacity == 1)
      then
        (State(st.sessions + [Session(capacity, 0, Open, None, spotCount)], st.bookings, st.waitlist, st.courses,
               st.enrollments, st.lost + [0]),
         Ok(|st.sessions|))
      else (st, Failed(CapacityTooLow))
  {
  }

  lemma AssignEffect(sessions: seq<Session>, ids: seq<nat>, course: nat)
    ensures |AssignLessons(sessions, ids, course)| == |sessions|
    ensures forall s :: 0 <= s < |sessions| ==>
      AssignLessons(sessions, ids, course)[s] ==
        if s in ids
        then Session(sessions[s].capacity, sessions[s].booked, sessions[s].status, Some(course), sessions[s].spotCount)
        else sessions[s]
  {
  }

  /** Nobody else takes part in the session as the same customer or on the same spot. */
  predicate Alone(bookings: seq<Booking>, booking: nat)
    requires booking < |bookings|
  {
    forall i :: 0 <= i < |bookings| && i != booking && TakesPart(bookings[i])
                && bookings[i].session == bookings[booking].session ==>
      && bookings[i].customer != bookings[booking].customer
      && (bookings[booking].spot.Some? ==> bookings[i].spot != bookings[booking].spot)
  }

  /** Anybody whose booking is not cancelled can be marked, and marked present only when alone. */
  lemma AttendanceEffect(st: State, session: nat, booking: nat, attended: bool)
    ensures var (st', r) := MarkAttendance(st, session, booking, attended);
      && (r.Ok? <==>
            && booking < |st.bookings| && st.bookings[booking].session == session
            && st.bookings[booking].status != Cancelled
            && (attended ==> Alone(st.bookings, booking)))
      && (r.Ok? ==>
            var b := st.bookings[booking];
            var status := if attended then Completed else NoShow;
            st' == st.(bookings := st.bookings[booking := Booking(session, b.customer, b.email, b.spot, status)]))
      && (r.Failed? ==> st' == st)
  {
    if booking < |st.bookings| && Seated(st.bookings[booking], session) {
      var b := st.bookings[booking].(status := if attended then Completed else NoShow);
      forall i | 0 <= i < |st.bookings| && i != booking
        ensures (SameCustomer(st.bookings[i], b) || SameSpot(st.bookings[i], b))
           <==> attended && TakesPart(st.bookings[i]) && st.bookings[i].session == session
                && (st.bookings[i].customer == b.customer || (b.spot.Some? && st.bookings[i].spot == b.spot))
      {
      }
    }
  }

  lemma CapacityEffect(st: State, session: nat, capacity: int, onMachine: bool)
    ensures var (st', r) := EditCapacity(st, session, capacity, onMachine);
      && (r.Ok? <==>
            && session < |st.sessions| && st.sessions[session].status == Open && st.sessions[session].booked <= capacity
            && capacity >= if onMachine then 1 else 2)
      && (r.Failed? ==> st' == st)
      && (r.Ok? ==>
            var s := st.sessions[session];
            st' == st.(sessions := st.sessions[session := Session(capacity, s.booked, Open, s.course, s.spotCount)]))
  {
  }

  /** Calling a session off cancels the bookings that take part, and no others, and empties the counter. */
  lemma CallOffEffect(st: State, session: nat)
    ensures var (st', r) := CancelSession(st, session);
      && (r.Ok? <==> session < |st.sessions| && st.sessions[session].status != CalledOff)
      && (r.Failed? ==> st' == st)
      && (r.Ok? ==>
            && |st'.bookings| == |st.bookings|
            && (forall i :: 0 <= i < |st.bookings| ==>
                  st'.bookings[i] ==
                    if st.bookings[i].session == session && TakesPart(st.bookings[i])
                    then st.bookings[i].(status := Cancelled) else st.bookings[i])
            && var s := st.sessions[session];
               st' == st.(bookings := st'.bookings,
                          sessions := st.sessions[session := Session(s.capacity, 0, CalledOff, s.course, s.spotCount)]))
  {
  }

  lemma CancelAloneEffect(st: State, booking: nat, portal: bool)
    ensures var (st', r) := CancelAlone(st, booking, portal);
      && (r.Ok? <==> booking < |st.bookings| && st.bookings[booking].status != Cancelled
                     && !(portal && st.bookings[booking].status == Completed))
      && (r.Failed? ==> st' == st)
      && (r.Ok? ==>
            && st'.bookings == st.bookings[booking := st.bookings[booking].(status := Cancelled)]
            && st' == st.(bookings := st'.bookings, lost := st'.lost))
  {
  }

  // ---- The waitlist ----

  lemma {:induction false} MaxPositionAttained(waitlist: seq<Entry>, session: nat)
    ensures MaxPosition(waitlist, session) >= 0
    ensures MaxPosition(waitlist, session) == 0
         || exists i :: 0 <= i < |waitlist| && Waits(waitlist[i], session)
              && waitlist[i].position == MaxPosition(waitlist, session)
  {
    if waitlist != [] {
      var n := |waitlist| - 1;
      MaxPositionAttained(waitlist[..n], session);
      if MaxPosition(waitlist, session) != 0 {
        if Waits(waitlist[n], session) && waitlist[n].position == MaxPosition(waitlist, session) {
        } else {
          var i :| 0 <= i < n && Waits(waitlist[..n][i], session)
            && waitlist[..n][i].position == MaxPosition(waitlist[..n], session);
          assert waitlist[i] == waitlist[..n][i];
        }
      }
    }
  }

  /** Only a full open session takes people on its list, each e-mail once and nobody who takes part; the new entry
      stands right behind the last one waiting. */
  lemma WaitlistEffect(st: State, session: nat, email: string)
    ensures var (st', r) := JoinWaitlist(st, session, email);
      && (r.Ok? <==>
            && session < |st.sessions| && st.sessions[session].status == Open
            && st.sessions[session].capacity <= st.sessions[session].booked
            && !HasEmail(st.bookings, session, email)
            && forall i :: 0 <= i < |st.waitlist| && Waits(st.waitlist[i], session) ==> st.waitlist[i].email != email)
      && (r.Failed? ==> st' == st)
      && (r.Ok? ==>
            && |st'.waitlist| == |st.waitlist| + 1
            && var e := st'.waitlist[|st.waitlist|];
               && e == Entry(session, email, e.position, Waiting)
               && st' == st.(waitlist := st.waitlist + [e])
               && e.position >= 1
               && (forall i :: 0 <= i < |st.waitlist| && Waits(st.waitlist[i], session) ==>
                     st.waitlist[i].position < e.position)
               && (e.position == 1
                   || exists i :: 0 <= i < |st.waitlist| && Waits(st.waitlist[i], session)
                        && st.waitlist[i].position == e.position - 1))
  {
    ParticipatesIff(st.bookings, session, email);
    MaxPositionBounds(st.waitlist, session);
    MaxPositionAttained(st.waitlist, session);
    assert forall i :: 0 <= i < |st.waitlist| ==>
      (IsQueued(st.waitlist[i], session, email) <==> Waits(st.waitlist[i], session) && st.waitlist[i].email == email);
  }

  lemma LeaveWaitlistEffect(st: State, session: nat, entry: nat)
    ensures LeaveWaitlist(st, session, entry) ==
      if entry < |st.waitlist| && Waits(st.waitlist[entry], session)
      then
        var e := st.waitlist[entry];
        (st.(waitlist := st.waitlist[entry := Entry(session, e.email, e.position, Removed)]), Ok(entry))
      else (st, Failed(NotFound))
  {
  }

  // ---- Enrolling in a course ----

  predicate IsRoomy(s: Session) { s.booked < s.capacity }

  /** An open lesson of the course with room. */
  predicate RoomyLesson(sessions: seq<Session>, course: nat, s: nat) {
    && s < |sessions| && sessions[s].course == Some(course) && sessions[s].status == Open
    && sessions[s].booked < sessions[s].capacity
  }

  ghost predicate Ascending(ids: seq<nat>) { forall i, j :: 0 <= i < j < |ids| ==> ids[i] < ids[j] }

  lemma AscendingSnoc(ids: seq<nat>, id: nat)
    requires Ascending(ids) && forall x :: x in ids ==> x < id
    ensures Ascending(ids + [id])
  {
    forall i | 0 <= i < |ids| ensures ids[i] < id { assert ids[i] in ids; }
  }

  predicate OpenLesson(s: Session, course: nat) { s.course == Some(course) && s.status == Open }

  lemma {:induction false} OpenLessonsIff(sessions: seq<Session>, course: nat)
    ensures Ascending(OpenLessons(sessions, course))
    ensures forall s: nat :: s in OpenLessons(sessions, course) <==> s < |sessions| && OpenLesson(sessions[s], course)
  {
    if sessions != [] {
      var n := |sessions| - 1;
      var init := sessions[..n];
      OpenLessonsIff(init, course);
      var ids := OpenLessons(init, course);
      AscendingSnoc(ids, n);
      forall s: nat ensures s in OpenLessons(sessions, course) <==> s < |sessions| && OpenLesson(sessions[s], course) {
        assert s in ids <==> s < n && OpenLesson(init[s], course);
        assert s in ids + [n] <==> s in ids || s == n;
      }
    }
  }

  function Roomy(sessions: seq<Session>, ids: seq<nat>): seq<nat>
    requires forall k :: 0 <= k < |ids| ==> ids[k] < |sessions|
  {
    if ids == [] then []
    else
      var last := ids[|ids| - 1];
      Roomy(sessions, ids[..|ids| - 1]) + if IsRoomy(sessions[last]) then [last] else []
  }

  lemma {:induction false} RoomyIff(sessions: seq<Session>, ids: seq<nat>)
    requires Ascending(ids) && forall k :: 0 <= k < |ids| ==> ids[k] < |sessions|
    ensures Ascending(Roomy(sessions, ids))
    ensures forall s: nat :: s in Roomy(sessions, ids) <==> s in ids && IsRoomy(sessions[s])
  {
    if ids != [] {
      var init, last := ids[..|ids| - 1], ids[|ids| - 1];
      RoomyIff(sessions, init);
      assert ids == init + [last];
      forall x | x in init ensures x < last {
        var i :| 0 <= i < |init| && init[i] == x;
        assert ids[i] == x;
      }
      AscendingSnoc(Roomy(sessions, init), last);
    }
  }

  /** One confirmed booking of the customer in each of the sessions. */
  function BookedIn(ids: seq<nat>, customer: nat, email: string): seq<Booking> {
    seq(|ids|, k requires 0 <= k < |ids| => Booking(ids[k], customer, email, None, Confirmed))
  }

  lemma HasOnlyBefore(bookings: seq<Booking>, ids: seq<nat>, lesson: nat, customer: nat, email: string)
    requires lesson !in ids
    ensures Has(bookings + BookedIn(ids, customer, email), lesson, customer) <==> Has(bookings, lesson, customer)
  {
    var added := BookedIn(ids, customer, email);
    var all := bookings + added;
    assert forall k :: 0 <= k < |added| ==> added[k].session == ids[k] && ids[k] in ids;
    if Has(bookings, lesson, customer) {
      var i :| 0 <= i < |bookings| && bookings[i].session == lesson && bookings[i].customer == customer
               && TakesPart(bookings[i]);
      assert all[i] == bookings[i];
    }
    if Has(all, lesson, customer) {
      var i :| 0 <= i < |all| && all[i].session == lesson && all[i].customer == customer && TakesPart(all[i]);
      assert i < |bookings|;
    }
  }

  ghost predicate FreeIn(bookings: seq<Booking>, ids: seq<nat>, customer: nat) {
    forall k :: 0 <= k < |ids| ==> !Has(bookings, ids[k], customer)
  }

  lemma FreeInSnoc(bookings: seq<Booking>, ids: seq<nat>, id: nat, customer: nat)
    ensures FreeIn(bookings, ids + [id], customer) <==> FreeIn(bookings, ids, customer) && !Has(bookings, id, customer)
  {
    var all := ids + [id];
    assert all[|ids|] == id && forall k :: 0 <= k < |ids| ==> all[k] == ids[k];
  }

  /** One seat more in each of the sessions. */
  function Seat(sessions: seq<Session>, ids: seq<nat>): seq<Session> {
    seq(|sessions|, s requires 0 <= s < |sessions| =>
      if s in ids then sessions[s].(booked := sessions[s].booked + 1) else sessions[s])
  }

  lemma SeatSnoc(sessions: seq<Session>, ids: seq<nat>, id: nat)
    requires id !in ids && id < |sessions|
    ensures Seat(sessions, ids + [id])
         == Seat(sessions, ids)[id := sessions[id].(booked := sessions[id].booked + 1)]
    ensures Seat(sessions, ids)[id] == sessions[id]
  {
  }

  lemma BookLessonEffect(st: State, lesson: nat, customer: nat, email: string)
    requires lesson < |st.sessions|
    ensures var s := st.sessions[lesson];
      BookLesson(st, lesson, customer, email) ==
        if s.capacity <= s.booked then Some(st)
        else if Has(st.bookings, lesson, customer) then None
        else
          Some(st.(sessions := st.sessions[lesson := s.(booked := s.booked + 1)],
                   bookings := st.bookings + [Booking(lesson, customer, email, None, Confirmed)]))
  {
    ViolationIff(st.bookings, Booking(lesson, customer, email, None, Confirmed));
  }

  lemma {:induction false} BookLessonsEffect(st: State, lessons: seq<nat>, customer: nat, email: string)
    requires Ascending(lessons) && forall k :: 0 <= k < |lessons| ==> lessons[k] < |st.sessions|
    ensures var roomy := Roomy(st.sessions, lessons);
      BookLessons(st, lessons, customer, email) ==
        if FreeIn(st.bookings, roomy, customer)
        then Some(st.(sessions := Seat(st.sessions, roomy),
                      bookings := st.bookings + BookedIn(roomy, customer, email)))
        else None
  {
    if lessons == [] {
      assert Seat(st.sessions, []) == st.sessions && st.bookings + BookedIn([], customer, email) == st.bookings;
    } else {
      var init, lesson := lessons[..|lessons| - 1], lessons[|lessons| - 1];
      BookLessonsEffect(st, init, customer, email);
      RoomyIff(st.sessions, init);
      var roomy := Roomy(st.sessions, init);
      assert lesson !in init;
      assert Roomy(st.sessions, lessons) == if IsRoomy(st.sessions[lesson]) then roomy + [lesson] else roomy;
      NextLesson(st, roomy, lesson, customer, email);
    }
  }

  /** The tables after booking the given lessons. */
  function AfterBooking(st: State, ids: seq<nat>, customer: nat, email: string): State {
    st.(sessions := Seat(st.sessions, ids), bookings := st.bookings + BookedIn(ids, customer, email))
  }

  lemma NextLesson(st: State, roomy: seq<nat>, lesson: nat, customer: nat, email: string)
    requires lesson < |st.sessions| && lesson !in roomy
    ensures FreeIn(st.bookings, roomy + [lesson], customer)
       <==> FreeIn(st.bookings, roomy, customer) && !Has(st.bookings, lesson, customer)
    ensures BookLesson(AfterBooking(st, roomy, customer, email), lesson, customer, email) ==
      if !IsRoomy(st.sessions[lesson]) then Some(AfterBooking(st, roomy, customer, email))
      else if Has(st.bookings, lesson, customer) then None
      else Some(AfterBooking(st, roomy + [lesson], customer, email))
  {
    SeatSnoc(st.sessions, roomy, lesson);
    FreeInSnoc(st.bookings, roomy, lesson, customer);
    BookLessonEffect(AfterBooking(st, roomy, customer, email), lesson, customer, email);
    HasOnlyBefore(st.bookings, roomy, lesson, customer, email);
    BookedSnoc(st.bookings, roomy, lesson, customer, email);
  }

  lemma BookedSnoc(bookings: seq<Booking>, ids: seq<nat>, id: nat, customer: nat, email: string)
    ensures bookings + BookedIn(ids + [id], customer, email)
         == bookings + BookedIn(ids, customer, email) + [Booking(id, customer, email, None, Confirmed)]
  {
    assert BookedIn(ids + [id], customer, email)
        == BookedIn(ids, customer, email) + [Booking(id, customer, email, None, Confirmed)];
  }

  predicate Enrolled(e: Enrollment, course: nat) { e.course == course && !e.cancelled }

  lemma {:induction false} EnrolledCountIs(enrollments: seq<Enrollment>, course: nat)
    ensures EnrolledCount(enrollments, course) == |set i: nat | i < |enrollments| && Enrolled(enrollments[i], course)|
  {
    var all := set i: nat | i < |enrollments| && Enrolled(enrollments[i], course);
    if enrollments != [] {
      var n := |enrollments| - 1;
      var init := set i: nat | i < n && Enrolled(enrollments[..n][i], course);
      EnrolledCountIs(enrollments[..n], course);
      assert init == set i: nat | i < |enrollments[..n]| && Enrolled(enrollments[..n][i], course);
      if Enrolled(enrollments[n], course) { assert all == init + {n}; } else { assert all == init; }
    }
  }

  /** What the enrolment adds: one confirmed booking of the customer in each open lesson of the course with room, in
      their order, and nowhere else. */
  ghost predicate OneBookingEach(sessions: seq<Session>, course: nat, customer: nat, email: string,
                                 added: seq<Booking>) {
    && (forall k :: 0 <= k < |added| ==>
          && added[k] == Booking(added[k].session, customer, email, None, Confirmed)
          && RoomyLesson(sessions, course, added[k].session))
    && (forall j, k :: 0 <= j < k < |added| ==> added[j].session < added[k].session)
    && (forall s: nat :: RoomyLesson(sessions, course, s) ==> exists k :: 0 <= k < |added| && added[k].session == s)
  }

  /** The customer takes part in no open lesson of the course with room. */
  ghost predicate FreeForCourse(st: State, course: nat, customer: nat) {
    forall s: nat :: RoomyLesson(st.sessions, course, s) ==> !Has(st.bookings, s, customer)
  }

  lemma BookedInIsOneEach(sessions: seq<Session>, ids: seq<nat>, course: nat, customer: nat, email: string)
    requires Ascending(ids) && forall s: nat :: s in ids <==> RoomyLesson(sessions, course, s)
    ensures OneBookingEach(sessions, course, customer, email, BookedIn(ids, customer, email))
  {
    var added := BookedIn(ids, customer, email);
    forall k | 0 <= k < |added| ensures RoomyLesson(sessions, course, added[k].session) {
      assert ids[k] in ids;
    }
    forall s: nat | RoomyLesson(sessions, course, s) ensures exists k :: 0 <= k < |added| && added[k].session == s {
      assert s in ids;
      var k :| 0 <= k < |ids| && ids[k] == s;
      assert added[k].session == s;
    }
  }

  lemma FreeInIff(st: State, ids: seq<nat>, course: nat, customer: nat)
    requires forall s: nat :: s in ids <==> RoomyLesson(st.sessions, course, s)
    ensures FreeIn(st.bookings, ids, customer) <==> FreeForCourse(st, course, customer)
  {
    if FreeForCourse(st, course, customer) {
      forall k | 0 <= k < |ids| ensures !Has(st.bookings, ids[k], customer) { assert ids[k] in ids; }
    }
    if FreeIn(st.bookings, ids, customer) {
      forall s: nat | RoomyLesson(st.sessions, course, s) ensures !Has(st.bookings, s, customer) {
        assert s in ids;
        var k :| 0 <= k < |ids| && ids[k] == s;
      }
    }
  }

  lemma RoomyLessons(sessions: seq<Session>, course: nat) returns (ids: seq<nat>)
    ensures forall k :: 0 <= k < |OpenLessons(sessions, course)| ==> OpenLessons(sessions, course)[k] < |sessions|
    ensures Ascending(OpenLessons(sessions, course)) && ids == Roomy(sessions, OpenLessons(sessions, course))
    ensures Ascending(ids) && forall s: nat :: s in ids <==> RoomyLesson(sessions, course, s)
  {
    var lessons := OpenLessons(sessions, course);
    OpenLessonsIff(sessions, course);
    forall k | 0 <= k < |lessons| ensures lessons[k] < |sessions| { assert lessons[k] in lessons; }
    RoomyIff(sessions, lessons);
    ids := Roomy(sessions, lessons);
  }

  /** Nobody is enrolled in the course with the e-mail, and the open course has a place. */
  ghost predicate MayEnroll(st: State, course: nat, email: string) {
    && course < |st.courses| && st.courses[course].open
    && |set i: nat | i < |st.enrollments| && Enrolled(st.enrollments[i], course)| < st.courses[course].capacity
    && forall i :: 0 <= i < |st.enrollments| && Enrolled(st.enrollments[i], course) ==> st.enrollments[i].email != email
  }

  lemma EnrollUnfolded(st: State, course: nat, email: string, customer: nat)
    ensures var st1 := st.(enrollments := st.enrollments + [Enrollment(course, customer, email, false)]);
      var done := BookLessons(st1, OpenLessons(st.sessions, course), customer, email);
      var (st', r) := Enroll(st, course, email, customer);
      if MayEnroll(st, course, email) && done.Some? then (st', r) == (done.value, Ok(|st.enrollments|))
      else st' == st && r.Failed?
  {
    EnrolledCountIs(st.enrollments, course);
    assert forall e: Enrollment :: IsEnrolled(e, course, email) <==> Enrolled(e, course) && e.email == email;
  }

  /** Somebody enrols in an open course that is not full, once per e-mail, unless already taking part in a lesson that
      has room. Each open lesson of the course with room gets one booking and counts one more; nothing else changes. */
  lemma EnrollEffect(st: State, course: nat, email: string, customer: nat)
    ensures var (st', r) := Enroll(st, course, email, customer);
      && (r.Ok? <==> MayEnroll(st, course, email) && FreeForCourse(st, course, customer))
      && (r.Failed? ==> st' == st)
      && (r.Ok? ==>
            && st.bookings <= st'.bookings
            && OneBookingEach(st.sessions, course, customer, email, st'.bookings[|st.bookings|..])
            && |st'.sessions| == |st.sessions|
            && (forall s: nat :: s < |st.sessions| ==>
                  st'.sessions[s] == if RoomyLesson(st.sessions, course, s)
                                     then st.sessions[s].(booked := st.sessions[s].booked + 1) else st.sessions[s])
            && st'.enrollments == st.enrollments + [Enrollment(course, customer, email, false)]
            && st' == st.(sessions := st'.sessions, bookings := st'.bookings, enrollments := st'.enrollments)
            && r.value == |st.enrollments|)
  {
    var ids := RoomyLessons(st.sessions, course);
    var st1 := st.(enrollments := st.enrollments + [Enrollment(course, customer, email, false)]);
    EnrollUnfolded(st, course, email, customer);
    BookLessonsEffect(st1, OpenLessons(st.sessions, course), customer, email);
    FreeInIff(st, ids, course, customer);
    BookedInIsOneEach(st.sessions, ids, course, customer, email);
    assert (st.bookings + BookedIn(ids, customer, email))[|st.bookings|..] == BookedIn(ids, customer, email);
  }

  // ---- Leaving a course ----

  /** A booking of the customer that takes part in a lesson of the course. */
  predicate InLesson(sessions: seq<Session>, course: nat, customer: nat, b: Booking) {
    && b.customer == customer && TakesPart(b)
    && b.session < |sessions| && sessions[b.session].course == Some(course)
  }

  function Where(bookings: seq<Booking>, p: Booking -> bool): set<nat> {
    set i: nat | i < |bookings| && p(bookings[i])
  }

  lemma WhereSnoc(bookings: seq<Booking>, b: Booking, p: Booking -> bool)
    ensures |Where(bookings + [b], p)| == |Where(bookings, p)| + if p(b) then 1 else 0
  {
    var all, before := Where(bookings + [b], p), Where(bookings, p);
    if p(b) { assert all == before + {|bookings|}; } else { assert all == before; }
  }

  lemma {:induction false} SessionsOfCounts(bookings: seq<Booking>, which: Booking -> bool)
    ensures |SessionsOf(bookings, which)| == |Where(bookings, which)|
  {
    if bookings != [] {
      var init, b := bookings[..|bookings| - 1], bookings[|bookings| - 1];
      assert bookings == init + [b];
      SessionsOfCounts(init, which);
      WhereSnoc(init, b, which);
    }
  }

  function At(which: Booking -> bool, s: nat): Booking -> bool { (b: Booking) => which(b) && b.session == s }

  lemma {:induction false} TimesCounts(bookings: seq<Booking>, which: Booking -> bool, s: nat)
    ensures Times(SessionsOf(bookings, which), s) == |Where(bookings, At(which, s))|
  {
    if bookings != [] {
      var init, b := bookings[..|bookings| - 1], bookings[|bookings| - 1];
      assert bookings == init + [b];
      TimesCounts(init, which, s);
      WhereSnoc(init, b, At(which, s));
      assert SessionsOf(bookings, which) == if which(b) then SessionsOf(init, which) + [b.session]
                                            else SessionsOf(init, which);
      TimesSnoc(SessionsOf(init, which), b.session, s);
    }
  }

  /** Cancelling an enrolment cancels the student's own bookings that take part in lessons of the course, and no others,
      reports their number, and lowers the counter of each lesson by its own. */
  lemma CancelEnrollmentEffect(st: State, course: nat, enrollment: nat)
    ensures var (st', r) := CancelEnrollment(st, course, enrollment);
      && (r.Ok? <==> enrollment < |st.enrollments| && st.enrollments[enrollment].course == course)
      && (r.Failed? ==> st' == st && r.reason == NotFound)
      && (r.Ok? ==>
            var e := st.enrollments[enrollment];
            && |st'.bookings| == |st.bookings| && |st'.sessions| == |st.sessions|
            && (forall i :: 0 <= i < |st.bookings| ==>
                  st'.bookings[i] == if InLesson(st.sessions, course, e.customer, st.bookings[i])
                                     then st.bookings[i].(status := Cancelled) else st.bookings[i])
            && r.value == |set i: nat | i < |st.bookings| && InLesson(st.sessions, course, e.customer, st.bookings[i])|
            && st'.enrollments == st.enrollments[enrollment := Enrollment(course, e.customer, e.email, true)]
            && st' == st.(sessions := st'.sessions, bookings := st'.bookings, enrollments := st'.enrollments))
  {
    if enrollment < |st.enrollments| {
      var e := st.enrollments[enrollment];
      var which := InCourse(st.sessions, course, e.customer);
      assert forall b: Booking :: which(b) <==> InLesson(st.sessions, course, e.customer, b);
      SessionsOfCounts(st.bookings, which);
      assert Where(st.bookings, which)
          == (set i: nat | i < |st.bookings| && InLesson(st.sessions, course, e.customer, st.bookings[i]));
      ReleaseKeepsLength(st.sessions, SessionsOf(st.bookings, which));
    }
  }

  lemma {:induction false} ReleaseKeepsLength(sessions: seq<Session>, ids: seq<nat>)
    ensures |ReleaseEach(sessions, ids)| == |sessions|
  {
    if ids != [] { ReleaseKeepsLength(sessions, ids[..|ids| - 1]); }
  }

  lemma CancelEnrollmentSeats(st: State, course: nat, enrollment: nat, s: nat)
    requires forall k :: 0 <= k < |st.sessions| ==> st.sessions[k].booked >= 0
    requires enrollment < |st.enrollments| && st.enrollments[enrollment].course == course && s < |st.sessions|
    ensures var st' := CancelEnrollment(st, course, enrollment).0;
      var customer := st.enrollments[enrollment].customer;
      var dropped := set i: nat | i < |st.bookings| && InLesson(st.sessions, course, customer, st.bookings[i])
                                  && st.bookings[i].session == s;
      && s < |st'.sessions|
      && st'.sessions[s] == st.sessions[s].(booked := if |dropped| <= st.sessions[s].booked
                                                      then st.sessions[s].booked - |dropped| else 0)
  {
    var which := InCourse(st.sessions, course, st.enrollments[enrollment].customer);
    assert forall b: Booking :: which(b) <==>
      InLesson(st.sessions, course, st.enrollments[enrollment].customer, b);
    var ids := SessionsOf(st.bookings, which);
    SessionsOfWhich(st.bookings, which, |st.sessions|);
    ReleaseEachCounts(st.sessions, ids);
    TimesCounts(st.bookings, which, s);
    assert Where(st.bookings, At(which, s))
        == (set i: nat | i < |st.bookings|
                         && InLesson(st.sessions, course, st.enrollments[enrollment].customer, st.bookings[i])
                         && st.bookings[i].session == s);
  }

  lemma {:induction false} SessionsOfWhich(bookings: seq<Booking>, which: Booking -> bool, n: nat)
    requires forall b: Booking :: which(b) ==> b.session < n
    ensures forall k :: 0 <= k < |SessionsOf(bookings, which)| ==> SessionsOf(bookings, which)[k] < n
  {
    if bookings != [] { SessionsOfWhich(bookings[..|bookings| - 1], which, n); }
  }
}
