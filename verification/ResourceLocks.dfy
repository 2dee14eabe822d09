/** Locks that bookings hold on rooms and machines, for plain and for chained bookings. */
module ResourceLocks {
  import opened Common

  datatype Status = Confirmed | Cancelled | Completed | NoShow

  /** A booking with its buffered window; a chained one has no employee of its own. */
  datatype Booking = Booking(
    start: int,
    end: int,
    bufferStart: int,
    bufferEnd: int,
    employee: Option<nat>,
    status: Status)
  {
    /** The status counts for the EXCLUDE constraint on employees. */
    predicate Occupies() { status.Confirmed? || status.Completed? }
  }

  datatype Lock = Lock(booking: nat, resource: nat, start: int, end: int, active: bool)

  datatype Segment = Segment(resource: nat, offset: int, duration: int)

  datatype Error =
    | ResourceNotFound | Conflict | SlotTaken | BookingNotFound | AlreadyCancelled | CannotReschedule
    | InvalidStatusChange | ExclusionViolation | CannotCancel

  datatype Result<+T> = Ok(value: T) | Failed(error: Error)

  /** Bookings and lock rows by id; live holds the resources that exist and are not deleted. */
  datatype State = State(bookings: seq<Booking>, locks: seq<Lock>, live: set<nat>)

  predicate EmployeeClash(a: Booking, b: Booking) {
    && a.employee.Some? && a.employee == b.employee && a.Occupies() && b.Occupies()
    && Overlap(a.bufferStart, a.bufferEnd, b.bufferStart, b.bufferEnd)
  }

  /** The EXCLUDE constraint of the booking table lets b be written as row number self. */
  predicate EmployeeFree(bookings: seq<Booking>, b: Booking, self: nat) {
    forall i :: 0 <= i < |bookings| && i != self ==> !EmployeeClash(bookings[i], b)
  }

  predicate LocksOverlap(a: Lock, b: Lock) {
    a.resource == b.resource && a.active && b.active && Overlap(a.start, a.end, b.start, b.end)
  }

  predicate Clashes(locks: seq<Lock>, want: Lock) {
    exists i :: 0 <= i < |locks| && LocksOverlap(locks[i], want)
  }

  /** Check and insert the wanted locks one by one. */
  function Acquire(locks: seq<Lock>, live: set<nat>, wanted: seq<Lock>): Result<seq<Lock>> {
    if wanted == [] then Ok(locks)
    else
      match Acquire(locks, live, wanted[..|wanted| - 1])
      case Failed(e) => Failed(e)
      case Ok(so_far) =>
        var want := wanted[|wanted| - 1];
        if want.resource !in live then Failed(ResourceNotFound)
        else if Clashes(so_far, want) then Failed(Conflict)
        else Ok(so_far + [want])
  }

  /** The distinct elements in order of first appearance. */
  function Unique(ids: seq<nat>): seq<nat> {
    if ids == [] then []
    else
      var u := Unique(ids[..|ids| - 1]);
      if ids[|ids| - 1] in u then u else u + [ids[|ids| - 1]]
  }

  function PlainLocks(booking: nat, resources: seq<nat>, start: int, end: int): seq<Lock> {
    seq(|Unique(resources)|, i requires 0 <= i < |Unique(resources)| =>
      Lock(booking, Unique(resources)[i], start, end, true))
  }

  function SegmentLocks(booking: nat, base: int, segments: seq<Segment>): seq<Lock> {
    seq(|segments|, i requires 0 <= i < |segments| =>
      Lock(booking, segments[i].resource, base + segments[i].offset * MINUTE_MS,
           base + (segments[i].offset + segments[i].duration) * MINUTE_MS, true))
  }

  function HullStart(locks: seq<Lock>): int
    requires locks != []
  {
    if |locks| == 1 then locks[0].start else Min(HullStart(locks[..|locks| - 1]), locks[|locks| - 1].start)
  }

  function HullEnd(locks: seq<Lock>): int
    requires locks != []
  {
    if |locks| == 1 then locks[0].end else Max(HullEnd(locks[..|locks| - 1]), locks[|locks| - 1].end)
  }

  function CreatePlain(st: State, employee: nat, resources: seq<nat>, start: int, end: int, bufferStart: int,
                       bufferEnd: int): (State, Result<nat>) {
    var id := |st.bookings|;
    var b := Booking(start, end, bufferStart, bufferEnd, Some(employee), Confirmed);
    if !EmployeeFree(st.bookings, b, id) then (st, Failed(SlotTaken))
    else
      match Acquire(st.locks, st.live, PlainLocks(id, resources, bufferStart, bufferEnd))
      case Failed(e) => (st, Failed(e))
      case Ok(locks) => (State(st.bookings + [b], locks, st.live), Ok(id))
  }

  /** The parent spans the segments and has no employee. */
  function Parent(wanted: seq<Lock>): Booking
    requires wanted != []
  {
    Booking(HullStart(wanted), HullEnd(wanted), HullStart(wanted), HullEnd(wanted), None, Confirmed)
  }

  function CreateChained(st: State, base: int, segments: seq<Segment>): (State, Result<nat>)
    requires segments != []
  {
    var id := |st.bookings|;
    var wanted := SegmentLocks(id, base, segments);
    match Acquire(st.locks, st.live, wanted)
    case Failed(e) => (st, Failed(e))
    case Ok(locks) =>
      (State(st.bookings + [Parent(wanted)], locks, st.live), Ok(id))
  }

  function Moved(locks: seq<Lock>, booking: nat, start: int, end: int): seq<Lock> {
    seq(|locks|, i requires 0 <= i < |locks| =>
      if locks[i].booking == booking && locks[i].active then locks[i].(start := start, end := end) else locks[i])
  }

  function Released(locks: seq<Lock>, booking: nat): seq<Lock> {
    seq(|locks|, i requires 0 <= i < |locks| =>
      if locks[i].booking == booking then locks[i].(active := false) else locks[i])
  }

  /** The EXCLUDE constraint of the lock table: no two active rows of one resource overlap. */
  predicate Disjoint(locks: seq<Lock>) {
    forall i, j :: 0 <= i < j < |locks| ==> !LocksOverlap(locks[i], locks[j])
  }

  function Rescheduled(b: Booking, employee: Option<nat>, start: int, end: int, bufferStart: int, bufferEnd: int)
    : Booking
  {
    b.(start := start, end := end, bufferStart := bufferStart, bufferEnd := bufferEnd,
       employee := if employee.Some? then employee else b.employee)
  }

  function Reschedule(st: State, id: nat, employee: Option<nat>, start: int, end: int, bufferStart: int,
                      bufferEnd: int): (State, Result<nat>) {
    if id >= |st.bookings| then (st, Failed(BookingNotFound))
    else if st.bookings[id].status.Cancelled? || st.bookings[id].status.Completed? then (st, Failed(CannotReschedule))
    else
      var b := Rescheduled(st.bookings[id], employee, start, end, bufferStart, bufferEnd);
      var moved := Moved(st.locks, id, bufferStart, bufferEnd);
      if !EmployeeFree(st.bookings, b, id) || !Disjoint(moved) then (st, Failed(SlotTaken))
      else (State(st.bookings[id := b], moved, st.live), Ok(id))
  }

  /** Marks a booking as completed or as a no-show; a no-show that no longer fits its employee cannot come back. */
  function ChangeStatus(st: State, id: nat, completed: bool): (State, Result<nat>) {
    var status := if completed then Completed else NoShow;
    if id >= |st.bookings| then (st, Failed(BookingNotFound))
    else if st.bookings[id].status == status || st.bookings[id].status.Cancelled?
    then (st, Failed(InvalidStatusChange))
    else if !EmployeeFree(st.bookings, st.bookings[id].(status := status), id) then (st, Failed(ExclusionViolation))
    else (st.(bookings := st.bookings[id := st.bookings[id].(status := status)]), Ok(id))
  }

  function Cancel(st: State, id: nat): (State, Result<nat>) {
    if id >= |st.bookings| then (st, Failed(BookingNotFound))
    else if st.bookings[id].status.Cancelled? then (st, Failed(AlreadyCancelled))
    else (State(st.bookings[id := st.bookings[id].(status := Cancelled)], Released(st.locks, id), st.live), Ok(id))
  }

  // ---- Writers that do not know of locks ----

  /** The cancellation of the portal refuses completed bookings only; the one after a declined confirmation wants a
      confirmed one. Both leave the locks as they are. */
  function CancelAlone(st: State, id: nat, portal: bool): (State, Result<nat>) {
    if id >= |st.bookings| then (st, Failed(BookingNotFound))
    else if st.bookings[id].status.Cancelled? then (st, Failed(AlreadyCancelled))
    else if (if portal then st.bookings[id].status.Completed? else !st.bookings[id].status.Confirmed?)
    then (st, Failed(CannotCancel))
    else (st.(bookings := st.bookings[id := st.bookings[id].(status := Cancelled)]), Ok(id))
  }

  /** The reschedule of the portal moves the booking and keeps its employee; the locks stay where they are. */
  function MoveAlone(st: State, id: nat, start: int, end: int, bufferStart: int, bufferEnd: int): (State, Result<nat>) {
    if id >= |st.bookings| then (st, Failed(BookingNotFound))
    else if st.bookings[id].status.Cancelled? || st.bookings[id].status.Completed? then (st, Failed(CannotReschedule))
    else
      var b := Rescheduled(st.bookings[id], None, start, end, bufferStart, bufferEnd);
      if !EmployeeFree(st.bookings, b, id) then (st, Failed(SlotTaken))
      else (st.(bookings := st.bookings[id := b]), Ok(id))
  }

  class BookingTables {
    var bookings: seq<Booking>
    var locks: seq<Lock>
    var live: set<nat>

    ghost function Contents(): State
      reads this
    {
      State(bookings, locks, live)
    }

    constructor (live: set<nat>)
      ensures Contents() == State([], [], live)
    {
      bookings, locks, this.live := [], [], live;
    }

    /** Checks one resource after another, inserting as it goes; on failure the caller's transaction rolls back. */
    method AttachResources(booking: nat, resources: seq<nat>, bufferStart: int, bufferEnd: int)
      returns (r: Result<nat>)
      modifies this`locks
      ensures match Acquire(old(locks), live, PlainLocks(booking, resources, bufferStart, bufferEnd))
        case Ok(locks') => r == Ok(booking) && locks == locks'
        case Failed(e) => r == Failed(e)
    {
      var unique := Unique(resources);
      ghost var wanted := PlainLocks(booking, resources, bufferStart, bufferEnd);
      for n := 0 to |unique|
        invariant Acquire(old(locks), live, wanted[..n]) == Ok(locks)
      {
        assert wanted[..n + 1][..n] == wanted[..n];
        if unique[n] !in live {
          AcquireFailsEarly(old(locks), live, wanted, n + 1);
          return Failed(ResourceNotFound);
        }
        var want := Lock(booking, unique[n], bufferStart, bufferEnd, true);
        if Clashes(locks, want) {
          AcquireFailsEarly(old(locks), live, wanted, n + 1);
          return Failed(Conflict);
        }
        locks := locks + [want];
      }
      assert wanted[..|wanted|] == wanted;
      return Ok(booking);
    }

    method CreatePlainBooking(employee: nat, resources: seq<nat>, start: int, end: int, bufferStart: int,
                              bufferEnd: int) returns (r: Result<nat>)
      modifies this
      ensures (Contents(), r)
           == CreatePlain(old(Contents()), employee, resources, start, end, bufferStart, bufferEnd)
    {
      var savedBookings, savedLocks := bookings, locks;
      var id := |bookings|;
      var b := Booking(start, end, bufferStart, bufferEnd, Some(employee), Confirmed);
      if !EmployeeFree(bookings, b, id) { return Failed(SlotTaken); }
      bookings := bookings + [b];
      r := AttachResources(id, resources, bufferStart, bufferEnd);
      if r.Failed? {
        bookings, locks := savedBookings, savedLocks;
      }
    }

    method CreateChainedBooking(base: int, segments: seq<Segment>) returns (r: Result<nat>)
      requires segments != []
      modifies this
      ensures (Contents(), r) == CreateChained(old(Contents()), base, segments)
    {
      var savedBookings, savedLocks := bookings, locks;
      var id := |bookings|;
      var wanted := SegmentLocks(id, base, segments);
      bookings := bookings + [Parent(wanted)];
      for n := 0 to |segments|
        invariant Acquire(old(locks), live, wanted[..n]) == Ok(locks)
        invariant bookings == old(bookings) + [Parent(wanted)]
        invariant live == old(live)
      {
        assert wanted[..n + 1][..n] == wanted[..n];
        if segments[n].resource !in live || Clashes(locks, wanted[n]) {
          AcquireFailsEarly(old(locks), live, wanted, n + 1);
          r := Failed(if segments[n].resource !in live then ResourceNotFound else Conflict);
          bookings, locks := savedBookings, savedLocks;
          return;
        }
        locks := locks + [wanted[n]];
      }
      assert wanted[..|wanted|] == wanted;
      return Ok(id);
    }

    method RescheduleBooking(id: nat, employee: Option<nat>, start: int, end: int, bufferStart: int, bufferEnd: int)
      returns (r: Result<nat>)
      modifies this
      ensures (Contents(), r) == Reschedule(old(Contents()), id, employee, start, end, bufferStart, bufferEnd)
    {
      if id >= |bookings| { return Failed(BookingNotFound); }
      if bookings[id].status.Cancelled? || bookings[id].status.Completed? { return Failed(CannotReschedule); }
      var savedBookings := bookings;
      var b := bookings[id].(start := start, end := end, bufferStart := bufferStart, bufferEnd := bufferEnd,
        employee := if employee.Some? then employee else bookings[id].employee);
      if !EmployeeFree(bookings, b, id) { return Failed(SlotTaken); }
      bookings := bookings[id := b];
      if !Disjoint(Moved(locks, id, bufferStart, bufferEnd)) {
        bookings := savedBookings;
        return Failed(SlotTaken);
      }
      locks := Moved(locks, id, bufferStart, bufferEnd);
      return Ok(id);
    }

    method MarkStatus(id: nat, completed: bool) returns (r: Result<nat>)
      modifies this
      ensures (Contents(), r) == ChangeStatus(old(Contents()), id, completed)
    {
      if id >= |bookings| { return Failed(BookingNotFound); }
      var status := if completed then Completed else NoShow;
      if bookings[id].status == status { return Failed(InvalidStatusChange); }
      if bookings[id].status.Cancelled? { return Failed(InvalidStatusChange); }
      var b := bookings[id].(status := status);
      if !EmployeeFree(bookings, b, id) { return Failed(ExclusionViolation); }
      bookings := bookings[id := b];
      return Ok(id);
    }

    method CancelOutside(id: nat, portal: bool) returns (r: Result<nat>)
      modifies this`bookings
      ensures (Contents(), r) == CancelAlone(old(Contents()), id, portal)
    {
      if id >= |bookings| { return Failed(BookingNotFound); }
      var status := bookings[id].status;
      if status.Cancelled? { return Failed(AlreadyCancelled); }
      if portal && status.Completed? { return Failed(CannotCancel); }
      if !portal && !status.Confirmed? { return Failed(CannotCancel); }
      bookings := bookings[id := bookings[id].(status := Cancelled)];
      return Ok(id);
    }

    method MoveInPortal(id: nat, start: int, end: int, bufferStart: int, bufferEnd: int) returns (r: Result<nat>)
      modifies this`bookings
      ensures (Contents(), r) == MoveAlone(old(Contents()), id, start, end, bufferStart, bufferEnd)
    {
      if id >= |bookings| { return Failed(BookingNotFound); }
      if bookings[id].status.Cancelled? || bookings[id].status.Completed? { return Failed(CannotReschedule); }
      var b := bookings[id].(start := start, end := end, bufferStart := bufferStart, bufferEnd := bufferEnd);
      if !EmployeeFree(bookings, b, id) { return Failed(SlotTaken); }
      bookings := bookings[id := b];
      return Ok(id);
    }

    method CancelBooking(id: nat) returns (r: Result<nat>)
      modifies this
      ensures (Contents(), r) == Cancel(old(Contents()), id)
    {
      if id >= |bookings| { return Failed(BookingNotFound); }
      if bookings[id].status.Cancelled? { return Failed(AlreadyCancelled); }
      bookings := bookings[id := bookings[id].(status := Cancelled)];
      locks := Released(locks, id);
      return Ok(id);
    }
  }

  lemma {:induction false} AcquireFailsEarly(locks: seq<Lock>, live: set<nat>, wanted: seq<Lock>, n: nat)
    requires n <= |wanted| && Acquire(locks, live, wanted[..n]).Failed?
    ensures Acquire(locks, live, wanted) == Acquire(locks, live, wanted[..n])
  {
    if n == |wanted| {
      assert wanted[..n] == wanted;
    } else {
      var init := wanted[..|wanted| - 1];
      assert init[..n] == wanted[..n];
      AcquireFailsEarly(locks, live, init, n);
    }
  }

  // ---- When a set of locks can be taken ----

  /** The wanted locks are on live resources and clash neither with held locks nor with each other. */
  ghost predicate Takeable(locks: seq<Lock>, live: set<nat>, wanted: seq<Lock>) {
    && (forall j :: 0 <= j < |wanted| ==> wanted[j].resource in live && !Clashes(locks, wanted[j]))
    && Disjoint(wanted)
  }

  lemma ClashesSplit(locks: seq<Lock>, more: seq<Lock>, want: Lock)
    ensures Clashes(locks + more, want) <==> Clashes(locks, want) || Clashes(more, want)
  {
    var all := locks + more;
    if Clashes(locks, want) {
      var i :| 0 <= i < |locks| && LocksOverlap(locks[i], want);
      assert all[i] == locks[i];
    }
    if Clashes(more, want) {
      var i :| 0 <= i < |more| && LocksOverlap(more[i], want);
      assert all[|locks| + i] == more[i];
    }
  }

  lemma TakeableSnoc(locks: seq<Lock>, live: set<nat>, wanted: seq<Lock>, want: Lock)
    ensures Takeable(locks, live, wanted + [want])
       <==> Takeable(locks, live, wanted) && want.resource in live && !Clashes(locks + wanted, want)
  {
    var all := wanted + [want];
    ClashesSplit(locks, wanted, want);
    assert forall j :: 0 <= j < |wanted| ==> all[j] == wanted[j];
    assert all[|wanted|] == want;
  }

  /** The one-by-one loop takes exactly the takeable sets, and takes all of each. */
  lemma {:induction false} AcquireIff(locks: seq<Lock>, live: set<nat>, wanted: seq<Lock>)
    ensures Acquire(locks, live, wanted).Ok? <==> Takeable(locks, live, wanted)
    ensures Takeable(locks, live, wanted) ==> Acquire(locks, live, wanted) == Ok(locks + wanted)
  {
    if wanted != [] {
      var init, want := wanted[..|wanted| - 1], wanted[|wanted| - 1];
      assert wanted == init + [want];
      AcquireIff(locks, live, init);
      TakeableSnoc(locks, live, init, want);
      assert (locks + init) + [want] == locks + wanted;
    } else {
      assert locks + wanted == locks;
    }
  }

  /** A chained create succeeds if and only if every segment's resource is live and no segment clashes with a held
      lock or with another segment on the same resource; it then locks exactly the segments. */
  lemma ChainedCreateIff(st: State, base: int, segments: seq<Segment>)
    requires segments != []
    ensures var (st', r) := CreateChained(st, base, segments);
      var wanted := SegmentLocks(|st.bookings|, base, segments);
      && (r.Ok? <==> Takeable(st.locks, st.live, wanted))
      && (r.Ok? ==> st'.locks == st.locks + wanted && |st'.bookings| == |st.bookings| + 1)
      && (r.Failed? ==> st' == st)
  {
    AcquireIff(st.locks, st.live, SegmentLocks(|st.bookings|, base, segments));
  }

  lemma {:induction false} HullBounds(locks: seq<Lock>, i: nat)
    requires i < |locks|
    ensures HullStart(locks) <= locks[i].start && locks[i].end <= HullEnd(locks)
  {
    if i < |locks| - 1 { HullBounds(locks[..|locks| - 1], i); }
  }

  lemma {:induction false} HullAttained(locks: seq<Lock>)
    requires locks != []
    ensures exists i :: 0 <= i < |locks| && locks[i].start == HullStart(locks)
    ensures exists i :: 0 <= i < |locks| && locks[i].end == HullEnd(locks)
  {
    if |locks| == 1 {
      assert locks[0].start == HullStart(locks) && locks[0].end == HullEnd(locks);
    } else {
      var init, last := locks[..|locks| - 1], locks[|locks| - 1];
      HullAttained(init);
      var i :| 0 <= i < |init| && init[i].start == HullStart(init);
      var j :| 0 <= j < |init| && init[j].end == HullEnd(init);
      assert locks[i].start == HullStart(init) && locks[j].end == HullEnd(init);
      assert locks[|locks| - 1] == last;
    }
  }

  /** Every segment lies inside the parent booking, whose ends are the ends of segments. */
  lemma SegmentsInsideParent(st: State, base: int, segments: seq<Segment>, i: nat)
    requires i < |segments| && CreateChained(st, base, segments).1.Ok?
    ensures var st' := CreateChained(st, base, segments).0;
      var parent, seg := st'.bookings[|st.bookings|], SegmentLocks(|st.bookings|, base, segments)[i];
      && parent.start <= seg.start && seg.end <= parent.end
      && (exists a :: 0 <= a < |segments| && base + segments[a].offset * MINUTE_MS == parent.start)
      && (exists b :: 0 <= b < |segments|
            && base + (segments[b].offset + segments[b].duration) * MINUTE_MS == parent.end)
  {
    var wanted := SegmentLocks(|st.bookings|, base, segments);
    HullBounds(wanted, i);
    HullAttained(wanted);
    var a :| 0 <= a < |wanted| && wanted[a].start == HullStart(wanted);
    var b :| 0 <= b < |wanted| && wanted[b].end == HullEnd(wanted);
    assert base + segments[a].offset * MINUTE_MS == HullStart(wanted);
    assert base + (segments[b].offset + segments[b].duration) * MINUTE_MS == HullEnd(wanted);
  }

  lemma ClashIgnoresBooking(locks: seq<Lock>, a: Lock, b: Lock)
    requires a == b.(booking := a.booking)
    ensures Clashes(locks, a) <==> Clashes(locks, b)
  {
  }

  lemma OneLock(booking: nat, resource: nat, start: int, end: int)
    ensures PlainLocks(booking, [resource], start, end) == [Lock(booking, resource, start, end, true)]
  {
    assert [resource][..0] == [];
    assert Unique([]) == [];
    assert Unique([resource]) == [resource];
  }

  lemma SegmentsMiss(booking: nat, base: int, segments: seq<Segment>, want: Lock)
    requires forall i :: 0 <= i < |segments| && segments[i].resource == want.resource ==>
      var from := base + segments[i].offset * MINUTE_MS;
      !Overlap(from, from + segments[i].duration * MINUTE_MS, want.start, want.end)
    ensures !Clashes(SegmentLocks(booking, base, segments), want)
  {
    var mine := SegmentLocks(booking, base, segments);
    forall i | 0 <= i < |mine| ensures !LocksOverlap(mine[i], want) {
      assert mine[i].end == mine[i].start + segments[i].duration * MINUTE_MS;
    }
  }

  /** A pause stays bookable: after a chained create any window that no segment and no earlier lock occupies on a live
      resource can still be booked by somebody else, with any employee who is free. */
  lemma PauseStaysBookable(st: State, base: int, segments: seq<Segment>, employee: nat, resource: nat, start: int,
                           end: int)
    requires segments != [] && CreateChained(st, base, segments).1.Ok? && resource in st.live
    requires !Clashes(st.locks, Lock(0, resource, start, end, true))
    requires EmployeeFree(st.bookings, Booking(start, end, start, end, Some(employee), Confirmed), |st.bookings|)
    requires forall i :: 0 <= i < |segments| && segments[i].resource == resource ==>
      var from := base + segments[i].offset * MINUTE_MS;
      !Overlap(from, from + segments[i].duration * MINUTE_MS, start, end)
    ensures CreatePlain(CreateChained(st, base, segments).0, employee, [resource], start, end, start, end).1.Ok?
  {
    var st' := CreateChained(st, base, segments).0;
    ChainedCreateIff(st, base, segments);
    var mine := SegmentLocks(|st.bookings|, base, segments);
    var want := Lock(|st'.bookings|, resource, start, end, true);
    OneLock(|st'.bookings|, resource, start, end);
    ClashIgnoresBooking(st.locks, want, Lock(0, resource, start, end, true));
    SegmentsMiss(|st.bookings|, base, segments, want);
    ClashesSplit(st.locks, mine, want);
    AcquireIff(st'.locks, st'.live, [want]);
    assert st'.bookings == st.bookings + [Parent(mine)];
  }

  // ---- Runs ----

  datatype Event =
    | DoPlain(employee: nat, resources: seq<nat>, start: int, end: int, bufferStart: int, bufferEnd: int)
    | DoChained(base: int, segments: seq<Segment>)
    | DoReschedule(id: nat, newEmployee: Option<nat>, start: int, end: int, bufferStart: int, bufferEnd: int)
    | DoCancel(id: nat)
    | DoChangeStatus(id: nat, completed: bool)
    | DoCancelAlone(id: nat, portal: bool)
    | DoMoveAlone(id: nat, start: int, end: int, bufferStart: int, bufferEnd: int)
    | SetLive(live: set<nat>)

  function Step(st: State, ev: Event): State {
    match ev
    case DoPlain(employee, resources, start, end, bufferStart, bufferEnd) =>
      CreatePlain(st, employee, resources, start, end, bufferStart, bufferEnd).0
    case DoChained(base, segments) => if segments == [] then st else CreateChained(st, base, segments).0
    case DoReschedule(id, employee, start, end, bufferStart, bufferEnd) =>
      Reschedule(st, id, employee, start, end, bufferStart, bufferEnd).0
    case DoCancel(id) => Cancel(st, id).0
    case DoChangeStatus(id, completed) => ChangeStatus(st, id, completed).0
    case DoCancelAlone(id, portal) => CancelAlone(st, id, portal).0
    case DoMoveAlone(id, start, end, bufferStart, bufferEnd) =>
      MoveAlone(st, id, start, end, bufferStart, bufferEnd).0
    case SetLive(live) => st.(live := live)
  }

  function Run(events: seq<Event>): State {
    if events == [] then State([], [], {}) else Step(Run(events[..|events| - 1]), events[|events| - 1])
  }

  /** The events of a run are the operations with their own arguments. */
  lemma StepIs(st: State, id: nat, employee: Option<nat>, start: int, end: int, bufferStart: int, bufferEnd: int)
    ensures Step(st, DoReschedule(id, employee, start, end, bufferStart, bufferEnd))
         == Reschedule(st, id, employee, start, end, bufferStart, bufferEnd).0
    ensures Step(st, DoMoveAlone(id, start, end, bufferStart, bufferEnd))
         == MoveAlone(st, id, start, end, bufferStart, bufferEnd).0
    ensures forall resources, e ::
      Step(st, DoPlain(e, resources, start, end, bufferStart, bufferEnd))
      == CreatePlain(st, e, resources, start, end, bufferStart, bufferEnd).0
  {
  }

  lemma AcquireKeepsDisjoint(locks: seq<Lock>, live: set<nat>, wanted: seq<Lock>)
    requires Disjoint(locks) && Acquire(locks, live, wanted).Ok?
    ensures Disjoint(Acquire(locks, live, wanted).value)
  {
    AcquireIff(locks, live, wanted);
  }

  /** Every lock belongs to a booking. */
  ghost predicate LocksNamed(st: State) {
    forall i :: 0 <= i < |st.locks| ==> st.locks[i].booking < |st.bookings|
  }

  /** No employee has two bookings at one time. */
  ghost predicate EmployeesDisjoint(bookings: seq<Booking>) {
    forall i, j :: 0 <= i < j < |bookings| ==> !EmployeeClash(bookings[i], bookings[j])
  }

  ghost predicate Inv(st: State) { Disjoint(st.locks) && LocksNamed(st) && EmployeesDisjoint(st.bookings) }

  /** A booking written under the constraint keeps employees disjoint: inserted, */
  lemma InsertedKeepsEmployees(bookings: seq<Booking>, b: Booking)
    requires EmployeesDisjoint(bookings) && EmployeeFree(bookings, b, |bookings|)
    ensures EmployeesDisjoint(bookings + [b])
  {
  }

  /** or updated. */
  lemma UpdatedKeeps(st: State, id: nat, b: Booking)
    requires Inv(st) && id < |st.bookings| && EmployeeFree(st.bookings, b, id)
    ensures Inv(st.(bookings := st.bookings[id := b]))
  {
  }

  lemma AddedKeeps(st: State, b: Booking, wanted: seq<Lock>)
    requires Inv(st) && Disjoint(st.locks + wanted) && EmployeeFree(st.bookings, b, |st.bookings|)
    requires forall i :: 0 <= i < |wanted| ==> wanted[i].booking == |st.bookings|
    ensures Inv(State(st.bookings + [b], st.locks + wanted, st.live))
  {
    InsertedKeepsEmployees(st.bookings, b);
  }

  lemma RescheduleKeeps(st: State, id: nat, employee: Option<nat>, start: int, end: int, bufferStart: int,
                        bufferEnd: int)
    requires Inv(st)
    ensures Inv(Reschedule(st, id, employee, start, end, bufferStart, bufferEnd).0)
  {
    if Reschedule(st, id, employee, start, end, bufferStart, bufferEnd).1.Ok? {
      UpdatedKeeps(st, id, Rescheduled(st.bookings[id], employee, start, end, bufferStart, bufferEnd));
    }
  }

  lemma CancelKeeps(st: State, id: nat, portal: bool)
    requires Inv(st)
    ensures Inv(Cancel(st, id).0) && Inv(CancelAlone(st, id, portal).0)
  {
    if id < |st.bookings| { UpdatedKeeps(st, id, st.bookings[id].(status := Cancelled)); }
  }

  lemma ChangeStatusKeeps(st: State, id: nat, completed: bool)
    requires Inv(st)
    ensures Inv(ChangeStatus(st, id, completed).0)
  {
    var (st', r) := ChangeStatus(st, id, completed);
    if r.Ok? { UpdatedKeeps(st, id, st'.bookings[id]); }
  }

  lemma MoveAloneKeeps(st: State, id: nat, start: int, end: int, bufferStart: int, bufferEnd: int)
    requires Inv(st)
    ensures Inv(MoveAlone(st, id, start, end, bufferStart, bufferEnd).0)
  {
    var (st', r) := MoveAlone(st, id, start, end, bufferStart, bufferEnd);
    if r.Ok? { UpdatedKeeps(st, id, st'.bookings[id]); }
  }

  lemma StepKeepsLocks(st: State, ev: Event)
    requires Inv(st)
    ensures Inv(Step(st, ev))
  {
    match ev
    case DoPlain(employee, resources, start, end, bufferStart, bufferEnd) =>
      var b := Booking(start, end, bufferStart, bufferEnd, Some(employee), Confirmed);
      var wanted := PlainLocks(|st.bookings|, resources, bufferStart, bufferEnd);
      if EmployeeFree(st.bookings, b, |st.bookings|) && Acquire(st.locks, st.live, wanted).Ok? {
        AcquireIff(st.locks, st.live, wanted);
        AcquireKeepsDisjoint(st.locks, st.live, wanted);
        AddedKeeps(st, b, wanted);
      }
    case DoChained(base, segments) =>
      var wanted := SegmentLocks(|st.bookings|, base, segments);
      if segments != [] && Acquire(st.locks, st.live, wanted).Ok? {
        AcquireIff(st.locks, st.live, wanted);
        AcquireKeepsDisjoint(st.locks, st.live, wanted);
        AddedKeeps(st, Parent(wanted), wanted);
      }
    case DoReschedule(id, employee, start, end, bufferStart, bufferEnd) =>
      RescheduleKeeps(st, id, employee, start, end, bufferStart, bufferEnd);
    case DoCancel(id) => CancelKeeps(st, id, false);
    case DoChangeStatus(id, completed) => ChangeStatusKeeps(st, id, completed);
    case DoCancelAlone(id, portal) => CancelKeeps(st, id, portal);
    case DoMoveAlone(id, start, end, bufferStart, bufferEnd) =>
      MoveAloneKeeps(st, id, start, end, bufferStart, bufferEnd);
    case SetLive(_) =>
  }

  /** In every reachable state the active locks of one resource are pairwise disjoint, each belongs to a booking, and no
      employee has two bookings at one time. */
  lemma {:induction false} LocksStayDisjoint(events: seq<Event>)
    ensures Inv(Run(events))
  {
    if events != [] {
      LocksStayDisjoint(events[..|events| - 1]);
      StepKeepsLocks(Run(events[..|events| - 1]), events[|events| - 1]);
    }
  }

  // ---- Stranded locks ----

  predicate Holds(l: Lock, booking: nat) { l.booking == booking && l.active }

  ghost predicate HoldsAny(st: State, id: nat) { exists i :: 0 <= i < |st.locks| && Holds(st.locks[i], id) }

  /** A cancelled booking still holds a lock. */
  ghost predicate Stranded(st: State) {
    exists id :: 0 <= id < |st.bookings| && st.bookings[id].status.Cancelled? && HoldsAny(st, id)
  }

  /** The event cancels a lock holder and leaves its locks. */
  ghost predicate Strands(st: State, ev: Event) {
    ev.DoCancelAlone? && CancelAlone(st, ev.id, ev.portal).1.Ok? && HoldsAny(st, ev.id)
  }

  /** Nothing releases the locks of a cancelled booking, or gives it new ones. */
  lemma StepKeepsCancelled(st: State, ev: Event, id: nat)
    requires Inv(st) && id < |st.bookings| && st.bookings[id].status.Cancelled?
    ensures var st' := Step(st, ev);
      id < |st'.bookings| && st'.bookings[id].status.Cancelled? && (HoldsAny(st', id) <==> HoldsAny(st, id))
  {
    var st' := Step(st, ev);
    LocksGrow(st, ev);
    assert st'.bookings[id].status.Cancelled?;
    if i :| 0 <= i < |st.locks| && Holds(st.locks[i], id) { assert Holds(st'.locks[i], id); }
    if i :| 0 <= i < |st'.locks| && Holds(st'.locks[i], id) {
      assert i < |st.locks| && Holds(st.locks[i], id);
    }
  }

  /** Locks keep their booking, new ones belong to a new booking, and only a booking that is not cancelled lets go. */
  lemma LocksGrow(st: State, ev: Event)
    requires LocksNamed(st)
    ensures var st' := Step(st, ev);
      && |st.locks| <= |st'.locks| && |st.bookings| <= |st'.bookings|
      && (forall i :: 0 <= i < |st.locks| ==>
            && st'.locks[i].booking == st.locks[i].booking
            && (st'.locks[i].active ==> st.locks[i].active)
            && (st.bookings[st.locks[i].booking].status.Cancelled? ==> st'.locks[i].active == st.locks[i].active))
      && (forall i :: |st.locks| <= i < |st'.locks| ==> st'.locks[i].booking >= |st.bookings|)
  {
    if ev.DoPlain? {
      AcquireIff(st.locks, st.live, PlainLocks(|st.bookings|, ev.resources, ev.bufferStart, ev.bufferEnd));
    } else if ev.DoChained? {
      AcquireIff(st.locks, st.live, SegmentLocks(|st.bookings|, ev.base, ev.segments));
    }
  }

  /** A booking becomes cancelled with a lock in hand only by an event that strands. */
  lemma NewlyStranded(st: State, ev: Event, id: nat)
    requires Inv(st) && id < |Step(st, ev).bookings|
    requires Step(st, ev).bookings[id].status.Cancelled? && HoldsAny(Step(st, ev), id)
    ensures (id < |st.bookings| && st.bookings[id].status.Cancelled? && HoldsAny(st, id)) || Strands(st, ev)
  {
    var st' := Step(st, ev);
    LocksGrow(st, ev);
    var i :| 0 <= i < |st'.locks| && Holds(st'.locks[i], id);
    assert id < |st.bookings|;
    assert i < |st.locks| && Holds(st.locks[i], id);
  }

  lemma StepStrandedIff(st: State, ev: Event)
    requires Inv(st)
    ensures Stranded(Step(st, ev)) <==> Stranded(st) || Strands(st, ev)
  {
    var st' := Step(st, ev);
    if Stranded(st) {
      var id :| 0 <= id < |st.bookings| && st.bookings[id].status.Cancelled? && HoldsAny(st, id);
      StepKeepsCancelled(st, ev, id);
    }
    if Strands(st, ev) {
      assert st'.locks == st.locks && st'.bookings[ev.id].status.Cancelled?;
      assert HoldsAny(st', ev.id);
    }
    if Stranded(st') {
      var id :| 0 <= id < |st'.bookings| && st'.bookings[id].status.Cancelled? && HoldsAny(st', id);
      NewlyStranded(st, ev, id);
    }
  }

  /** Event n of the run strands locks. */
  ghost predicate StrandsAt(events: seq<Event>, n: nat)
    requires n < |events|
  {
    Strands(Run(events[..n]), events[n])
  }

  ghost predicate StrandsSomewhere(events: seq<Event>) {
    exists n :: 0 <= n < |events| && StrandsAt(events, n)
  }

  lemma StrandsSnoc(events: seq<Event>)
    requires events != []
    ensures StrandsSomewhere(events)
       <==> StrandsSomewhere(events[..|events| - 1]) || StrandsAt(events, |events| - 1)
  {
    var init := events[..|events| - 1];
    forall n | 0 <= n < |init| ensures StrandsAt(events, n) <==> StrandsAt(init, n) {
      assert init[..n] == events[..n];
    }
  }

  /** A cancelled booking holds a lock if and only if some event of the run cancelled a lock holder past its locks: the
      lock is never released afterwards. */
  lemma {:induction false} StrandedIff(events: seq<Event>)
    ensures Stranded(Run(events)) <==> StrandsSomewhere(events)
  {
    if events != [] {
      var init := events[..|events| - 1];
      StrandedIff(init);
      LocksStayDisjoint(init);
      StepStrandedIff(Run(init), events[|events| - 1]);
      StrandsSnoc(events);
    }
  }

  // ---- Locks and the times of their bookings ----

  /** The lock lies inside the buffered window of its booking. */
  predicate Fits(st: State, l: Lock)
    requires l.booking < |st.bookings|
  {
    st.bookings[l.booking].bufferStart <= l.start && l.end <= st.bookings[l.booking].bufferEnd
  }

  ghost predicate LocksFit(st: State) {
    forall i :: 0 <= i < |st.locks| ==>
      st.locks[i].booking < |st.bookings| && (st.locks[i].active ==> Fits(st, st.locks[i]))
  }

  lemma AddedFits(st: State, b: Booking, wanted: seq<Lock>)
    requires LocksFit(st)
    requires forall i :: 0 <= i < |wanted| ==>
      wanted[i].booking == |st.bookings| && b.bufferStart <= wanted[i].start && wanted[i].end <= b.bufferEnd
    ensures LocksFit(State(st.bookings + [b], st.locks + wanted, st.live))
  {
  }

  lemma StepKeepsFit(st: State, ev: Event)
    requires LocksFit(st) && !(ev.DoMoveAlone? && HoldsAny(st, ev.id))
    ensures LocksFit(Step(st, ev))
  {
    match ev
    case DoPlain(employee, resources, start, end, bufferStart, bufferEnd) =>
      var wanted := PlainLocks(|st.bookings|, resources, bufferStart, bufferEnd);
      AcquireIff(st.locks, st.live, wanted);
      AddedFits(st, Booking(start, end, bufferStart, bufferEnd, Some(employee), Confirmed), wanted);
    case DoChained(base, segments) =>
      if segments != [] {
        var wanted := SegmentLocks(|st.bookings|, base, segments);
        AcquireIff(st.locks, st.live, wanted);
        forall i | 0 <= i < |wanted| ensures HullStart(wanted) <= wanted[i].start && wanted[i].end <= HullEnd(wanted) {
          HullBounds(wanted, i);
        }
        AddedFits(st, Parent(wanted), wanted);
      }
    case _ =>
  }

  /** While no lock holder is moved in the portal, every held lock lies inside the window of its booking. */
  lemma {:induction false} LocksStayFit(events: seq<Event>)
    requires forall n :: 0 <= n < |events| ==> !(events[n].DoMoveAlone? && HoldsAny(Run(events[..n]), events[n].id))
    ensures LocksFit(Run(events))
  {
    if events != [] {
      var init, last := events[..|events| - 1], |events| - 1;
      forall n | 0 <= n < last ensures !(init[n].DoMoveAlone? && HoldsAny(Run(init[..n]), init[n].id)) {
        assert init[..n] == events[..n];
      }
      LocksStayFit(init);
      assert events[..last] == init;
      StepKeepsFit(Run(init), events[last]);
    }
  }

  // ---- Rescheduling ----

  predicate Rival(l: Lock, mine: Lock, booking: nat) {
    l.active && l.booking != booking && l.resource == mine.resource
  }

  /** A reschedule goes through if and only if no other booking of the employee is in the way, no two of the booking's
      locks share a resource, and on each of its resources every other booking's lock is clear of the new window. */
  lemma RescheduleIff(st: State, id: nat, employee: Option<nat>, start: int, end: int, bufferStart: int, bufferEnd: int)
    requires Disjoint(st.locks) && bufferStart < bufferEnd
    requires id < |st.bookings| && !st.bookings[id].status.Cancelled? && !st.bookings[id].status.Completed?
    ensures Reschedule(st, id, employee, start, end, bufferStart, bufferEnd).1.Ok? <==>
      && EmployeeFree(st.bookings, Rescheduled(st.bookings[id], employee, start, end, bufferStart, bufferEnd), id)
      && (forall i, j :: 0 <= i < j < |st.locks| && Holds(st.locks[i], id) && Holds(st.locks[j], id) ==>
            st.locks[i].resource != st.locks[j].resource)
      && (forall i, j :: 0 <= i < |st.locks| && 0 <= j < |st.locks| && Holds(st.locks[i], id)
                         && Rival(st.locks[j], st.locks[i], id) ==>
            !Overlap(st.locks[j].start, st.locks[j].end, bufferStart, bufferEnd))
  {
    var moved := Moved(st.locks, id, bufferStart, bufferEnd);
    if Disjoint(moved) {
      forall i, j | 0 <= i < j < |st.locks| && Holds(st.locks[i], id) && Holds(st.locks[j], id)
        ensures st.locks[i].resource != st.locks[j].resource
      {
        assert !LocksOverlap(moved[i], moved[j]);
      }
      forall i, j | 0 <= i < |st.locks| && 0 <= j < |st.locks| && Holds(st.locks[i], id)
                    && Rival(st.locks[j], st.locks[i], id)
        ensures !Overlap(st.locks[j].start, st.locks[j].end, bufferStart, bufferEnd)
      {
        if i < j { assert !LocksOverlap(moved[i], moved[j]); } else { assert !LocksOverlap(moved[j], moved[i]); }
      }
    }
  }

  /** Every lock of a rescheduled booking becomes the whole new window, so a chain that returns to one resource can
      never be rescheduled. */
  lemma RescheduleFlattensChain(st: State, id: nat, employee: Option<nat>, start: int, end: int, bufferStart: int,
                                bufferEnd: int)
    requires Disjoint(st.locks) && bufferStart < bufferEnd
    ensures var (st', r) := Reschedule(st, id, employee, start, end, bufferStart, bufferEnd);
      && (r.Ok? ==> forall i :: 0 <= i < |st'.locks| && Holds(st'.locks[i], id) ==>
            st'.locks[i].start == bufferStart && st'.locks[i].end == bufferEnd)
      && ((exists i, j :: 0 <= i < j < |st.locks| && Holds(st.locks[i], id) && Holds(st.locks[j], id)
            && st.locks[i].resource == st.locks[j].resource) ==> r.Failed?)
  {
    if id < |st.bookings| && !st.bookings[id].status.Cancelled? && !st.bookings[id].status.Completed? {
      RescheduleIff(st, id, employee, start, end, bufferStart, bufferEnd);
    }
  }

  /** All locks the booking holds move by d. */
  ghost predicate ShiftedBy(before: seq<Lock>, after: seq<Lock>, booking: nat, d: int) {
    && |after| == |before|
    && forall i :: 0 <= i < |before| && Holds(before[i], booking) ==>
         after[i] == before[i].(start := before[i].start + d, end := before[i].end + d)
  }

  /** All locks the booking holds are one window of the given length. */
  ghost predicate OneWindow(locks: seq<Lock>, booking: nat, length: int) {
    && (forall i :: 0 <= i < |locks| && Holds(locks[i], booking) ==> locks[i].end - locks[i].start == length)
    && (forall i, j :: 0 <= i < |locks| && 0 <= j < |locks| && Holds(locks[i], booking) && Holds(locks[j], booking) ==>
          locks[i].start == locks[j].start)
  }

  /** A reschedule moves the booking's locks as they are, by one common amount, if and only if they were one window as
      long as the new one. The layout of a chain with a pause is lost. */
  lemma LayoutSurvivesIff(st: State, id: nat, employee: Option<nat>, start: int, end: int, bufferStart: int,
                          bufferEnd: int)
    requires Reschedule(st, id, employee, start, end, bufferStart, bufferEnd).1.Ok?
    ensures var st' := Reschedule(st, id, employee, start, end, bufferStart, bufferEnd).0;
      (exists d :: ShiftedBy(st.locks, st'.locks, id, d)) <==> OneWindow(st.locks, id, bufferEnd - bufferStart)
  {
    var st' := Reschedule(st, id, employee, start, end, bufferStart, bufferEnd).0;
    if d :| ShiftedBy(st.locks, st'.locks, id, d) {
      assert forall i :: 0 <= i < |st.locks| && Holds(st.locks[i], id) ==>
        st'.locks[i].start == bufferStart && st'.locks[i].end == bufferEnd;
    }
    if OneWindow(st.locks, id, bufferEnd - bufferStart) {
      if i :| 0 <= i < |st.locks| && Holds(st.locks[i], id) {
        assert ShiftedBy(st.locks, st'.locks, id, bufferStart - st.locks[i].start);
      } else {
        assert ShiftedBy(st.locks, st'.locks, id, 0);
      }
    }
  }

  lemma RunSnoc(events: seq<Event>, ev: Event)
    ensures Run(events + [ev]) == Step(Run(events), ev)
  {
    assert (events + [ev])[..|events|] == events;
  }

  /** Half an hour on resource 1, a pause of half an hour, half an hour on resource 2. */
  function PausedChain(booking: nat, base: int): seq<Lock> {
    [Lock(booking, 1, base, base + 30 * MINUTE_MS, true),
     Lock(booking, 2, base + 60 * MINUTE_MS, base + 90 * MINUTE_MS, true)]
  }

  lemma ChainIsReachable() returns (events: seq<Event>)
    ensures Run(events).locks == PausedChain(0, 0) && Run(events).live == {1, 2} && |Run(events).bookings| == 1
    ensures Run(events).bookings[0].status.Confirmed? && Run(events).bookings[0].employee.None?
  {
    RunSnoc([], SetLive({1, 2}));
    assert [] + [SetLive({1, 2})] == [SetLive({1, 2})];
    var segments := [Segment(1, 0, 30), Segment(2, 60, 30)];
    events := [SetLive({1, 2})] + [DoChained(0, segments)];
    RunSnoc([SetLive({1, 2})], DoChained(0, segments));
    assert SegmentLocks(0, 0, segments) == PausedChain(0, 0);
    ChainedCreateIff(Run([SetLive({1, 2})]), 0, segments);
  }

  /** Resource 1 can be booked by anyone from start to end. */
  ghost predicate BookableOnOne(st: State, start: int, end: int) {
    CreatePlain(st, 7, [1], start, end, start, end).1.Ok?
  }

  lemma BookableIffClear(st: State, start: int, end: int)
    requires 1 in st.live
    requires EmployeeFree(st.bookings, Booking(start, end, start, end, Some(7), Confirmed), |st.bookings|)
    ensures BookableOnOne(st, start, end) <==> !Clashes(st.locks, Lock(|st.bookings|, 1, start, end, true))
  {
    var wanted := PlainLocks(|st.bookings|, [1], start, end);
    OneLock(|st.bookings|, 1, start, end);
    AcquireIff(st.locks, st.live, wanted);
  }

  /** A reachable chain that is flattened: its pause can be booked before a reschedule by one day, and the same pause a
      day later cannot be booked after it. */
  lemma PauseLostOnReschedule() returns (before: seq<Event>, move: Event)
    ensures move.DoReschedule? && move.start == DAY_MS && move.bufferEnd - move.bufferStart == 90 * MINUTE_MS
    ensures BookableOnOne(Run(before), 30 * MINUTE_MS, 60 * MINUTE_MS)
    ensures !BookableOnOne(Run(before + [move]), DAY_MS + 30 * MINUTE_MS, DAY_MS + 60 * MINUTE_MS)
  {
    before := ChainIsReachable();
    var st := Run(before);
    BookableIffClear(st, 30 * MINUTE_MS, 60 * MINUTE_MS);
    var until := DAY_MS + 90 * MINUTE_MS;
    move := DoReschedule(0, None, DAY_MS, until, DAY_MS, until);
    RunSnoc(before, move);
    RescheduleIff(st, 0, None, DAY_MS, until, DAY_MS, until);
    var st' := Run(before + [move]);
    assert st'.locks[0] == Lock(0, 1, DAY_MS, until, true);
    BookableIffClear(st', DAY_MS + 30 * MINUTE_MS, DAY_MS + 60 * MINUTE_MS);
    assert LocksOverlap(st'.locks[0], Lock(1, 1, DAY_MS + 30 * MINUTE_MS, DAY_MS + 60 * MINUTE_MS, true));
  }

  /** A chain cancelled in the portal goes on blocking its resource, for good: its first half hour cannot be booked. */
  lemma CancelledChainBlocks() returns (events: seq<Event>)
    ensures |Run(events).bookings| == 1 && Run(events).bookings[0].status.Cancelled?
    ensures Stranded(Run(events)) && !BookableOnOne(Run(events), 0, 30 * MINUTE_MS)
  {
    var chain := ChainIsReachable();
    RunSnoc(chain, DoCancelAlone(0, true));
    events := chain + [DoCancelAlone(0, true)];
    var st := Run(events);
    assert Holds(st.locks[0], 0);
    assert HoldsAny(st, 0);
    BookableIffClear(st, 0, 30 * MINUTE_MS);
    assert LocksOverlap(st.locks[0], Lock(1, 1, 0, 30 * MINUTE_MS, true));
  }

  /** A chain moved by a day in the portal leaves its locks behind: none lies inside its window any more. */
  lemma MovedChainLeavesLocks() returns (events: seq<Event>)
    ensures |Run(events).bookings| == 1 && Run(events).bookings[0].start == DAY_MS
    ensures |Run(events).locks| == 2 && Run(events).locks == PausedChain(0, 0)
    ensures !LocksFit(Run(events))
  {
    var chain := ChainIsReachable();
    var move := DoMoveAlone(0, DAY_MS, DAY_MS + 90 * MINUTE_MS, DAY_MS, DAY_MS + 90 * MINUTE_MS);
    RunSnoc(chain, move);
    events := chain + [move];
    assert !Fits(Run(events), Run(events).locks[0]);
  }
}
