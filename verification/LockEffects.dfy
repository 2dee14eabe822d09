/** What each booking operation does to the bookings and the locks, row by row, in terms of the tables alone. */
module LockEffects {
  import opened Common
  import opened ResourceLocks

  /** The window [from, until) shares an instant with [start, end). */
  predicate Meets(start: int, end: int, from: int, until: int) { start < until && from < end }

  /** A booking that keeps the employee busy in the window. */
  predicate Busy(b: Booking, employee: nat, from: int, until: int) {
    b.employee == Some(employee) && (b.status == Confirmed || b.status == Completed)
    && Meets(b.bufferStart, b.bufferEnd, from, until)
  }

  /** No booking except number self keeps the employee busy in the window. */
  predicate HasTime(bookings: seq<Booking>, employee: nat, from: int, until: int, self: nat) {
    forall i :: 0 <= i < |bookings| && i != self ==> !Busy(bookings[i], employee, from, until)
  }

  /** An active lock on the resource in the window. */
  predicate Blocks(l: Lock, resource: nat, from: int, until: int) {
    l.active && l.resource == resource && Meets(l.start, l.end, from, until)
  }

  lemma EmployeeFreeIff(bookings: seq<Booking>, b: Booking, self: nat)
    ensures EmployeeFree(bookings, b, self)
       <==> b.employee.None? || b.status == Cancelled || b.status == NoShow
            || HasTime(bookings, b.employee.value, b.bufferStart, b.bufferEnd, self)
  {
    assert forall x: Booking :: EmployeeClash(x, b) <==>
      b.employee.Some? && (b.status == Confirmed || b.status == Completed)
      && Busy(x, b.employee.value, b.bufferStart, b.bufferEnd);
  }

  lemma ClashesIff(locks: seq<Lock>, want: Lock)
    requires want.active
    ensures Clashes(locks, want)
       <==> exists i :: 0 <= i < |locks| && Blocks(locks[i], want.resource, want.start, want.end)
  {
    assert forall l: Lock :: LocksOverlap(l, want) <==> Blocks(l, want.resource, want.start, want.end);
  }

  // ---- Plain bookings ----

  lemma {:induction false} UniqueIff(ids: seq<nat>)
    ensures forall x :: x in Unique(ids) <==> x in ids
    ensures forall i, j :: 0 <= i < j < |Unique(ids)| ==> Unique(ids)[i] != Unique(ids)[j]
  {
    if ids != [] {
      var init, last := ids[..|ids| - 1], ids[|ids| - 1];
      UniqueIff(init);
      assert ids == init + [last];
      var u := Unique(init);
      assert forall i :: 0 <= i < |u| ==> u[i] in u;
    }
  }

  /** One active lock of the booking on each of the resources, with the window, and on nothing else. */
  ghost predicate OneLockEach(added: seq<Lock>, booking: nat, resources: seq<nat>, from: int, until: int) {
    && (forall k :: 0 <= k < |added| ==>
          added[k] == Lock(booking, added[k].resource, from, until, true) && added[k].resource in resources)
    && (forall j, k :: 0 <= j < k < |added| ==> added[j].resource != added[k].resource)
    && (forall x :: x in resources ==> exists k :: 0 <= k < |added| && added[k].resource == x)
  }

  lemma PlainLocksAreOneEach(booking: nat, resources: seq<nat>, from: int, until: int)
    ensures OneLockEach(PlainLocks(booking, resources, from, until), booking, resources, from, until)
  {
    UniqueIff(resources);
    var u, added := Unique(resources), PlainLocks(booking, resources, from, until);
    assert forall k :: 0 <= k < |added| ==> added[k].resource == u[k] && u[k] in u;
    forall x | x in resources ensures exists k :: 0 <= k < |added| && added[k].resource == x {
      assert x in u;
      var k :| 0 <= k < |u| && u[k] == x;
      assert added[k].resource == x;
    }
  }

  /** Every resource is live and unlocked in the window. */
  predicate Available(st: State, resources: seq<nat>, from: int, until: int) {
    forall x :: x in resources ==>
      x in st.live && forall i :: 0 <= i < |st.locks| ==> !Blocks(st.locks[i], x, from, until)
  }

  lemma TakeableIff(st: State, booking: nat, resources: seq<nat>, from: int, until: int)
    ensures Takeable(st.locks, st.live, PlainLocks(booking, resources, from, until))
       <==> Available(st, resources, from, until)
  {
    var wanted := PlainLocks(booking, resources, from, until);
    PlainLocksAreOneEach(booking, resources, from, until);
    assert Disjoint(wanted);
    forall k | 0 <= k < |wanted|
      ensures Clashes(st.locks, wanted[k])
         <==> exists i :: 0 <= i < |st.locks| && Blocks(st.locks[i], wanted[k].resource, from, until)
    {
      ClashesIff(st.locks, wanted[k]);
    }
    if Takeable(st.locks, st.live, wanted) {
      forall x | x in resources
        ensures x in st.live && forall i :: 0 <= i < |st.locks| ==> !Blocks(st.locks[i], x, from, until)
      {
        var k :| 0 <= k < |wanted| && wanted[k].resource == x;
        assert !Clashes(st.locks, wanted[k]);
      }
    }
  }

  /** A plain create goes through if and only if the employee has time and every resource is live and unlocked in the
      window. It adds the booking and one lock for each resource; otherwise nothing changes. */
  lemma PlainCreateIff(st: State, employee: nat, resources: seq<nat>, start: int, end: int, bufferStart: int,
                       bufferEnd: int)
    ensures var (st', r) := CreatePlain(st, employee, resources, start, end, bufferStart, bufferEnd);
      && (r.Ok? <==> HasTime(st.bookings, employee, bufferStart, bufferEnd, |st.bookings|)
                     && Available(st, resources, bufferStart, bufferEnd))
      && (r == Failed(SlotTaken) <==> !HasTime(st.bookings, employee, bufferStart, bufferEnd, |st.bookings|))
      && (r.Failed? ==> st' == st)
      && (r.Ok? ==>
            && r.value == |st.bookings| && st.locks <= st'.locks && st'.live == st.live
            && st'.bookings == st.bookings + [Booking(start, end, bufferStart, bufferEnd, Some(employee), Confirmed)]
            && OneLockEach(st'.locks[|st.locks|..], |st.bookings|, resources, bufferStart, bufferEnd))
  {
    var b := Booking(start, end, bufferStart, bufferEnd, Some(employee), Confirmed);
    var wanted := PlainLocks(|st.bookings|, resources, bufferStart, bufferEnd);
    EmployeeFreeIff(st.bookings, b, |st.bookings|);
    AcquireIff(st.locks, st.live, wanted);
    AcquireFailure(st.locks, st.live, wanted);
    TakeableIff(st, |st.bookings|, resources, bufferStart, bufferEnd);
    PlainLocksAreOneEach(|st.bookings|, resources, bufferStart, bufferEnd);
    assert (st.locks + wanted)[|st.locks|..] == wanted;
  }

  /** Taking locks fails for want of a live resource or for a clash, and for nothing else. */
  lemma {:induction false} AcquireFailure(locks: seq<Lock>, live: set<nat>, wanted: seq<Lock>)
    ensures var r := Acquire(locks, live, wanted);
      && (r == Failed(ResourceNotFound) ==> exists k :: 0 <= k < |wanted| && wanted[k].resource !in live)
      && (r.Failed? ==> r.error == ResourceNotFound || r.error == Conflict)
      && (r == Failed(Conflict) ==> exists k :: 0 <= k < |wanted| && Clashes(locks + wanted[..k], wanted[k]))
  {
    if wanted != [] {
      var n := |wanted| - 1;
      var init := wanted[..n];
      AcquireFailure(locks, live, init);
      AcquireIff(locks, live, init);
      if Acquire(locks, live, init) == Failed(ResourceNotFound) {
        var k :| 0 <= k < n && init[k].resource !in live;
        assert wanted[k].resource !in live;
      } else if Acquire(locks, live, init) == Failed(Conflict) {
        var k :| 0 <= k < n && Clashes(locks + init[..k], init[k]);
        assert wanted[..k] == init[..k];
        assert Clashes(locks + wanted[..k], wanted[k]);
      }
    }
  }

  // ---- Chained bookings ----

  /** Where a segment starts and ends. */
  function From(base: int, s: Segment): int { base + s.offset * 60_000 }

  function Until(base: int, s: Segment): int { base + s.offset * 60_000 + s.duration * 60_000 }

  /** Every segment's resource is live and unlocked in its window, and no two segments meet on one resource. */
  ghost predicate SegmentsFit(st: State, base: int, segments: seq<Segment>) {
    && (forall k :: 0 <= k < |segments| ==>
          && segments[k].resource in st.live
          && forall i :: 0 <= i < |st.locks| ==>
               !Blocks(st.locks[i], segments[k].resource, From(base, segments[k]), Until(base, segments[k])))
    && (forall j, k :: 0 <= j < k < |segments| && segments[j].resource == segments[k].resource ==>
          !Meets(From(base, segments[j]), Until(base, segments[j]), From(base, segments[k]), Until(base, segments[k])))
  }

  lemma SegmentLockAt(booking: nat, base: int, segments: seq<Segment>, k: nat)
    requires k < |segments|
    ensures SegmentLocks(booking, base, segments)[k]
         == Lock(booking, segments[k].resource, From(base, segments[k]), Until(base, segments[k]), true)
  {
  }

  lemma SegmentsFitIff(st: State, booking: nat, base: int, segments: seq<Segment>)
    ensures Takeable(st.locks, st.live, SegmentLocks(booking, base, segments)) <==> SegmentsFit(st, base, segments)
  {
    var wanted := SegmentLocks(booking, base, segments);
    forall k | 0 <= k < |segments|
      ensures wanted[k] == Lock(booking, segments[k].resource, From(base, segments[k]), Until(base, segments[k]), true)
      ensures !Clashes(st.locks, wanted[k])
         <==> forall i :: 0 <= i < |st.locks| ==>
                !Blocks(st.locks[i], segments[k].resource, From(base, segments[k]), Until(base, segments[k]))
    {
      SegmentLockAt(booking, base, segments, k);
      ClashesIff(st.locks, wanted[k]);
    }
    SegmentsDisjointIff(wanted);
  }

  /** One active lock of the booking for each segment, in order, for the segment's window. */
  ghost predicate LockEachSegment(added: seq<Lock>, booking: nat, base: int, segments: seq<Segment>) {
    && |added| == |segments|
    && forall k :: 0 <= k < |segments| ==>
         added[k] == Lock(booking, segments[k].resource, From(base, segments[k]), Until(base, segments[k]), true)
  }

  lemma SegmentLocksAreEach(booking: nat, base: int, segments: seq<Segment>)
    ensures LockEachSegment(SegmentLocks(booking, base, segments), booking, base, segments)
  {
    forall k | 0 <= k < |segments|
      ensures SegmentLocks(booking, base, segments)[k]
           == Lock(booking, segments[k].resource, From(base, segments[k]), Until(base, segments[k]), true)
    {
      SegmentLockAt(booking, base, segments, k);
    }
  }

  predicate IsParent(b: Booking) {
    b.employee == None && b.status == Confirmed && b.bufferStart == b.start && b.bufferEnd == b.end
  }

  /** A chained create goes through if and only if the segments fit. It locks each segment's resource for that window
      and nothing else, under a parent without an employee. */
  lemma ChainedCreateExactly(st: State, base: int, segments: seq<Segment>)
    requires segments != []
    ensures var (st', r) := CreateChained(st, base, segments);
      && (r.Ok? <==> SegmentsFit(st, base, segments))
      && (r.Failed? ==> st' == st)
      && (r.Ok? ==>
            && st.locks <= st'.locks && LockEachSegment(st'.locks[|st.locks|..], |st.bookings|, base, segments)
            && |st'.bookings| == |st.bookings| + 1 && st.bookings <= st'.bookings
            && IsParent(st'.bookings[|st.bookings|])
            && st'.live == st.live && r.value == |st.bookings|)
  {
    var wanted := SegmentLocks(|st.bookings|, base, segments);
    AcquireIff(st.locks, st.live, wanted);
    SegmentsFitIff(st, |st.bookings|, base, segments);
    SegmentLocksAreEach(|st.bookings|, base, segments);
    assert (st.locks + wanted)[|st.locks|..] == wanted;
    assert IsParent(Parent(wanted));
  }

  lemma SegmentsDisjointIff(wanted: seq<Lock>)
    requires forall k :: 0 <= k < |wanted| ==> wanted[k].active
    ensures Disjoint(wanted)
       <==> forall j, k :: 0 <= j < k < |wanted| && wanted[j].resource == wanted[k].resource ==>
              !Meets(wanted[j].start, wanted[j].end, wanted[k].start, wanted[k].end)
  {
  }

  // ---- Changes of one booking ----

  /** A reschedule sets times and windows, the employee if a new one is named, and the window of the held locks, all of
      them or nothing. */
  lemma RescheduleEffect(st: State, id: nat, employee: Option<nat>, start: int, end: int, bufferStart: int,
                         bufferEnd: int)
    ensures var (st', r) := Reschedule(st, id, employee, start, end, bufferStart, bufferEnd);
      && (r.Failed? ==> st' == st)
      && (r.Ok? ==>
            && id < |st.bookings| && st.bookings[id].status != Cancelled && st.bookings[id].status != Completed
            && var b := st.bookings[id];
               var e := if employee == None then b.employee else employee;
            && st'.bookings == st.bookings[id := Booking(start, end, bufferStart, bufferEnd, e, b.status)]
            && (e.Some? && b.status == Confirmed ==> HasTime(st.bookings, e.value, bufferStart, bufferEnd, id))
            && st'.live == st.live && |st'.locks| == |st.locks|
            && forall i :: 0 <= i < |st.locks| ==>
                 st'.locks[i] == if st.locks[i].booking == id && st.locks[i].active
                                 then Lock(id, st.locks[i].resource, bufferStart, bufferEnd, true) else st.locks[i])
      && (id < |st.bookings| && (st.bookings[id].status == Cancelled || st.bookings[id].status == Completed) ==>
            r == Failed(CannotReschedule))
      && (id >= |st.bookings| ==> r == Failed(BookingNotFound))
  {
    if id < |st.bookings| {
      var b := st.bookings[id];
      var e := if employee == None then b.employee else employee;
      EmployeeFreeIff(st.bookings, Booking(start, end, bufferStart, bufferEnd, e, b.status), id);
    }
  }

  lemma CancelEffect(st: State, id: nat)
    ensures var (st', r) := Cancel(st, id);
      && (r.Ok? <==> id < |st.bookings| && st.bookings[id].status != Cancelled)
      && (r.Failed? ==> st' == st)
      && (r.Ok? ==>
            && st'.bookings == st.bookings[id := st.bookings[id].(status := Cancelled)]
            && st'.live == st.live && |st'.locks| == |st.locks|
            && forall i :: 0 <= i < |st.locks| ==>
                 st'.locks[i] == if st.locks[i].booking == id then st.locks[i].(active := false) else st.locks[i])
  {
  }

  /** The writers that do not know of locks. */
  lemma CancelAloneEffect(st: State, id: nat, portal: bool)
    ensures var (st', r) := CancelAlone(st, id, portal);
      && (r.Ok? <==>
            id < |st.bookings|
            && (st.bookings[id].status == Confirmed || (portal && st.bookings[id].status == NoShow)))
      && (r.Failed? ==> st' == st)
      && (r.Ok? ==> st' == State(st.bookings[id := st.bookings[id].(status := Cancelled)], st.locks, st.live))
  {
  }

  lemma MoveAloneEffect(st: State, id: nat, start: int, end: int, bufferStart: int, bufferEnd: int)
    ensures var (st', r) := MoveAlone(st, id, start, end, bufferStart, bufferEnd);
      && (r.Ok? <==>
            && id < |st.bookings| && (st.bookings[id].status == Confirmed || st.bookings[id].status == NoShow)
            && (st.bookings[id].status == Confirmed && st.bookings[id].employee.Some? ==>
                  HasTime(st.bookings, st.bookings[id].employee.value, bufferStart, bufferEnd, id)))
      && (r.Failed? ==> st' == st)
      && (r.Ok? ==>
            var b := st.bookings[id];
            st' == State(st.bookings[id := Booking(start, end, bufferStart, bufferEnd, b.employee, b.status)], st.locks,
                         st.live))
  {
    if id < |st.bookings| {
      var b := st.bookings[id];
      EmployeeFreeIff(st.bookings, Booking(start, end, bufferStart, bufferEnd, b.employee, b.status), id);
    }
  }

  /** A booking not cancelled can be marked the other way; marked completed it needs its employee's time again. */
  lemma ChangeStatusEffect(st: State, id: nat, completed: bool)
    ensures var (st', r) := ChangeStatus(st, id, completed);
      var status := if completed then Completed else NoShow;
      && (r.Ok? <==>
            && id < |st.bookings| && st.bookings[id].status != Cancelled && st.bookings[id].status != status
            && (completed && st.bookings[id].employee.Some? ==>
                  HasTime(st.bookings, st.bookings[id].employee.value, st.bookings[id].bufferStart,
                          st.bookings[id].bufferEnd, id)))
      && (r.Failed? ==> st' == st)
      && (r.Ok? ==> st' == State(st.bookings[id := st.bookings[id].(status := status)], st.locks, st.live))
  {
    if id < |st.bookings| {
      EmployeeFreeIff(st.bookings, st.bookings[id].(status := if completed then Completed else NoShow), id);
    }
  }
}
