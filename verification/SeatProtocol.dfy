/** The seats of one session under interleaving: every statement of a join, a leave or a promotion is its own step, and
    any number of requests may stand between any two of them. No row lock is assumed between the statements, so every
    schedule of the database is among the runs considered here. */
module SeatProtocol {
  import opened Common

  datatype RowStatus = Taken | NoShow | Cancelled

  datatype Row = Row(customer: nat, status: RowStatus)

  datatype Outcome = Joined(row: nat, customer: nat) | Already | Full | Left | NotFound | Aborted

  /** Where a request stands. */
  datatype Thread =
    | Joining(customer: nat)
    | Admitted(customer: nat, sawBooked: int, sawCapacity: int)
    | Leaving(row: nat)
    | Freeing(row: nat)
    | Picking
    | Promoting(customer: nat)
    | Holding(customer: nat, byPromotion: bool)
    | Refunding(customer: nat, byPromotion: bool)
    | Done(outcome: Outcome)
  {
    /** The counter already holds, or still holds, a seat for this request that no booking row shows. */
    predicate InFlight() { Holding? || Refunding? || Freeing? }
  }

  /** lost is a history variable: the bookings cancelled past the counter. */
  datatype State = State(capacity: int, booked: int, open: bool, rows: seq<Row>, threads: seq<Thread>, lost: nat)

  predicate HasTaken(rows: seq<Row>, customer: nat) {
    exists i :: 0 <= i < |rows| && rows[i] == Row(customer, Taken)
  }

  function Goto(st: State, t: nat, next: Thread): State
    requires t < |st.threads|
  {
    st.(threads := st.threads[t := next])
  }

  /** The next statement of request t; head is what a promotion finds at the head of the queue. */
  function Advance(st: State, t: nat, head: Option<nat>): State
    requires t < |st.threads|
  {
    match st.threads[t]
    case Joining(c) =>
      Goto(st, t, if HasTaken(st.rows, c) then Done(Already) else Admitted(c, st.booked, st.capacity))
    case Admitted(c, _, _) => TryReserve(st, t, c, false)
    case Promoting(c) => TryReserve(st, t, c, true)
    case Holding(c, p) =>
      if HasTaken(st.rows, c) then Goto(st, t, Refunding(c, p))
      else Goto(st.(rows := st.rows + [Row(c, Taken)]), t, Done(Joined(|st.rows|, c)))
    case Refunding(_, p) =>
      Goto(st.(booked := Max(st.booked - 1, 0)), t, Done(if p then Left else Already))
    case Leaving(r) =>
      if r < |st.rows| && st.rows[r].status.Taken?
      then Goto(st.(rows := st.rows[r := st.rows[r].(status := Cancelled)]), t, Freeing(r))
      else Goto(st, t, Done(NotFound))
    case Freeing(_) => Goto(st.(booked := Max(st.booked - 1, 0)), t, Picking)
    case Picking => Goto(st, t, if st.open && head.Some? then Promoting(head.value) else Done(Left))
    case Done(_) => st
  }

  /** The conditional update reads the row as it is now, not as it was read before. */
  function TryReserve(st: State, t: nat, customer: nat, byPromotion: bool): State
    requires t < |st.threads|
  {
    if st.open && st.booked < st.capacity
    then Goto(st.(booked := st.booked + 1), t, Holding(customer, byPromotion))
    else Goto(st, t, Done(if byPromotion then Left else Full))
  }

  datatype Action =
    | StartJoin(customer: nat)
    | StartLeave(row: nat)
    | Next(thread: nat, head: Option<nat>)
    | Abort(thread: nat)
    | MarkNoShow(row: nat)
    | MarkPresent(row: nat)
    | CancelAlone(row: nat)
    | SetCapacity(capacity: int)
    | CallOff

  function CancelTaken(rows: seq<Row>): seq<Row> {
    seq(|rows|, i requires 0 <= i < |rows| =>
      if rows[i].status.Taken? then rows[i].(status := Cancelled) else rows[i])
  }

  function Step(st: State, a: Action): State {
    match a
    case StartJoin(c) => st.(threads := st.threads + [Joining(c)])
    case StartLeave(r) => st.(threads := st.threads + [Leaving(r)])
    case Next(t, head) => if t < |st.threads| then Advance(st, t, head) else st
    case Abort(t) =>
      // a join whose transaction fails after the increment is rolled back
      if t < |st.threads| && (st.threads[t].Holding? || st.threads[t].Refunding?) && !st.threads[t].byPromotion
      then Goto(st.(booked := Max(st.booked - 1, 0)), t, Done(Aborted))
      else st
    case MarkNoShow(r) =>
      if r < |st.rows| && st.rows[r].status.Taken? then st.(rows := st.rows[r := st.rows[r].(status := NoShow)]) else st
    case MarkPresent(r) =>
      if r < |st.rows| && st.rows[r].status.NoShow? && !HasTaken(st.rows, st.rows[r].customer)
      then st.(rows := st.rows[r := st.rows[r].(status := Taken)])
      else st
    case CancelAlone(r) =>
      // the portal and the list of bookings cancel without looking at the session
      if r < |st.rows| && !st.rows[r].status.Cancelled?
      then st.(rows := st.rows[r := st.rows[r].(status := Cancelled)], lost := st.lost + 1)
      else st
    case SetCapacity(capacity) => if st.open && capacity >= st.booked then st.(capacity := capacity) else st
    case CallOff => st.(open := false, booked := 0, rows := CancelTaken(st.rows))
  }

  function Run(capacity: int, actions: seq<Action>): State {
    if actions == [] then State(capacity, 0, true, [], [], 0)
    else Step(Run(capacity, actions[..|actions| - 1]), actions[|actions| - 1])
  }

  // ---- The invariant ----

  function Seated(rows: seq<Row>): nat {
    if rows == [] then 0
    else Seated(rows[..|rows| - 1]) + if rows[|rows| - 1].status.Cancelled? then 0 else 1
  }

  function Flying(threads: seq<Thread>): nat {
    if threads == [] then 0
    else Flying(threads[..|threads| - 1]) + if threads[|threads| - 1].InFlight() then 1 else 0
  }

  /** The counter of an open session: bookings that are not cancelled, seats in flight, and bookings cancelled past
      the counter. */
  ghost predicate Balanced(st: State) {
    && 0 <= st.booked <= st.capacity
    && (st.open ==> st.booked == Seated(st.rows) + Flying(st.threads) + st.lost)
  }

  /** Nobody holds two seats. */
  ghost predicate Distinct(rows: seq<Row>) {
    forall i, j :: 0 <= i < j < |rows| && rows[i].status.Taken? && rows[j].status.Taken? ==>
      rows[i].customer != rows[j].customer
  }

  /** Who was told to have joined has a row, and it names the right customer. */
  ghost predicate OutcomesExist(st: State) {
    forall t :: 0 <= t < |st.threads| && HasJoined(st.threads[t]) ==>
      st.threads[t].outcome.row < |st.rows|
      && st.rows[st.threads[t].outcome.row].customer == st.threads[t].outcome.customer
  }

  ghost predicate Inv(st: State) { Balanced(st) && Distinct(st.rows) && OutcomesExist(st) }

  lemma {:induction false} SeatedSet(rows: seq<Row>, k: nat, row: Row)
    requires k < |rows|
    ensures Seated(rows[k := row])
         == Seated(rows) - (if rows[k].status.Cancelled? then 0 else 1) + if row.status.Cancelled? then 0 else 1
  {
    var n := |rows| - 1;
    if k < n {
      assert rows[k := row][..n] == rows[..n][k := row];
      SeatedSet(rows[..n], k, row);
    } else {
      assert rows[k := row][..n] == rows[..n];
    }
  }

  lemma SeatedSnoc(rows: seq<Row>, row: Row)
    ensures Seated(rows + [row]) == Seated(rows) + if row.status.Cancelled? then 0 else 1
  {
  }

  lemma {:induction false} FlyingSet(threads: seq<Thread>, k: nat, next: Thread)
    requires k < |threads|
    ensures Flying(threads[k := next])
         == Flying(threads) - (if threads[k].InFlight() then 1 else 0) + if next.InFlight() then 1 else 0
  {
    var n := |threads| - 1;
    if k < n {
      assert threads[k := next][..n] == threads[..n][k := next];
      FlyingSet(threads[..n], k, next);
    } else {
      assert threads[k := next][..n] == threads[..n];
    }
  }

  lemma FlyingSnoc(threads: seq<Thread>, next: Thread)
    ensures Flying(threads + [next]) == Flying(threads) + if next.InFlight() then 1 else 0
  {
  }

  lemma {:induction false} FlyingPositive(threads: seq<Thread>, k: nat)
    requires k < |threads| && threads[k].InFlight()
    ensures Flying(threads) >= 1
  {
    if k < |threads| - 1 { FlyingPositive(threads[..|threads| - 1], k); }
  }

  function InFlightCount(thread: Thread): nat { if thread.InFlight() then 1 else 0 }

  /** A step of request t is balanced when the counter moves with the booking rows and the request's own seat. */
  lemma MovedBalanced(st: State, st': State, t: nat)
    requires Balanced(st) && t < |st.threads| == |st'.threads|
    requires st'.threads == st.threads[t := st'.threads[t]]
    requires st'.open == st.open && st'.lost == st.lost && 0 <= st'.booked <= st'.capacity
    requires st.open ==>
      st'.booked - Seated(st'.rows) - InFlightCount(st'.threads[t])
      == st.booked - Seated(st.rows) - InFlightCount(st.threads[t])
    ensures Balanced(st')
  {
    FlyingSet(st.threads, t, st'.threads[t]);
  }

  lemma HoldingBalanced(st: State, t: nat, head: Option<nat>)
    requires Balanced(st) && t < |st.threads| && st.threads[t].Holding?
    ensures Balanced(Advance(st, t, head))
  {
    var c := st.threads[t].customer;
    var st' := Advance(st, t, head);
    if HasTaken(st.rows, c) {
      assert st'.rows == st.rows && st'.booked == st.booked && st'.threads[t].Refunding?;
    } else {
      assert st'.rows == st.rows + [Row(c, Taken)] && st'.booked == st.booked && st'.threads[t].Done?;
      SeatedSnoc(st.rows, Row(c, Taken));
    }
    MovedBalanced(st, st', t);
  }

  lemma GivingBackBalanced(st: State, t: nat, head: Option<nat>)
    requires Balanced(st) && t < |st.threads| && (st.threads[t].Refunding? || st.threads[t].Freeing?)
    ensures Balanced(Advance(st, t, head))
  {
    FlyingPositive(st.threads, t);
    MovedBalanced(st, Advance(st, t, head), t);
  }

  lemma LeavingBalanced(st: State, t: nat, head: Option<nat>)
    requires Balanced(st) && t < |st.threads| && st.threads[t].Leaving?
    ensures Balanced(Advance(st, t, head))
  {
    var r := st.threads[t].row;
    if r < |st.rows| { SeatedSet(st.rows, r, st.rows[r].(status := Cancelled)); }
    MovedBalanced(st, Advance(st, t, head), t);
  }

  lemma AdvanceBalanced(st: State, t: nat, head: Option<nat>)
    requires Balanced(st) && t < |st.threads|
    ensures Balanced(Advance(st, t, head))
  {
    match st.threads[t]
    case Holding(_, _) => HoldingBalanced(st, t, head);
    case Refunding(_, _) => GivingBackBalanced(st, t, head);
    case Freeing(_) => GivingBackBalanced(st, t, head);
    case Leaving(_) => LeavingBalanced(st, t, head);
    case _ => MovedBalanced(st, Advance(st, t, head), t);
  }

  lemma AdvanceDistinct(st: State, t: nat, head: Option<nat>)
    requires Distinct(st.rows) && t < |st.threads|
    ensures Distinct(Advance(st, t, head).rows)
  {
  }

  lemma AdvanceOutcomes(st: State, t: nat, head: Option<nat>)
    requires OutcomesExist(st) && t < |st.threads|
    ensures OutcomesExist(Advance(st, t, head))
  {
  }

  lemma StepBalanced(st: State, a: Action)
    requires Balanced(st)
    ensures Balanced(Step(st, a))
  {
    match a
    case StartJoin(c) => FlyingSnoc(st.threads, Joining(c));
    case StartLeave(r) => FlyingSnoc(st.threads, Leaving(r));
    case Next(t, head) =>
      if t < |st.threads| { AdvanceBalanced(st, t, head); }
    case Abort(t) =>
      if t < |st.threads| && st.threads[t].InFlight() {
        FlyingSet(st.threads, t, Done(Aborted));
        FlyingPositive(st.threads, t);
      }
    case MarkNoShow(r) =>
      if r < |st.rows| { SeatedSet(st.rows, r, st.rows[r].(status := NoShow)); }
    case MarkPresent(r) =>
      if r < |st.rows| { SeatedSet(st.rows, r, st.rows[r].(status := Taken)); }
    case CancelAlone(r) =>
      if r < |st.rows| { SeatedSet(st.rows, r, st.rows[r].(status := Cancelled)); }
    case SetCapacity(_) =>
    case CallOff =>
  }

  lemma StepKeeps(st: State, a: Action)
    requires Inv(st)
    ensures Inv(Step(st, a))
  {
    StepBalanced(st, a);
    match a
    case Next(t, head) =>
      if t < |st.threads| {
        AdvanceDistinct(st, t, head);
        AdvanceOutcomes(st, t, head);
      }
    case MarkPresent(r) => PresentDistinct(st.rows, r);
    case _ =>
  }

  lemma PresentDistinct(rows: seq<Row>, r: nat)
    requires Distinct(rows)
    ensures r < |rows| && !HasTaken(rows, rows[r].customer) ==> Distinct(rows[r := rows[r].(status := Taken)])
  {
  }

  /** No overselling under interleaving: whatever the schedule, while the session is open its counter is the number of
      bookings that are not cancelled, plus the seats in flight, plus the bookings cancelled past the counter, and it
      never exceeds the capacity. */
  lemma {:induction false} NeverOversold(capacity: int, actions: seq<Action>)
    requires capacity >= 1
    ensures Inv(Run(capacity, actions))
    ensures Run(capacity, actions).open ==> Seated(Run(capacity, actions).rows) <= Run(capacity, actions).capacity
  {
    if actions != [] {
      NeverOversold(capacity, actions[..|actions| - 1]);
      StepKeeps(Run(capacity, actions[..|actions| - 1]), actions[|actions| - 1]);
    }
  }

  lemma {:induction false} NoneFlying(threads: seq<Thread>)
    requires forall t :: 0 <= t < |threads| ==> threads[t].Done?
    ensures Flying(threads) == 0
  {
    if threads != [] { NoneFlying(threads[..|threads| - 1]); }
  }

  function CancelledPast(actions: seq<Action>, capacity: int): nat {
    if actions == [] then 0
    else
      var init, a := actions[..|actions| - 1], actions[|actions| - 1];
      CancelledPast(init, capacity) + if CancelsPast(Run(capacity, init), a) then 1 else 0
  }

  /** The action cancels a booking that counts, without its request. */
  predicate CancelsPast(st: State, a: Action) {
    a.CancelAlone? && a.row < |st.rows| && !st.rows[a.row].status.Cancelled?
  }

  lemma {:induction false} LostIsCancelledPast(capacity: int, actions: seq<Action>)
    ensures Run(capacity, actions).lost == CancelledPast(actions, capacity)
  {
    if actions != [] {
      var init := actions[..|actions| - 1];
      LostIsCancelledPast(capacity, init);
      StepLost(Run(capacity, init), actions[|actions| - 1]);
    }
  }

  lemma StepLost(st: State, a: Action)
    ensures Step(st, a).lost == st.lost + if CancelsPast(st, a) then 1 else 0
  {
  }

  /** When every request has finished, the requests have lost no seat: the counter is exactly the number of bookings and
      of the cancellations past it. */
  lemma NoSeatLost(capacity: int, actions: seq<Action>)
    requires capacity >= 1 && Run(capacity, actions).open
    requires forall t :: 0 <= t < |Run(capacity, actions).threads| ==> Run(capacity, actions).threads[t].Done?
    ensures Run(capacity, actions).booked
         == Seated(Run(capacity, actions).rows) + CancelledPast(actions, capacity)
  {
    NeverOversold(capacity, actions);
    LostIsCancelledPast(capacity, actions);
    NoneFlying(Run(capacity, actions).threads);
  }

  /** On an open session the clamp of a decrement never acts. */
  lemma ClampIdle(capacity: int, actions: seq<Action>, t: nat)
    requires capacity >= 1 && Run(capacity, actions).open
    requires t < |Run(capacity, actions).threads| && Run(capacity, actions).threads[t].InFlight()
    ensures Run(capacity, actions).booked >= 1
  {
    NeverOversold(capacity, actions);
    FlyingPositive(Run(capacity, actions).threads, t);
  }

  // ---- Every request finishes ----

  /** Statements a request may still make. */
  function Remaining(thread: Thread): nat {
    match thread
    case Leaving(_) => 7
    case Freeing(_) => 6
    case Picking => 5
    case Joining(_) => 4
    case Admitted(_, _, _) => 3
    case Promoting(_) => 3
    case Holding(_, _) => 2
    case Refunding(_, _) => 1
    case Done(_) => 0
  }

  function AllRemaining(threads: seq<Thread>): nat {
    if threads == [] then 0 else AllRemaining(threads[..|threads| - 1]) + Remaining(threads[|threads| - 1])
  }

  lemma {:induction false} RemainingSet(threads: seq<Thread>, k: nat, next: Thread)
    requires k < |threads|
    ensures AllRemaining(threads[k := next]) == AllRemaining(threads) - Remaining(threads[k]) + Remaining(next)
  {
    var n := |threads| - 1;
    if k < n {
      assert threads[k := next][..n] == threads[..n][k := next];
      RemainingSet(threads[..n], k, next);
    } else {
      assert threads[k := next][..n] == threads[..n];
    }
  }

  /** No request waits for another: a step is always possible and always brings the requests closer to their end. */
  lemma NoDeadlock(st: State, t: nat, head: Option<nat>)
    requires t < |st.threads| && !st.threads[t].Done?
    ensures AllRemaining(Advance(st, t, head).threads) < AllRemaining(st.threads)
  {
    RemainingSet(st.threads, t, Advance(st, t, head).threads[t]);
  }

  predicate HasJoined(thread: Thread) { thread.Done? && thread.outcome.Joined? }

  ghost predicate JoinedApart(threads: seq<Thread>) {
    forall t, u :: 0 <= t < u < |threads| && HasJoined(threads[t]) && HasJoined(threads[u]) ==>
      threads[t].outcome.row != threads[u].outcome.row
  }

  lemma AdvanceJoinedApart(st: State, t: nat, head: Option<nat>)
    requires t < |st.threads| && OutcomesExist(st) && JoinedApart(st.threads)
    ensures JoinedApart(Advance(st, t, head).threads)
  {
  }

  /** Every request told that it joined has a booking row of its own, made out to its customer. */
  lemma {:induction false} JoinedIsTrue(capacity: int, actions: seq<Action>)
    requires capacity >= 1
    ensures JoinedApart(Run(capacity, actions).threads)
    ensures var st := Run(capacity, actions);
      forall t :: 0 <= t < |st.threads| && HasJoined(st.threads[t]) ==>
        st.threads[t].outcome.row < |st.rows|
        && st.rows[st.threads[t].outcome.row].customer == st.threads[t].outcome.customer
  {
    NeverOversold(capacity, actions);
    if actions != [] {
      var init, a := actions[..|actions| - 1], actions[|actions| - 1];
      NeverOversold(capacity, init);
      JoinedIsTrue(capacity, init);
      var st := Run(capacity, init);
      if a.Next? && a.thread < |st.threads| { AdvanceJoinedApart(st, a.thread, a.head); }
    }
  }

  /** The request is a join of this customer, at whatever stage. */
  predicate JoinOf(thread: Thread, customer: nat) {
    match thread
    case Joining(c) => c == customer
    case Admitted(c, _, _) => c == customer
    case Holding(c, p) => c == customer && !p
    case Refunding(c, p) => c == customer && !p
    case Done(o) => o == Already || o == Full || o == Aborted || (o.Joined? && o.customer == customer)
    case _ => false
  }

  lemma StepKeepsJoinOf(st: State, a: Action, t: nat, customer: nat)
    requires t < |st.threads| && JoinOf(st.threads[t], customer)
    ensures t < |Step(st, a).threads| && JoinOf(Step(st, a).threads[t], customer)
  {
  }

  /** A request that starts as a join of a customer ends, if it is told to have joined, with a row of that customer. */
  lemma {:induction false} JoinServesItsCustomer(capacity: int, actions: seq<Action>, n: nat, t: nat, customer: nat)
    requires n <= |actions| && t < |Run(capacity, actions[..n]).threads|
    requires Run(capacity, actions[..n]).threads[t] == Joining(customer)
    ensures t < |Run(capacity, actions).threads| && JoinOf(Run(capacity, actions).threads[t], customer)
    ensures capacity >= 1 && HasJoined(Run(capacity, actions).threads[t]) ==>
      var row := Run(capacity, actions).threads[t].outcome.row;
      row < |Run(capacity, actions).rows| && Run(capacity, actions).rows[row].customer == customer
    decreases |actions|
  {
    if n == |actions| {
      assert actions[..n] == actions;
    } else {
      var init := actions[..|actions| - 1];
      assert init[..n] == actions[..n];
      JoinServesItsCustomer(capacity, init, n, t, customer);
      StepKeepsJoinOf(Run(capacity, init), actions[|actions| - 1], t, customer);
      if capacity >= 1 { JoinedIsTrue(capacity, actions); }
    }
  }

  // ---- A request that meets no other ----

  function AdvanceTimes(st: State, t: nat, n: nat, head: Option<nat>): State
    requires t < |st.threads|
    ensures |AdvanceTimes(st, t, n, head).threads| == |st.threads|
  {
    if n == 0 then st else Advance(AdvanceTimes(st, t, n - 1, head), t, head)
  }

  /** Run without interruption the statements of a join amount to the atomic join: refuse a participant, refuse when
      closed or full, else take one seat and insert one row; nothing else changes. */
  lemma JoinAloneIsAtomic(st: State, t: nat, customer: nat, head: Option<nat>)
    requires t < |st.threads| && st.threads[t] == Joining(customer) && st.booked >= 0
    ensures AdvanceTimes(st, t, 4, head) ==
      if exists i :: 0 <= i < |st.rows| && st.rows[i] == Row(customer, Taken)
      then st.(threads := st.threads[t := Done(Already)])
      else if !st.open || st.booked >= st.capacity then st.(threads := st.threads[t := Done(Full)])
      else
        st.(booked := st.booked + 1, rows := st.rows + [Row(customer, Taken)],
            threads := st.threads[t := Done(Joined(|st.rows|, customer))])
  {
    var s1 := AdvanceTimes(st, t, 1, head);
    var s2 := AdvanceTimes(st, t, 2, head);
    var s3 := AdvanceTimes(st, t, 3, head);
    assert s1 == Advance(AdvanceTimes(st, t, 0, head), t, head);
    assert s2 == Advance(s1, t, head) && s3 == Advance(s2, t, head);
    assert AdvanceTimes(st, t, 4, head) == Advance(s3, t, head);
    assert s3.threads == st.threads[t := s3.threads[t]];
  }

  lemma RunSnoc(capacity: int, actions: seq<Action>, a: Action)
    ensures Run(capacity, actions + [a]) == Step(Run(capacity, actions), a)
  {
    assert (actions + [a])[..|actions|] == actions;
  }

  function Nexts(t: nat, n: nat): seq<Action> { if n == 0 then [] else Nexts(t, n - 1) + [Next(t, None)] }

  lemma OneMoreNext(capacity: int, actions: seq<Action>, t: nat)
    requires t < |Run(capacity, actions).threads|
    ensures Run(capacity, actions + [Next(t, None)]) == Advance(Run(capacity, actions), t, None)
  {
    RunSnoc(capacity, actions, Next(t, None));
  }

  lemma {:induction false} RunAlone(capacity: int, actions: seq<Action>, t: nat, n: nat)
    requires t < |Run(capacity, actions).threads|
    ensures Run(capacity, actions + Nexts(t, n)) == AdvanceTimes(Run(capacity, actions), t, n, None)
  {
    if n == 0 {
      assert actions + Nexts(t, 0) == actions;
    } else {
      RunAlone(capacity, actions, t, n - 1);
      OneMoreNext(capacity, actions + Nexts(t, n - 1), t);
      assert actions + Nexts(t, n) == actions + Nexts(t, n - 1) + [Next(t, None)];
    }
  }

  /** From the start of a session with a place the first join succeeds. */
  lemma FirstJoinSucceeds(capacity: int, customer: nat)
    requires capacity >= 1
    ensures Run(capacity, [StartJoin(customer)] + Nexts(0, 4))
         == State(capacity, 1, true, [Row(customer, Taken)], [Done(Joined(0, customer))], 0)
  {
    RunSnoc(capacity, [], StartJoin(customer));
    assert [] + [StartJoin(customer)] == [StartJoin(customer)];
    RunAlone(capacity, [StartJoin(customer)], 0, 4);
    JoinAloneIsAtomic(Run(capacity, [StartJoin(customer)]), 0, customer, None);
  }

  /** The rows without the one that leaves. */
  function Without(rows: seq<Row>, r: nat): seq<Row>
    requires r < |rows|
  {
    rows[r := Row(rows[r].customer, Cancelled)]
  }

  /** Three statements of a leave: the row is cancelled, the seat is given back, the head of the queue is picked. */
  lemma LeaveUntilPicked(st: State, t: nat, r: nat, head: Option<nat>)
    requires t < |st.threads| && st.threads[t] == Leaving(r) && st.booked >= 1
    requires r < |st.rows| && st.rows[r].status.Taken?
    ensures AdvanceTimes(st, t, 3, head)
         == st.(booked := st.booked - 1, rows := Without(st.rows, r),
                threads := st.threads[t := if st.open && head.Some? then Promoting(head.value) else Done(Left)])
  {
    var s1, s2 := AdvanceTimes(st, t, 1, head), AdvanceTimes(st, t, 2, head);
    assert s1 == Advance(AdvanceTimes(st, t, 0, head), t, head);
    assert s1 == st.(rows := Without(st.rows, r), threads := st.threads[t := Freeing(r)]);
    assert s2 == Advance(s1, t, head);
    assert AdvanceTimes(st, t, 3, head) == Advance(s2, t, head);
  }

  /** Three statements of a promotion: take a seat if there is one, then insert a row or give the seat back. */
  lemma PromotionAlone(st: State, t: nat, c: nat, head: Option<nat>)
    requires t < |st.threads| && st.threads[t] == Promoting(c) && st.booked >= 0
    ensures Advance(Advance(Advance(st, t, head), t, head), t, head) ==
      if !st.open || st.booked >= st.capacity || exists i :: 0 <= i < |st.rows| && st.rows[i] == Row(c, Taken)
      then st.(threads := st.threads[t := Done(Left)])
      else
        st.(booked := st.booked + 1, rows := st.rows + [Row(c, Taken)],
            threads := st.threads[t := Done(Joined(|st.rows|, c))])
  {
    var s1 := Advance(st, t, head);
    var s2 := Advance(s1, t, head);
    assert s1.threads == st.threads[t := s1.threads[t]];
    assert s2.threads == st.threads[t := s2.threads[t]];
  }

  /** Run without interruption the statements of a leave amount to the atomic leave of an open session: the row is
      cancelled; the head of the queue, unless already a participant, gets a row and keeps the counter where it was;
      without one the counter falls by one. */
  lemma LeaveAloneIsAtomic(st: State, t: nat, r: nat, head: Option<nat>)
    requires t < |st.threads| && st.threads[t] == Leaving(r) && st.open && 1 <= st.booked <= st.capacity
    requires r < |st.rows| && st.rows[r].status.Taken?
    ensures var rows := st.rows[r := Row(st.rows[r].customer, Cancelled)];
      AdvanceTimes(st, t, 6, head) ==
      if head.None? || exists i :: 0 <= i < |rows| && rows[i] == Row(head.value, Taken)
      then State(st.capacity, st.booked - 1, true, rows, st.threads[t := Done(Left)], st.lost)
      else
        State(st.capacity, st.booked, true, rows + [Row(head.value, Taken)],
              st.threads[t := Done(Joined(|st.rows|, head.value))], st.lost)
  {
    var s3 := AdvanceTimes(st, t, 3, head);
    LeaveUntilPicked(st, t, r, head);
    assert AdvanceTimes(st, t, 4, head) == Advance(s3, t, head);
    assert AdvanceTimes(st, t, 5, head) == Advance(AdvanceTimes(st, t, 4, head), t, head);
    assert AdvanceTimes(st, t, 6, head) == Advance(AdvanceTimes(st, t, 5, head), t, head);
    if head.Some? {
      PromotionAlone(s3, t, head.value, head);
      assert st.threads[t := Promoting(head.value)][t := Done(Left)] == st.threads[t := Done(Left)];
      var joined := Done(Joined(|st.rows|, head.value));
      assert st.threads[t := Promoting(head.value)][t := joined] == st.threads[t := joined];
    }
  }

  /** A leave of a closed session promotes nobody, and one without a seat changes nothing. */
  lemma LeaveOtherwise(st: State, t: nat, r: nat, head: Option<nat>)
    requires t < |st.threads| && st.threads[t] == Leaving(r) && st.booked >= 0
    ensures !(r < |st.rows| && st.rows[r].status.Taken?) ==>
      AdvanceTimes(st, t, 1, head) == st.(threads := st.threads[t := Done(NotFound)])
    ensures r < |st.rows| && st.rows[r].status.Taken? && !st.open ==>
      AdvanceTimes(st, t, 3, head)
      == State(st.capacity, if st.booked == 0 then 0 else st.booked - 1, false,
               st.rows[r := Row(st.rows[r].customer, Cancelled)], st.threads[t := Done(Left)], st.lost)
  {
    var s1, s2 := AdvanceTimes(st, t, 1, head), AdvanceTimes(st, t, 2, head);
    assert s1 == Advance(AdvanceTimes(st, t, 0, head), t, head);
    assert s2 == Advance(s1, t, head);
    assert AdvanceTimes(st, t, 3, head) == Advance(s2, t, head);
    if r < |st.rows| && st.rows[r].status.Taken? && !st.open {
      assert st.threads[t := Freeing(r)][t := Picking][t := Done(Left)] == st.threads[t := Done(Left)];
    }
  }

  /** What the other actions do to the session. */
  lemma ActionEffects(st: State, r: nat, c: nat, capacity: int)
    requires st.booked >= 0
    ensures Step(st, StartJoin(c)) == st.(threads := st.threads + [Joining(c)])
    ensures Step(st, StartLeave(r)) == st.(threads := st.threads + [Leaving(r)])
    ensures Step(st, MarkNoShow(r)) ==
      if r < |st.rows| && st.rows[r].status == Taken then st.(rows := st.rows[r := Row(st.rows[r].customer, NoShow)])
      else st
    ensures Step(st, MarkPresent(r)) ==
      if r < |st.rows| && st.rows[r].status == NoShow
         && forall i :: 0 <= i < |st.rows| ==> st.rows[i] != Row(st.rows[r].customer, Taken)
      then st.(rows := st.rows[r := Row(st.rows[r].customer, Taken)])
      else st
    ensures Step(st, SetCapacity(capacity)) ==
      if st.open && st.booked <= capacity then st.(capacity := capacity) else st
    ensures var off := Step(st, CallOff);
      && !off.open && off.booked == 0 && off.capacity == st.capacity && off.threads == st.threads
      && |off.rows| == |st.rows|
      && forall i :: 0 <= i < |st.rows| ==>
           off.rows[i] == if st.rows[i].status == Taken then Row(st.rows[i].customer, Cancelled) else st.rows[i]
    ensures forall t :: 0 <= t < |st.threads| && (st.threads[t].Holding? || st.threads[t].Refunding?) ==>
      Step(st, Abort(t)) ==
        if st.threads[t].byPromotion then st
        else st.(booked := if st.booked == 0 then 0 else st.booked - 1, threads := st.threads[t := Done(Aborted)])
  {
  }
}
