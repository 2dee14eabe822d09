/** The timetable of group sessions: listing one, editing one, and generating a recurring series. */
module Timetable {
  import opened Common

  datatype Status = Open | Cancelled | Completed

  datatype Service = Service(duration: int, bufferBefore: int, bufferAfter: int, capacity: int)

  /** service is the service as it was when the session was listed. */
  datatype Session = Session(
    trainer: Option<nat>,
    machine: Option<nat>,
    branch: nat,
    service: Service,
    start: int,
    end: int,
    bufferStart: int,
    bufferEnd: int,
    capacity: int,
    booked: int,
    status: Status,
    recurrence: Option<nat>)

  datatype Error =
    | ServiceNotFound | CapacityTooLow | ResourceNotFound | BranchRequired | TrainerBusy | BranchBusy | MachineTaken
    | SessionNotFound | SessionNotEditable | CapacityBelowBooked | SessionStartsInPast

  datatype Result = Ok(id: nat) | Failed(error: Error)

  /** A request to list a session; branch is the branch resolved for it, machineLive whether its machine exists. */
  datatype Request = Request(
    service: Option<Service>,
    trainer: Option<nat>,
    machine: Option<nat>,
    machineLive: bool,
    branch: Option<nat>,
    capacity: Option<int>)

  datatype Change<+T> = Keep | Set(value: T)

  /** An edit: fields not sent keep their value, Set(None) removes. service is the session's service as it is now. */
  datatype Edit = Edit(
    start: Option<int>,
    trainer: Change<Option<nat>>,
    machine: Change<Option<nat>>,
    machineBranch: Option<nat>,
    capacity: Option<int>,
    service: Option<Service>,
    now: int)

  /** onePerBranch is the tenant's switch against two trainings in one branch at a time. */
  datatype State = State(sessions: seq<Session>, onePerBranch: bool)

  predicate SameTime(a: Session, b: Session) {
    a.status.Open? && b.status.Open? && Overlap(a.bufferStart, a.bufferEnd, b.bufferStart, b.bufferEnd)
  }

  predicate TrainerClash(a: Session, b: Session) {
    a.trainer.Some? && a.trainer == b.trainer && a.machine.None? && b.machine.None? && SameTime(a, b)
  }

  predicate MachineClash(a: Session, b: Session) {
    a.machine.Some? && a.machine == b.machine && SameTime(a, b)
  }

  predicate BranchClash(a: Session, b: Session) {
    a.branch == b.branch && a.machine.None? && b.machine.None? && SameTime(a, b)
  }

  predicate Compatible(a: Session, b: Session, onePerBranch: bool) {
    !TrainerClash(a, b) && !MachineClash(a, b) && (onePerBranch ==> !BranchClash(a, b))
  }

  /** The first collision, in the order the checks are made, of s with the sessions other than number self. */
  function Collision(st: State, s: Session, self: int): Option<Error> {
    if exists i :: 0 <= i < |st.sessions| && i != self && TrainerClash(st.sessions[i], s) then Some(TrainerBusy)
    else if st.onePerBranch && exists i :: 0 <= i < |st.sessions| && i != self && BranchClash(st.sessions[i], s)
    then Some(BranchBusy)
    else if exists i :: 0 <= i < |st.sessions| && i != self && MachineClash(st.sessions[i], s) then Some(MachineTaken)
    else None
  }

  function Placed(s: Session, service: Service, start: int): Session {
    var end := start + service.duration * MINUTE_MS;
    s.(start := start, end := end, bufferStart := start - service.bufferBefore * MINUTE_MS,
       bufferEnd := end + service.bufferAfter * MINUTE_MS)
  }

  function NewSession(service: Service, req: Request, branch: nat, capacity: int, start: int): Session {
    Placed(Session(req.trainer, req.machine, branch, service, 0, 0, 0, 0, capacity, 0, Open, None), service, start)
  }

  function Create(st: State, req: Request, start: int): (State, Result) {
    if req.service.None? then (st, Failed(ServiceNotFound))
    else
      var service := req.service.value;
      var capacity := match req.capacity case Some(c) => c case None => service.capacity;
      if capacity < 2 && req.machine.None? then (st, Failed(CapacityTooLow))
      else if req.machine.Some? && !req.machineLive then (st, Failed(ResourceNotFound))
      else if req.branch.None? then (st, Failed(BranchRequired))
      else
        var s := NewSession(service, req, req.branch.value, capacity, start);
        match Collision(st, s, -1)
        case Some(e) => (st, Failed(e))
        case None => (st.(sessions := st.sessions + [s]), Ok(|st.sessions|))
  }

  function Edited(s: Session, edit: Edit, service: Service): Session {
    var machine := match edit.machine case Keep => s.machine case Set(m) => m;
    var t := s.(
      trainer := match edit.trainer case Keep => s.trainer case Set(x) => x,
      machine := machine,
      branch := if machine.Some? && edit.machineBranch.Some? then edit.machineBranch.value else s.branch,
      capacity := match edit.capacity case Some(c) => c case None => s.capacity);
    Placed(t, service, match edit.start case Some(x) => x case None => s.start)
  }

  function Update(st: State, id: nat, edit: Edit): (State, Result) {
    if id >= |st.sessions| then (st, Failed(SessionNotFound))
    else
      var s := st.sessions[id];
      var machine := match edit.machine case Keep => s.machine case Set(m) => m;
      var capacity := match edit.capacity case Some(c) => c case None => s.capacity;
      if !s.status.Open? then (st, Failed(SessionNotEditable))
      else if capacity < s.booked then (st, Failed(CapacityBelowBooked))
      else if capacity < 2 && machine.None? then (st, Failed(CapacityTooLow))
      else if edit.service.None? then (st, Failed(ServiceNotFound))
      else if edit.start.Some? && edit.start.value < edit.now then (st, Failed(SessionStartsInPast))
      else if machine.Some? && edit.machineBranch.None? then (st, Failed(ResourceNotFound))
      else
        var s' := Edited(s, edit, edit.service.value);
        match Collision(st, s', id)
        case Some(e) => (st, Failed(e))
        case None => (st.(sessions := st.sessions[id := s']), Ok(id))
  }

  /** ISO day of the week, 1 is Monday; day 0 is 1 January 1970, a Thursday. */
  function IsoDay(day: int): int { ((day + 4) % 7 + 6) % 7 + 1 }

  /** Days of the first 366 from start on, up to end, that fall on one of the weekdays. */
  predicate Occurs(start: int, end: int, days: set<int>, day: int) {
    start <= day <= end && day < start + 366 && IsoDay(day) in days
  }

  /** Listing one session per start, in order; the outcome of each. */
  function CreateMany(st: State, req: Request, starts: seq<int>): (State, seq<Result>) {
    if starts == [] then (st, [])
    else
      var (mid, outcomes) := CreateMany(st, req, starts[..|starts| - 1]);
      var (st', outcome) := Create(mid, req, starts[|starts| - 1]);
      (st', outcomes + [outcome])
  }

  function CreatedIds(outcomes: seq<Result>): seq<nat> {
    if outcomes == [] then []
    else
      var o := outcomes[|outcomes| - 1];
      CreatedIds(outcomes[..|outcomes| - 1]) + if o.Ok? then [o.id] else []
  }

  function Skipped(starts: seq<int>, outcomes: seq<Result>): seq<(int, Error)>
    requires |starts| == |outcomes|
  {
    if outcomes == [] then []
    else
      var n := |outcomes| - 1;
      Skipped(starts[..n], outcomes[..n]) + if outcomes[n].Failed? then [(starts[n], outcomes[n].error)] else []
  }

  function Tag(sessions: seq<Session>, ids: seq<nat>, recurrence: nat): seq<Session> {
    seq(|sessions|, i requires 0 <= i < |sessions| =>
      if i in ids then sessions[i].(recurrence := Some(recurrence)) else sessions[i])
  }

  function Starts(days: seq<int>, time: int): seq<int> {
    seq(|days|, i requires 0 <= i < |days| => days[i] * DAY_MS + time)
  }

  class Sessions {
    var sessions: seq<Session>
    const onePerBranch: bool

    ghost function Contents(): State
      reads this
    {
      State(sessions, onePerBranch)
    }

    method List(req: Request, start: int) returns (r: Result)
      modifies this
      ensures (Contents(), r) == Create(old(Contents()), req, start)
    {
      if req.service.None? { return Failed(ServiceNotFound); }
      var service := req.service.value;
      var capacity := match req.capacity case Some(c) => c case None => service.capacity;
      if capacity < 2 && req.machine.None? { return Failed(CapacityTooLow); }
      if req.machine.Some? && !req.machineLive { return Failed(ResourceNotFound); }
      if req.branch.None? { return Failed(BranchRequired); }
      var s := NewSession(service, req, req.branch.value, capacity, start);
      var collision := Collision(State(sessions, onePerBranch), s, -1);
      if collision.Some? { return Failed(collision.value); }
      sessions := sessions + [s];
      return Ok(|sessions| - 1);
    }

    method Change(id: nat, edit: Edit) returns (r: Result)
      modifies this
      ensures (Contents(), r) == Update(old(Contents()), id, edit)
    {
      if id >= |sessions| { return Failed(SessionNotFound); }
      var s := sessions[id];
      if !s.status.Open? { return Failed(SessionNotEditable); }
      var machine := match edit.machine case Keep => s.machine case Set(m) => m;
      var capacity := match edit.capacity case Some(c) => c case None => s.capacity;
      if capacity < s.booked { return Failed(CapacityBelowBooked); }
      if capacity < 2 && machine.None? { return Failed(CapacityTooLow); }
      if edit.service.None? { return Failed(ServiceNotFound); }
      if edit.start.Some? && edit.start.value < edit.now { return Failed(SessionStartsInPast); }
      if machine.Some? && edit.machineBranch.None? { return Failed(ResourceNotFound); }
      var s' := Edited(s, edit, edit.service.value);
      var collision := Collision(State(sessions, onePerBranch), s', id);
      if collision.Some? { return Failed(collision.value); }
      sessions := sessions[id := s'];
      return Ok(id);
    }

    /** The day loop of the recurrence: at most 366 days are looked at. */
    static method Occurrences(start: int, end: int, days: set<int>) returns (found: seq<int>)
      ensures forall d :: d in found <==> Occurs(start, end, days, d)
      ensures forall i, j :: 0 <= i < j < |found| ==> found[i] < found[j]
    {
      found := [];
      var cursor, guard := start, 0;
      while cursor <= end && guard < 366
        invariant cursor == start + guard && 0 <= guard <= 366
        invariant forall d :: d in found <==> Occurs(start, end, days, d) && d < cursor
        invariant forall i :: 0 <= i < |found| ==> found[i] in found && found[i] < cursor
        invariant forall i, j :: 0 <= i < j < |found| ==> found[i] < found[j]
        decreases 366 - guard
      {
        var iso := ((cursor + 4) % 7 + 6) % 7 + 1;
        if iso in days {
          found := found + [cursor];
        }
        cursor := cursor + 1;
        guard := guard + 1;
      }
    }

    /** Lists one session per start; a collision skips that start only. */
    method ListEach(req: Request, starts: seq<int>)
      returns (ids: seq<nat>, skipped: seq<(int, Error)>, ghost outcomes: seq<Result>)
      modifies this
      ensures (Contents(), outcomes) == CreateMany(old(Contents()), req, starts)
      ensures |outcomes| == |starts| && ids == CreatedIds(outcomes) && skipped == Skipped(starts, outcomes)
    {
      outcomes, ids, skipped := [], [], [];
      for n := 0 to |starts|
        invariant (Contents(), outcomes) == CreateMany(old(Contents()), req, starts[..n])
        invariant |outcomes| == n && ids == CreatedIds(outcomes) && skipped == Skipped(starts[..n], outcomes)
      {
        assert starts[..n + 1][..n] == starts[..n];
        var r := List(req, starts[n]);
        match r {
          case Ok(id) => ids := ids + [id];
          case Failed(e) => skipped := skipped + [(starts[n], e)];
        }
        ghost var before := outcomes;
        outcomes := outcomes + [r];
        assert outcomes[..n] == before;
      }
      assert starts[..|starts|] == starts;
    }

    method Recur(req: Request, startDay: int, endDay: int, days: set<int>, time: int, recurrence: nat)
      returns (requested: nat, created: nat, skipped: seq<(int, Error)>, ghost occurrences: seq<int>)
      modifies this
      ensures forall d :: d in occurrences <==> Occurs(startDay, endDay, days, d)
      ensures forall i, j :: 0 <= i < j < |occurrences| ==> occurrences[i] < occurrences[j]
      ensures var starts := Starts(occurrences, time);
        var (st', outcomes) := CreateMany(old(Contents()), req, starts);
        && |outcomes| == |starts|
        && sessions == Tag(st'.sessions, CreatedIds(outcomes), recurrence)
        && requested == |occurrences|
        && created == |CreatedIds(outcomes)|
        && skipped == Skipped(starts, outcomes)
    {
      var found := Occurrences(startDay, endDay, days);
      occurrences := found;
      var ids;
      ghost var outcomes;
      ids, skipped, outcomes := ListEach(req, Starts(found, time));
      sessions := Tag(sessions, ids, recurrence);
      requested, created := |found|, |ids|;
    }
  }

  // ---- Safety over whole runs ----

  ghost predicate Safe(st: State) {
    forall i, j :: 0 <= i < j < |st.sessions| ==> Compatible(st.sessions[i], st.sessions[j], st.onePerBranch)
  }

  /** A session is placed if and only if it is compatible with every other session. */
  lemma CollisionIff(st: State, s: Session, self: int)
    ensures Collision(st, s, self).None?
       <==> forall i :: 0 <= i < |st.sessions| && i != self ==> Compatible(st.sessions[i], s, st.onePerBranch)
  {
  }

  lemma CreateKeepsSafe(st: State, req: Request, start: int)
    requires Safe(st)
    ensures Safe(Create(st, req, start).0)
    ensures Create(st, req, start).0.onePerBranch == st.onePerBranch
  {
  }

  lemma UpdateKeepsSafe(st: State, id: nat, edit: Edit)
    requires Safe(st)
    ensures Safe(Update(st, id, edit).0)
  {
  }

  lemma {:induction false} CreateManyKeepsSafe(st: State, req: Request, starts: seq<int>)
    requires Safe(st)
    ensures Safe(CreateMany(st, req, starts).0)
    ensures |CreateMany(st, req, starts).1| == |starts|
    ensures CreateMany(st, req, starts).0.onePerBranch == st.onePerBranch
  {
    if starts != [] {
      var init := starts[..|starts| - 1];
      CreateManyKeepsSafe(st, req, init);
      CreateKeepsSafe(CreateMany(st, req, init).0, req, starts[|starts| - 1]);
    }
  }

  lemma TagKeepsSafe(st: State, ids: seq<nat>, recurrence: nat)
    requires Safe(st)
    ensures Safe(st.(sessions := Tag(st.sessions, ids, recurrence)))
  {
  }

  datatype Event =
    | DoCreate(req: Request, start: int)
    | DoUpdate(id: nat, edit: Edit)
    | DoRecur(req: Request, starts: seq<int>, recurrence: nat)
    | Close(id: nat, status: Status, booked: int)

  /** Close stands for the steps of the seat model that this one sees only from outside: a session is cancelled or
      completed, or its occupancy changes. No step opens a session again. */
  function Step(st: State, ev: Event): State {
    match ev
    case DoCreate(req, start) => Create(st, req, start).0
    case DoUpdate(id, edit) => Update(st, id, edit).0
    case DoRecur(req, starts, recurrence) =>
      var (st', outcomes) := CreateMany(st, req, starts);
      st'.(sessions := Tag(st'.sessions, CreatedIds(outcomes), recurrence))
    case Close(id, status, booked) =>
      if id < |st.sessions| && (status.Open? ==> st.sessions[id].status.Open?)
      then st.(sessions := st.sessions[id := st.sessions[id].(status := status, booked := booked)])
      else st
  }

  function Run(onePerBranch: bool, events: seq<Event>): State {
    if events == [] then State([], onePerBranch)
    else Step(Run(onePerBranch, events[..|events| - 1]), events[|events| - 1])
  }

  /** In every reachable state the open sessions of one trainer without a machine have disjoint buffered windows, so do
      those of one machine, and with the branch switch on so do those of one branch without a machine. */
  lemma {:induction false} TimetableStaysSafe(onePerBranch: bool, events: seq<Event>)
    ensures Safe(Run(onePerBranch, events)) && Run(onePerBranch, events).onePerBranch == onePerBranch
  {
    if events != [] {
      var st := Run(onePerBranch, events[..|events| - 1]);
      TimetableStaysSafe(onePerBranch, events[..|events| - 1]);
      match events[|events| - 1]
      case DoCreate(req, start) => CreateKeepsSafe(st, req, start);
      case DoUpdate(id, edit) => UpdateKeepsSafe(st, id, edit);
      case DoRecur(req, starts, recurrence) =>
        CreateManyKeepsSafe(st, req, starts);
        TagKeepsSafe(CreateMany(st, req, starts).0, CreatedIds(CreateMany(st, req, starts).1), recurrence);
      case Close(id, status, booked) =>
        if id < |st.sessions| && (status.Open? ==> st.sessions[id].status.Open?) {
          CloseKeepsSafe(st, id, status, booked);
        }
    }
  }

  lemma CloseKeepsSafe(st: State, id: nat, status: Status, booked: int)
    requires Safe(st) && id < |st.sessions| && (status.Open? ==> st.sessions[id].status.Open?)
    ensures Safe(st.(sessions := st.sessions[id := st.sessions[id].(status := status, booked := booked)]))
  {
  }

  // ---- What a recurrence reports ----

  /** The created ids are consecutive new sessions, and created and skipped add up to the requested starts. */
  lemma {:induction false} RecurrenceCounts(st: State, req: Request, starts: seq<int>)
    ensures var (st', outcomes) := CreateMany(st, req, starts);
      && |outcomes| == |starts|
      && |CreatedIds(outcomes)| + |Skipped(starts, outcomes)| == |starts|
      && st.sessions <= st'.sessions
      && |st'.sessions| == |st.sessions| + |CreatedIds(outcomes)|
      && forall k :: 0 <= k < |CreatedIds(outcomes)| ==> CreatedIds(outcomes)[k] == |st.sessions| + k
  {
    if starts != [] {
      var n := |starts| - 1;
      RecurrenceCounts(st, req, starts[..n]);
      var (mid, before) := CreateMany(st, req, starts[..n]);
      assert CreateMany(st, req, starts).1[..n] == before;
      CreateGrows(mid, req, starts[n]);
    }
  }

  /** Start number k is reported truthfully: an Ok outcome names a listed session that starts then, a failed one puts
      the start and the error into the skipped list. */
  ghost predicate Reported(sessions: seq<Session>, starts: seq<int>, outcomes: seq<Result>, k: nat)
    requires k < |starts| == |outcomes|
  {
    match outcomes[k]
    case Ok(id) => id < |sessions| && sessions[id].start == starts[k] && id in CreatedIds(outcomes)
    case Failed(e) => (starts[k], e) in Skipped(starts, outcomes)
  }

  lemma ReportsSnoc(st: State, req: Request, starts: seq<int>)
    requires starts != []
    ensures var n := |starts| - 1;
      var (mid, before) := CreateMany(st, req, starts[..n]);
      var (st', outcomes) := CreateMany(st, req, starts);
      && |before| == n && |outcomes| == n + 1 && outcomes[..n] == before && mid.sessions <= st'.sessions
      && CreatedIds(outcomes) == CreatedIds(before) + (if outcomes[n].Ok? then [outcomes[n].id] else [])
      && Skipped(starts, outcomes)
         == Skipped(starts[..n], before) + (if outcomes[n].Failed? then [(starts[n], outcomes[n].error)] else [])
      && (outcomes[n].Ok? ==> outcomes[n].id < |st'.sessions| && st'.sessions[outcomes[n].id].start == starts[n])
  {
    var n := |starts| - 1;
    var (mid, before) := CreateMany(st, req, starts[..n]);
    RecurrenceCounts(st, req, starts[..n]);
    assert CreateMany(st, req, starts).1[..n] == before;
    CreateGrows(mid, req, starts[n]);
  }

  /** Later outcomes do not unsay a report. */
  lemma ReportedStays(sessions: seq<Session>, sessions': seq<Session>, starts: seq<int>, outcomes: seq<Result>, k: nat)
    requires k + 1 < |starts| == |outcomes| && sessions <= sessions'
    requires Reported(sessions, starts[..|starts| - 1], outcomes[..|starts| - 1], k)
    ensures Reported(sessions', starts, outcomes, k)
  {
    assert outcomes[k] == outcomes[..|starts| - 1][k] && starts[k] == starts[..|starts| - 1][k];
  }

  lemma ReportedLast(sessions: seq<Session>, starts: seq<int>, outcomes: seq<Result>)
    requires |starts| == |outcomes| > 0
    requires var o := outcomes[|outcomes| - 1];
      o.Ok? ==> o.id < |sessions| && sessions[o.id].start == starts[|starts| - 1]
    ensures Reported(sessions, starts, outcomes, |starts| - 1)
  {
  }

  lemma {:induction false} RecurrenceReports(st: State, req: Request, starts: seq<int>, k: nat)
    requires k < |starts| == |CreateMany(st, req, starts).1|
    ensures Reported(CreateMany(st, req, starts).0.sessions, starts, CreateMany(st, req, starts).1, k)
  {
    var n := |starts| - 1;
    ReportsSnoc(st, req, starts);
    var (mid, before) := CreateMany(st, req, starts[..n]);
    var (st', outcomes) := CreateMany(st, req, starts);
    if k < n {
      RecurrenceReports(st, req, starts[..n], k);
      ReportedStays(mid.sessions, st'.sessions, starts, outcomes, k);
    } else {
      ReportedLast(st'.sessions, starts, outcomes);
    }
  }

  lemma CreateGrows(st: State, req: Request, start: int)
    ensures var (st', r) := Create(st, req, start);
      if r.Ok? then r.id == |st.sessions| && |st'.sessions| == r.id + 1 && st.sessions <= st'.sessions
                    && st'.sessions[r.id].start == start
      else st' == st
  {
  }

  // ---- Results in terms of the sessions ----

  /** Two open sessions whose buffered windows share an instant. */
  predicate AtOnce(a: Session, b: Session) {
    a.status == Open && b.status == Open && a.bufferStart < b.bufferEnd && b.bufferStart < a.bufferEnd
  }

  /** Both are without a machine and of one trainer, or on one machine, or, with the switch on, without a machine in one
      branch. */
  predicate CannotBothBe(a: Session, b: Session, onePerBranch: bool) {
    AtOnce(a, b)
    && if a.machine == None && b.machine == None
       then (a.trainer != None && a.trainer == b.trainer) || (onePerBranch && a.branch == b.branch)
       else a.machine == b.machine
  }

  lemma CompatibleIff(a: Session, b: Session, onePerBranch: bool)
    ensures Compatible(a, b, onePerBranch) <==> !CannotBothBe(a, b, onePerBranch)
  {
  }

  /** No session but number self stands against s. */
  predicate HasPlace(st: State, s: Session, self: int) {
    forall i :: 0 <= i < |st.sessions| && i != self ==> !CannotBothBe(st.sessions[i], s, st.onePerBranch)
  }

  lemma HasPlaceIff(st: State, s: Session, self: int)
    ensures Collision(st, s, self) == None <==> HasPlace(st, s, self)
  {
    CollisionIff(st, s, self);
    forall i | 0 <= i < |st.sessions| && i != self
      ensures Compatible(st.sessions[i], s, st.onePerBranch) <==> !CannotBothBe(st.sessions[i], s, st.onePerBranch)
    {
      CompatibleIff(st.sessions[i], s, st.onePerBranch);
    }
  }

  /** An open session of the service from start on: it ends after the duration, and the buffers lie around it. */
  function OpenSession(trainer: Option<nat>, machine: Option<nat>, branch: nat, service: Service, start: int,
                       capacity: int, booked: int, recurrence: Option<nat>): Session {
    Session(trainer, machine, branch, service, start, start + service.duration * 60_000,
            start - service.bufferBefore * 60_000, start + (service.duration + service.bufferAfter) * 60_000,
            capacity, booked, Open, recurrence)
  }

  /** A session is listed if and only if its service, machine and branch are there, the capacity suffices, and it has a
      place; it is then the session asked for, empty, with the service's capacity by default. */
  lemma ListEffect(st: State, req: Request, start: int)
    ensures var (st', r) := Create(st, req, start);
      var found := req.service != None && req.branch != None && (req.machine != None ==> req.machineLive);
      && (r.Ok? ==> found)
      && (found ==>
            var capacity := if req.capacity == None then req.service.value.capacity else req.capacity.value;
            var s :=
              OpenSession(req.trainer, req.machine, req.branch.value, req.service.value, start, capacity, 0, None);
            && (r.Ok? <==> (capacity >= 2 || req.machine != None) && HasPlace(st, s, -1))
            && (r.Ok? ==> r.id == |st.sessions| && st' == State(st.sessions + [s], st.onePerBranch)))
      && (r.Failed? ==> st' == st)
  {
    if req.service.Some? && req.branch.Some? {
      var capacity := if req.capacity == None then req.service.value.capacity else req.capacity.value;
      var s := OpenSession(req.trainer, req.machine, req.branch.value, req.service.value, start, capacity, 0, None);
      assert s == NewSession(req.service.value, req, req.branch.value, capacity, start);
      HasPlaceIff(st, s, -1);
    }
  }

  /** An edit of an open session goes through if and only if the capacity holds the occupancy and suffices, a new start
      is not past, the service and a machine's branch are there, and the edited session has a place among the others.
      What is not sent stays. */
  lemma ChangeEffect(st: State, id: nat, edit: Edit)
    requires id < |st.sessions|
    ensures var (st', r) := Update(st, id, edit);
      var old_ := st.sessions[id];
      var machine := if edit.machine == Keep then old_.machine else edit.machine.value;
      var found := old_.status == Open && edit.service != None && (machine != None ==> edit.machineBranch != None);
      && (r.Ok? ==> found)
      && (found ==>
            var capacity := if edit.capacity == None then old_.capacity else edit.capacity.value;
            var s := OpenSession(
              if edit.trainer == Keep then old_.trainer else edit.trainer.value, machine,
              if machine == None then old_.branch else edit.machineBranch.value, edit.service.value,
              if edit.start == None then old_.start else edit.start.value, capacity, old_.booked, old_.recurrence
              ).(service := old_.service);
            && (r.Ok? <==>
                  && old_.booked <= capacity && (capacity >= 2 || machine != None)
                  && (edit.start != None ==> edit.now <= edit.start.value) && HasPlace(st, s, id))
            && (r.Ok? ==> st' == State(st.sessions[id := s], st.onePerBranch)))
      && (r.Failed? ==> st' == st)
  {
    var old_ := st.sessions[id];
    if old_.status.Open? && edit.service.Some? {
      HasPlaceIff(st, Edited(old_, edit, edit.service.value), id);
      EditedIs(old_, edit);
    }
  }

  lemma EditedIs(s: Session, edit: Edit)
    requires s.status == Open && edit.service.Some?
    ensures var machine := if edit.machine == Keep then s.machine else edit.machine.value;
      machine != None ==> edit.machineBranch != None ==>
      Edited(s, edit, edit.service.value)
      == OpenSession(
           if edit.trainer == Keep then s.trainer else edit.trainer.value, machine, edit.machineBranch.value,
           edit.service.value, if edit.start == None then s.start else edit.start.value,
           if edit.capacity == None then s.capacity else edit.capacity.value, s.booked, s.recurrence
         ).(service := s.service)
    ensures var machine := if edit.machine == Keep then s.machine else edit.machine.value;
      machine == None ==>
      Edited(s, edit, edit.service.value)
      == OpenSession(
           if edit.trainer == Keep then s.trainer else edit.trainer.value, None, s.branch,
           edit.service.value, if edit.start == None then s.start else edit.start.value,
           if edit.capacity == None then s.capacity else edit.capacity.value, s.booked, s.recurrence
         ).(service := s.service)
  {
  }

  /** The days of the week: 1 January 1970 was a Thursday, and the next day is the next one, Monday after Sunday. */
  lemma WeekdayEffect(day: int)
    ensures IsoDay(0) == 4
    ensures 1 <= IsoDay(day) <= 7
    ensures IsoDay(day + 1) == if IsoDay(day) == 7 then 1 else IsoDay(day) + 1
  {
  }

  /** Each start is at the time of day of its day, and each created session gets the series, and only those. */
  lemma SeriesEffect(days: seq<int>, time: int, sessions: seq<Session>, ids: seq<nat>, recurrence: nat)
    ensures |Starts(days, time)| == |days|
    ensures forall k :: 0 <= k < |days| ==> Starts(days, time)[k] == days[k] * 24 * 60 * 60 * 1000 + time
    ensures |Tag(sessions, ids, recurrence)| == |sessions|
    ensures forall i :: 0 <= i < |sessions| ==>
      Tag(sessions, ids, recurrence)[i] ==
        if i in ids then sessions[i].(recurrence := Some(recurrence)) else sessions[i]
  {
  }
}
