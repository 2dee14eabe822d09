/** The slot calculator: working windows minus everything occupied, cut into aligned slots. */
module Availability {
  import opened Common
  import opened DivMod
  import opened Intervals

  /** One working-hours row, already converted to UTC instants. */
  datatype WorkingHours = WorkingHours(start: int, end: int, pause: Option<Interval>)

  datatype Request = Request(
    isHoliday: bool,
    slotInterval: Option<int>,
    bufferBefore: int,
    duration: int,
    bufferAfter: int,
    workingHours: seq<WorkingHours>,
    bookings: seq<Interval>,
    holds: seq<Interval>,
    blocks: seq<Interval>)
  {
    function Step(): int { match slotInterval case Some(n) => n case None => 15 }

    function TotalMs(): int { (bufferBefore + duration + bufferAfter) * MINUTE_MS }

    /** The slot offered when the occupied window starts at cursor. */
    function SlotAt(cursor: int): Interval {
      Interval(cursor + bufferBefore * MINUTE_MS, cursor + bufferBefore * MINUTE_MS + duration * MINUTE_MS)
    }

    function Occupied(): seq<Interval> { Pauses(workingHours) + bookings + holds + blocks }
  }

  function Windows(hours: seq<WorkingHours>): seq<Interval> {
    if hours == [] then []
    else
      var h := hours[|hours| - 1];
      Windows(hours[..|hours| - 1]) + if h.end <= h.start then [] else [Interval(h.start, h.end)]
  }

  function Pauses(hours: seq<WorkingHours>): seq<Interval> {
    if hours == [] then []
    else
      var h := hours[|hours| - 1];
      Pauses(hours[..|hours| - 1])
      + if h.pause.Some? && h.pause.value.end > h.pause.value.start then [h.pause.value] else []
  }

  /** Minutes past the hour of an instant, as getUTCMinutes gives them. */
  function MinuteOfHour(t: int): int { (t / MINUTE_MS) % 60 }

  function FirstCursor(start: int, step: int): int
    requires step > 0
  {
    var remainder := MinuteOfHour(start) % step;
    start + if remainder == 0 then 0 else (step - remainder) * MINUTE_MS
  }

  function SlotsFrom(req: Request, cursor: int, end: int): seq<Interval>
    requires req.Step() > 0
    decreases end - req.TotalMs() - cursor
  {
    if cursor + req.TotalMs() <= end
    then [req.SlotAt(cursor)] + SlotsFrom(req, cursor + req.Step() * MINUTE_MS, end)
    else []
  }

  function SlotsIn(req: Request, free: Interval): seq<Interval>
    requires req.Step() > 0
  {
    if free.end - free.start < req.TotalMs() then []
    else SlotsFrom(req, FirstCursor(free.start, req.Step()), free.end)
  }

  function SlotsInAll(req: Request, free: seq<Interval>): seq<Interval>
    requires req.Step() > 0
  {
    if free == [] then [] else SlotsInAll(req, free[..|free| - 1]) + SlotsIn(req, free[|free| - 1])
  }

  function Slots(req: Request): seq<Interval>
    requires req.Step() > 0
  {
    if req.isHoliday then [] else SlotsInAll(req, Subtract(Windows(req.workingHours), req.Occupied()))
  }

  method WorkingIntervals(hours: seq<WorkingHours>) returns (working: seq<Interval>)
    ensures working == Windows(hours)
  {
    working := [];
    for n := 0 to |hours|
      invariant working == Windows(hours[..n])
    {
      assert hours[..n + 1][..n] == hours[..n];
      if hours[n].end <= hours[n].start { continue; }
      working := working + [Interval(hours[n].start, hours[n].end)];
    }
    assert hours[..|hours|] == hours;
  }

  method BreakIntervals(hours: seq<WorkingHours>) returns (breaks: seq<Interval>)
    ensures breaks == Pauses(hours)
  {
    breaks := [];
    for n := 0 to |hours|
      invariant breaks == Pauses(hours[..n])
    {
      assert hours[..n + 1][..n] == hours[..n];
      if hours[n].pause.Some? && hours[n].pause.value.end > hours[n].pause.value.start {
        breaks := breaks + [hours[n].pause.value];
      }
    }
    assert hours[..|hours|] == hours;
  }

  /** The cursor loop over one free interval. */
  method GenerateSlots(req: Request, interval: Interval) returns (slots: seq<Interval>)
    requires req.Step() > 0
    ensures slots == SlotsIn(req, interval)
  {
    slots := [];
    if interval.end - interval.start < req.TotalMs() { return; }
    var remainder := MinuteOfHour(interval.start) % req.Step();
    var cursor := interval.start + if remainder == 0 then 0 else (req.Step() - remainder) * MINUTE_MS;
    ghost var first := cursor;
    while cursor + req.TotalMs() <= interval.end
      invariant slots + SlotsFrom(req, cursor, interval.end) == SlotsFrom(req, first, interval.end)
      decreases interval.end - req.TotalMs() - cursor
    {
      var serviceStart := cursor + req.bufferBefore * MINUTE_MS;
      var slot := Interval(serviceStart, serviceStart + req.duration * MINUTE_MS);
      ghost var rest := SlotsFrom(req, cursor + req.Step() * MINUTE_MS, interval.end);
      assert SlotsFrom(req, cursor, interval.end) == [slot] + rest;
      Associative(slots, [slot], rest);
      slots := slots + [slot];
      cursor := cursor + req.Step() * MINUTE_MS;
      assert SlotsFrom(req, cursor, interval.end) == rest;
    }
    assert SlotsFrom(req, cursor, interval.end) == [];
    assert slots + [] == slots;
  }

  /** The loop over the free intervals. */
  method GenerateAllSlots(req: Request, free: seq<Interval>) returns (slots: seq<Interval>)
    requires req.Step() > 0
    ensures slots == SlotsInAll(req, free)
  {
    slots := [];
    for n := 0 to |free|
      invariant slots == SlotsInAll(req, free[..n])
    {
      assert free[..n + 1][..n] == free[..n];
      var more := GenerateSlots(req, free[n]);
      slots := slots + more;
    }
    assert free[..|free|] == free;
  }

  method CalculateAvailableSlots(req: Request) returns (slots: seq<Interval>)
    requires GridStep(req) > 0
    ensures slots == Slots(req)
    ensures 60 % GridStep(req) == 0 && Length(req) > 0 && OnMinutes(req) ==>
      forall slot :: slot in slots <==> Offered(req, slot)
  {
    AnswerOffered(req);
    slots := [];
    if req.isHoliday { return; }
    var working := WorkingIntervals(req.workingHours);
    if |working| == 0 {
      SubtractFromNothing(req.Occupied());
      return;
    }
    var breaks := BreakIntervals(req.workingHours);
    var free := SubtractIntervals(working, breaks + req.bookings + req.holds + req.blocks);
    slots := GenerateAllSlots(req, free);
  }

  // ---- The simple specification ----

  /** A whole minute whose minute of the hour is a multiple of the slot interval. */
  predicate Aligned(t: int, step: int)
    requires step > 0
  {
    t % MINUTE_MS == 0 && MinuteOfHour(t) % step == 0
  }

  /** The window starting at w, buffers included, may be offered. */
  ghost predicate Offerable(req: Request, w: int)
    requires req.Step() > 0
  {
    && !req.isHoliday
    && Aligned(w, req.Step())
    && Fits(Windows(req.workingHours), w, w + req.TotalMs())
    && Free(w, w + req.TotalMs(), req.Occupied())
  }

  /** The emitted slots are exactly the offerable windows. */
  ghost predicate Exact(req: Request)
    requires req.Step() > 0
  {
    forall w :: req.SlotAt(w) in Slots(req) <==> Offerable(req, w)
  }

  /** Working windows start, and occupied ranges end, on whole minutes. */
  ghost predicate WholeMinutes(req: Request) {
    && (forall t :: StartsAt(Windows(req.workingHours), t) ==> t % MINUTE_MS == 0)
    && (forall t :: EndsAt(req.Occupied(), t) ==> t % MINUTE_MS == 0)
  }

  // ---- Grid arithmetic ----

  lemma StepsInMs(k: int, step: int)
    ensures k * (step * MINUTE_MS) == (step * k) * MINUTE_MS
  {
  }

  lemma CursorsAreAligned(start: int, step: int, k: nat)
    requires step > 0 && 60 % step == 0 && start % MINUTE_MS == 0
    ensures var w := FirstCursor(start, step) + k * (step * MINUTE_MS); start <= w && Aligned(w, step)
  {
    var c := FirstCursorMinute(start, step);
    StepsInMs(k, step);
    var n := c + step * k;
    if k > 0 { MulAtLeast(step, k); }
    assert n * MINUTE_MS == FirstCursor(start, step) + k * (step * MINUTE_MS);
    ModShift(c, step, k);
    ModOfMod(n, 60, step);
  }

  lemma AlignedIsCursor(start: int, step: int, w: int) returns (k: nat)
    requires step > 0 && 60 % step == 0 && start % MINUTE_MS == 0
    requires start <= w && Aligned(w, step)
    ensures w == FirstCursor(start, step) + k * (step * MINUTE_MS)
  {
    var c := FirstCursorMinute(start, step);
    var n := w / MINUTE_MS;
    ModOfMod(n, 60, step);
    k := StepsBetween(c, n, step);
    StepsInMs(k, step);
  }

  /** From a whole-minute start, the cursor positions are exactly the aligned instants from start on. */
  lemma CursorIsAligned(start: int, step: int, w: int)
    requires step > 0 && 60 % step == 0 && start % MINUTE_MS == 0
    ensures Reaches(FirstCursor(start, step), step * MINUTE_MS, w)
       <==> start <= w && Aligned(w, step)
  {
    if k: nat :| w == FirstCursor(start, step) + k * (step * MINUTE_MS) {
      CursorsAreAligned(start, step, k);
    }
    if start <= w && Aligned(w, step) {
      var k := AlignedIsCursor(start, step, w);
      assert Reaches(FirstCursor(start, step), step * MINUTE_MS, w);
    }
  }

  /** The first cursor, in minutes: the least multiple of step not before start. */
  lemma FirstCursorMinute(start: int, step: int) returns (c: int)
    requires step > 0 && 60 % step == 0 && start % MINUTE_MS == 0
    ensures FirstCursor(start, step) == c * MINUTE_MS && c % step == 0
    ensures start / MINUTE_MS <= c < start / MINUTE_MS + step
  {
    var m := start / MINUTE_MS;
    var r := m % step;
    ModOfMod(m, 60, step);
    c := m + if r == 0 then 0 else step - r;
    var q := m / step + if r == 0 then 0 else 1;
    assert c == step * q + 0;
    DivModUnique(c, step, q, 0);
  }

  lemma StepsBetween(c: int, n: int, step: int) returns (k: nat)
    requires step > 0 && c % step == 0 && n % step == 0 && c - step < n
    ensures n == c + step * k
  {
    var d := n / step - c / step;
    assert n - c == step * d;
    if d < 0 { MulAtLeast(step, -d); }
    k := d;
  }

  // ---- The emitted slots ----

  ghost predicate Reaches(cursor: int, s: int, w: int) {
    exists k: nat :: w == cursor + k * s
  }

  lemma ReachesStep(cursor: int, s: int, w: int)
    ensures Reaches(cursor, s, w) <==> w == cursor || Reaches(cursor + s, s, w)
  {
    if k: nat :| w == cursor + k * s {
      if k > 0 {
        var k': nat := k - 1;
        assert w == (cursor + s) + k' * s;
      }
    }
    if w == cursor {
      var z: nat := 0;
      assert w == cursor + z * s;
    }
    if k: nat :| w == cursor + s + k * s {
      var k': nat := k + 1;
      assert w == cursor + k' * s;
    }
  }

  lemma ReachesAtLeast(cursor: int, s: int, w: int)
    requires s > 0 && Reaches(cursor, s, w)
    ensures cursor <= w
  {
    var k: nat :| w == cursor + k * s;
    if k > 0 { MulAtLeast(s, k); }
  }

  lemma {:induction false} SlotsFromMembers(req: Request, cursor: int, end: int, w: int)
    requires req.Step() > 0
    ensures req.SlotAt(w) in SlotsFrom(req, cursor, end)
       <==> w + req.TotalMs() <= end && Reaches(cursor, req.Step() * MINUTE_MS, w)
    decreases end - req.TotalMs() - cursor
  {
    var s := req.Step() * MINUTE_MS;
    if cursor + req.TotalMs() <= end {
      SlotsFromMembers(req, cursor + s, end, w);
      ReachesStep(cursor, s, w);
    } else if Reaches(cursor, s, w) {
      ReachesAtLeast(cursor, s, w);
    }
  }

  lemma SlotsInMembers(req: Request, free: Interval, w: int)
    requires req.Step() > 0 && 60 % req.Step() == 0 && free.start % MINUTE_MS == 0
    ensures req.SlotAt(w) in SlotsIn(req, free)
       <==> free.start <= w && w + req.TotalMs() <= free.end && Aligned(w, req.Step())
  {
    SlotsFromMembers(req, FirstCursor(free.start, req.Step()), free.end, w);
    CursorIsAligned(free.start, req.Step(), w);
  }

  lemma {:induction false} SlotsInAllMembers(req: Request, free: seq<Interval>, w: int)
    requires req.Step() > 0 && 60 % req.Step() == 0
    requires forall t :: StartsAt(free, t) ==> t % MINUTE_MS == 0
    ensures req.SlotAt(w) in SlotsInAll(req, free)
       <==> Fits(free, w, w + req.TotalMs()) && Aligned(w, req.Step())
  {
    if free != [] {
      var init, last := free[..|free| - 1], free[|free| - 1];
      assert free == init + [last];
      forall t | StartsAt(init, t) ensures t % MINUTE_MS == 0 {
        var i :| 0 <= i < |init| && init[i].start == t;
        assert free[i].start == t;
        assert StartsAt(free, t);
      }
      assert free[|free| - 1].start == last.start;
      assert StartsAt(free, last.start);
      SlotsInAllMembers(req, init, w);
      SlotsInMembers(req, last, w);
      FitsConcat(init, [last], w, w + req.TotalMs());
      assert [last][0] == last;
    }
  }

  /** Slot exactness: on whole-minute inputs, a positive length and an interval dividing 60, the loop emits exactly
      the aligned windows that fit in one working window and clash with no pause, booking, hold or block. */
  lemma SlotExactness(req: Request)
    requires req.Step() > 0 && 60 % req.Step() == 0 && req.TotalMs() > 0 && WholeMinutes(req)
    ensures Exact(req)
  {
    var base, subs := Windows(req.workingHours), req.Occupied();
    var free := Subtract(base, subs);
    forall t | StartsAt(free, t) ensures t % MINUTE_MS == 0 {
      SubtractStarts(base, subs, t);
    }
    forall w ensures req.SlotAt(w) in Slots(req) <==> Offerable(req, w) {
      SlotsInAllMembers(req, free, w);
      SubtractFits(base, subs, w, w + req.TotalMs());
    }
  }

  /** Every emitted slot has the shape SlotAt(w), so exactness speaks of all of them. */
  lemma {:induction false} SlotsFromShape(req: Request, cursor: int, end: int, s: Interval)
    requires req.Step() > 0 && s in SlotsFrom(req, cursor, end)
    ensures exists w :: s == req.SlotAt(w)
    decreases end - req.TotalMs() - cursor
  {
    if s != req.SlotAt(cursor) { SlotsFromShape(req, cursor + req.Step() * MINUTE_MS, end, s); }
  }

  lemma {:induction false} SlotsInAllShape(req: Request, free: seq<Interval>, s: Interval)
    requires req.Step() > 0 && s in SlotsInAll(req, free)
    ensures exists w :: s == req.SlotAt(w)
  {
    if s in SlotsInAll(req, free[..|free| - 1]) {
      SlotsInAllShape(req, free[..|free| - 1], s);
    } else {
      var last := free[|free| - 1];
      SlotsFromShape(req, FirstCursor(last.start, req.Step()), last.end, s);
    }
  }

  /** more is the request less with further occupied ranges: pauses, bookings, holds or blocks, in any order. */
  ghost predicate OnlyMoreOccupied(less: Request, more: Request) {
    && more.isHoliday == less.isHoliday && more.Step() == less.Step()
    && more.bufferBefore == less.bufferBefore && more.duration == less.duration && more.bufferAfter == less.bufferAfter
    && Windows(more.workingHours) == Windows(less.workingHours)
    && forall r :: r in less.Occupied() ==> r in more.Occupied()
  }

  /** Occupying more never creates a slot. */
  lemma OccupyingNeverCreatesSlots(less: Request, more: Request, s: Interval)
    requires less.Step() > 0 && 60 % less.Step() == 0 && less.TotalMs() > 0
    requires OnlyMoreOccupied(less, more) && WholeMinutes(less) && WholeMinutes(more)
    requires s in Slots(more)
    ensures s in Slots(less)
  {
    var w := EmittedShape(more, s);
    KeptWhenLessOccupied(less, more, w);
  }

  lemma EmittedShape(req: Request, s: Interval) returns (w: int)
    requires req.Step() > 0 && s in Slots(req)
    ensures s == req.SlotAt(w)
  {
    SlotsInAllShape(req, Subtract(Windows(req.workingHours), req.Occupied()), s);
    w :| s == req.SlotAt(w);
  }

  lemma KeptWhenLessOccupied(less: Request, more: Request, w: int)
    requires less.Step() > 0 && 60 % less.Step() == 0 && less.TotalMs() > 0
    requires OnlyMoreOccupied(less, more) && WholeMinutes(less) && WholeMinutes(more)
    requires more.SlotAt(w) in Slots(more)
    ensures more.SlotAt(w) == less.SlotAt(w) && less.SlotAt(w) in Slots(less)
  {
    EmittedIffOfferable(more, w);
    OfferableMonotone(less, more, w);
    EmittedIffOfferable(less, w);
  }

  lemma EmittedIffOfferable(req: Request, w: int)
    requires req.Step() > 0 && 60 % req.Step() == 0 && req.TotalMs() > 0 && WholeMinutes(req)
    ensures req.SlotAt(w) in Slots(req) <==> Offerable(req, w)
  {
    SlotExactness(req);
  }

  lemma OfferableMonotone(less: Request, more: Request, w: int)
    requires less.Step() > 0 && OnlyMoreOccupied(less, more) && Offerable(more, w)
    ensures Offerable(less, w)
  {
    forall i | 0 <= i < |less.Occupied()|
      ensures !(w < less.Occupied()[i].end && less.Occupied()[i].start < w + less.TotalMs())
    {
      assert less.Occupied()[i] in more.Occupied();
    }
  }

  // ---- The answer in terms of the request alone ----

  /** The interval asked for, a quarter of an hour by default. */
  function GridStep(req: Request): int { if req.slotInterval.Some? then req.slotInterval.value else 15 }

  /** Length of a service with both buffers. */
  function Length(req: Request): int {
    req.bufferBefore * MINUTE_MS + req.duration * MINUTE_MS + req.bufferAfter * MINUTE_MS
  }

  /** Rows that open start, and everything occupied ends, on whole minutes. */
  predicate OnMinutes(req: Request) {
    && (forall h :: h in req.workingHours ==>
          && (h.start < h.end ==> h.start % MINUTE_MS == 0)
          && (h.pause.Some? && h.pause.value.start < h.pause.value.end ==> h.pause.value.end % MINUTE_MS == 0))
    && (forall x :: x in req.bookings ==> x.end % MINUTE_MS == 0)
    && (forall x :: x in req.holds ==> x.end % MINUTE_MS == 0)
    && (forall x :: x in req.blocks ==> x.end % MINUTE_MS == 0)
  }

  /** The window and the range share no instant. */
  predicate NoClash(from: int, until: int, x: Interval) { until <= x.start || x.end <= from }

  /** The window with both buffers lies inside one open row of the working hours, and meets no pause, no booking, no
      hold and no block. */
  predicate OpenAndFree(req: Request, from: int, until: int) {
    && (exists h :: h in req.workingHours && h.start < h.end && h.start <= from && until <= h.end)
    && (forall h :: h in req.workingHours && h.pause.Some? && h.pause.value.start < h.pause.value.end ==>
          NoClash(from, until, h.pause.value))
    && (forall x :: x in req.bookings ==> NoClash(from, until, x))
    && (forall x :: x in req.holds ==> NoClash(from, until, x))
    && (forall x :: x in req.blocks ==> NoClash(from, until, x))
  }

  /** The instant is a whole minute, and its minute of the hour a multiple of the interval. */
  predicate OnGrid(req: Request, w: int)
    requires GridStep(req) > 0
  {
    w % 60_000 == 0 && w / 60_000 % 60 % GridStep(req) == 0
  }

  /** The slot belongs to the answer. */
  ghost predicate Offered(req: Request, slot: Interval)
    requires GridStep(req) > 0
  {
    !req.isHoliday
    && exists w :: OnGrid(req, w) && OpenAndFree(req, w, w + Length(req))
         && slot == Interval(w + req.bufferBefore * 60_000, w + (req.bufferBefore + req.duration) * 60_000)
  }

  lemma {:induction false} WindowsIff(hours: seq<WorkingHours>, x: Interval)
    ensures x in Windows(hours) <==> x.start < x.end && exists h :: h in hours && h.start == x.start && h.end == x.end
  {
    if hours != [] {
      var init, last := hours[..|hours| - 1], hours[|hours| - 1];
      assert hours == init + [last];
      WindowsIff(init, x);
      assert Windows(hours) == if last.end <= last.start then Windows(init)
                               else Windows(init) + [Interval(last.start, last.end)];
      if h :| h in hours && h.start == x.start && h.end == x.end { assert h in init || h == last; }
    }
  }

  lemma {:induction false} PausesIff(hours: seq<WorkingHours>, x: Interval)
    ensures x in Pauses(hours) <==> x.start < x.end && exists h :: h in hours && h.pause == Some(x)
  {
    if hours != [] {
      var init, last := hours[..|hours| - 1], hours[|hours| - 1];
      assert hours == init + [last];
      PausesIff(init, x);
      assert Pauses(hours) == if last.pause.Some? && last.pause.value.start < last.pause.value.end
                              then Pauses(init) + [last.pause.value] else Pauses(init);
      if h :| h in hours && h.pause == Some(x) { assert h in init || h == last; }
    }
  }

  lemma OccupiedIff(req: Request, x: Interval)
    ensures x in req.Occupied() <==>
      || (x.start < x.end && exists h :: h in req.workingHours && h.pause == Some(x))
      || x in req.bookings || x in req.holds || x in req.blocks
  {
    PausesIff(req.workingHours, x);
  }

  lemma OnMinutesIsWhole(req: Request)
    requires OnMinutes(req)
    ensures WholeMinutes(req)
  {
    forall t | StartsAt(Windows(req.workingHours), t) ensures t % MINUTE_MS == 0 {
      var i :| 0 <= i < |Windows(req.workingHours)| && Windows(req.workingHours)[i].start == t;
      WindowsIff(req.workingHours, Windows(req.workingHours)[i]);
    }
    forall t | EndsAt(req.Occupied(), t) ensures t % MINUTE_MS == 0 {
      var i :| 0 <= i < |req.Occupied()| && req.Occupied()[i].end == t;
      OccupiedIff(req, req.Occupied()[i]);
    }
  }

  lemma FitsIff(req: Request, from: int, until: int)
    ensures Fits(Windows(req.workingHours), from, until)
       <==> exists h :: h in req.workingHours && h.start < h.end && h.start <= from && until <= h.end
  {
    var windows := Windows(req.workingHours);
    if Fits(windows, from, until) {
      var i :| 0 <= i < |windows| && windows[i].start <= from && until <= windows[i].end;
      WindowsIff(req.workingHours, windows[i]);
    }
    if h :| h in req.workingHours && h.start < h.end && h.start <= from && until <= h.end {
      WindowsIff(req.workingHours, Interval(h.start, h.end));
      var i :| 0 <= i < |windows| && windows[i] == Interval(h.start, h.end);
      assert windows[i].start <= from && until <= windows[i].end;
    }
  }

  lemma FreeIff(from: int, until: int, occupied: seq<Interval>)
    ensures Free(from, until, occupied) <==> forall x :: x in occupied ==> NoClash(from, until, x)
  {
    if Free(from, until, occupied) {
      forall x | x in occupied ensures NoClash(from, until, x) {
        var i :| 0 <= i < |occupied| && occupied[i] == x;
      }
    }
    if forall x :: x in occupied ==> NoClash(from, until, x) {
      forall i | 0 <= i < |occupied| ensures !(from < occupied[i].end && occupied[i].start < until) {
        assert occupied[i] in occupied;
      }
    }
  }

  lemma OpenAndFreeIff(req: Request, from: int, until: int)
    ensures OpenAndFree(req, from, until)
       <==> Fits(Windows(req.workingHours), from, until) && Free(from, until, req.Occupied())
  {
    FitsIff(req, from, until);
    FreeIff(from, until, req.Occupied());
    forall x ensures x in req.Occupied() <==>
      || (x.start < x.end && exists h :: h in req.workingHours && h.pause == Some(x))
      || x in req.bookings || x in req.holds || x in req.blocks
    {
      OccupiedIff(req, x);
    }
  }

  lemma OfferableIff(req: Request, w: int)
    requires GridStep(req) > 0
    ensures Offerable(req, w) <==> !req.isHoliday && OnGrid(req, w) && OpenAndFree(req, w, w + Length(req))
  {
    OpenAndFreeIff(req, w, w + Length(req));
    assert req.TotalMs() == Length(req);
  }

  lemma EmittedIsOffered(req: Request, slot: Interval)
    requires GridStep(req) > 0 && 60 % GridStep(req) == 0 && Length(req) > 0 && WholeMinutes(req)
    requires slot in Slots(req)
    ensures Offered(req, slot)
  {
    var w := EmittedShape(req, slot);
    EmittedIffOfferable(req, w);
    OfferableIff(req, w);
    assert slot == Interval(w + req.bufferBefore * 60_000, w + (req.bufferBefore + req.duration) * 60_000);
  }

  lemma OfferedIsEmitted(req: Request, slot: Interval)
    requires GridStep(req) > 0 && 60 % GridStep(req) == 0 && Length(req) > 0 && WholeMinutes(req)
    requires Offered(req, slot)
    ensures slot in Slots(req)
  {
    var w :| OnGrid(req, w) && OpenAndFree(req, w, w + Length(req))
      && slot == Interval(w + req.bufferBefore * 60_000, w + (req.bufferBefore + req.duration) * 60_000);
    OfferableIff(req, w);
    EmittedIffOfferable(req, w);
    assert slot == req.SlotAt(w);
  }

  /** The answer, from the request alone: on whole minutes and with an interval dividing 60, a slot is offered if and
      only if the day is no holiday and some grid instant starts a window, buffers included, that lies inside one row of
      the working hours and meets no pause, booking, hold or block; the slot is that window without its buffers. */
  lemma AnswerIff(req: Request, slot: Interval)
    requires GridStep(req) > 0 && 60 % GridStep(req) == 0 && Length(req) > 0 && OnMinutes(req)
    ensures slot in Slots(req) <==> Offered(req, slot)
  {
    OnMinutesIsWhole(req);
    if slot in Slots(req) { EmittedIsOffered(req, slot); }
    if Offered(req, slot) { OfferedIsEmitted(req, slot); }
  }

  lemma AnswerOffered(req: Request)
    requires GridStep(req) > 0
    ensures 60 % GridStep(req) == 0 && Length(req) > 0 && OnMinutes(req) ==>
      forall slot :: slot in Slots(req) <==> Offered(req, slot)
  {
    if 60 % GridStep(req) == 0 && Length(req) > 0 && OnMinutes(req) {
      forall slot ensures slot in Slots(req) <==> Offered(req, slot) {
        AnswerIff(req, slot);
      }
    }
  }

  // ---- Order of the slots ----

  ghost predicate Ascending(slots: seq<Interval>) {
    forall i, j :: 0 <= i < j < |slots| ==> slots[i].start < slots[j].start
  }

  /** The occupied windows of the slots start from `from` on and end by `until`. */
  ghost predicate Between(req: Request, slots: seq<Interval>, from: int, until: int) {
    forall i :: 0 <= i < |slots| ==>
      var w := slots[i].start - req.bufferBefore * MINUTE_MS; from <= w && w + req.TotalMs() <= until
  }

  lemma ConsAscends(req: Request, cursor: int, rest: seq<Interval>, later: int, end: int)
    requires Ascending(rest) && Between(req, rest, later, end) && cursor < later && cursor + req.TotalMs() <= end
    ensures Ascending([req.SlotAt(cursor)] + rest) && Between(req, [req.SlotAt(cursor)] + rest, cursor, end)
  {
    var b := req.bufferBefore * MINUTE_MS;
    assert req.SlotAt(cursor).start == cursor + b;
    assert forall i :: 0 <= i < |rest| ==> later <= rest[i].start - b && rest[i].start - b + req.TotalMs() <= end;
  }

  lemma {:induction false} SlotsFromAscend(req: Request, cursor: int, end: int)
    requires req.Step() > 0
    ensures Ascending(SlotsFrom(req, cursor, end)) && Between(req, SlotsFrom(req, cursor, end), cursor, end)
    decreases end - req.TotalMs() - cursor
  {
    if cursor + req.TotalMs() <= end {
      var later := cursor + req.Step() * MINUTE_MS;
      var rest := SlotsFrom(req, later, end);
      SlotsFromAscend(req, later, end);
      ConsAscends(req, cursor, rest, later, end);
      assert SlotsFrom(req, cursor, end) == [req.SlotAt(cursor)] + rest;
    } else {
      assert SlotsFrom(req, cursor, end) == [];
    }
  }

  lemma {:induction false} SlotsInAllAscend(req: Request, free: seq<Interval>, until: int)
    requires req.Step() > 0 && req.TotalMs() > 0 && Ordered(free)
    requires forall i :: 0 <= i < |free| ==> free[i].end <= until
    ensures Ascending(SlotsInAll(req, free))
    ensures forall i :: 0 <= i < |SlotsInAll(req, free)| ==>
      SlotsInAll(req, free)[i].start - req.bufferBefore * MINUTE_MS < until
  {
    if free != [] {
      var init, last := free[..|free| - 1], free[|free| - 1];
      SlotsInAllAscend(req, init, last.start);
      SlotsFromAscend(req, FirstCursor(last.start, req.Step()), last.end);
    }
  }

  /** Over working windows in order that do not overlap the slots come in strictly ascending order, so each is emitted
      once; touching windows are allowed, and the grid need not be exact. */
  lemma SlotsAscend(req: Request)
    requires req.Step() > 0 && req.TotalMs() > 0
    requires Ordered(Windows(req.workingHours)) && Forward(req.Occupied())
    ensures Ascending(Slots(req))
  {
    SubtractApart(Windows(req.workingHours), req.Occupied());
    AllSlotsAscend(req, Subtract(Windows(req.workingHours), req.Occupied()));
    assert Ascending([]);
  }

  lemma AllSlotsAscend(req: Request, free: seq<Interval>)
    requires req.Step() > 0 && req.TotalMs() > 0 && Ordered(free)
    ensures Ascending(SlotsInAll(req, free))
  {
    if free != [] {
      assert forall i :: 0 <= i < |free| ==> free[i].end <= free[|free| - 1].end;
      SlotsInAllAscend(req, free, free[|free| - 1].end);
    }
  }

  // ---- Exactness beyond whole minutes ----

  /** The first instant from start on where a slot can come to lie, emitted or not: start itself when its minute is on
      the grid, else the next minute on the grid. */
  function FirstChance(start: int, step: int): int
    requires step > 0
  {
    var m, r := start / MINUTE_MS, MinuteOfHour(start) % step;
    if r == 0 then start else (m + step - r) * MINUTE_MS
  }

  /** The piece is too short for a slot. */
  predicate TooShort(req: Request, piece: Interval)
    requires req.Step() > 0
  {
    FirstChance(piece.start, req.Step()) + req.TotalMs() > piece.end
  }

  lemma FirstCursorParts(start: int, step: int)
    requires step > 0
    ensures FirstCursor(start, step) >= FirstChance(start, step) >= start
    ensures FirstCursor(start, step) % MINUTE_MS == start % MINUTE_MS
  {
    var m, d := start / MINUTE_MS, start % MINUTE_MS;
    var r := MinuteOfHour(start) % step;
    var c := m + if r == 0 then 0 else step - r;
    assert FirstCursor(start, step) == c * MINUTE_MS + d;
    DivModUnique(c * MINUTE_MS + d, MINUTE_MS, c, d);
  }

  /** Every aligned instant from start on is at or after the first chance. */
  lemma AlignedFromFirstChance(start: int, step: int, w: int)
    requires step > 0 && 60 % step == 0 && start <= w && Aligned(w, step)
    ensures FirstChance(start, step) <= w
  {
    var m, n := start / MINUTE_MS, w / MINUTE_MS;
    ModOfMod(m, 60, step);
    ModOfMod(n, 60, step);
    if m % step != 0 {
      assert m < n;
      NextMultiple(m, n, step);
    }
  }

  lemma NextMultiple(m: int, n: int, step: int)
    requires step > 0 && m < n && n % step == 0
    ensures m + step - m % step <= n
  {
    var d := n / step - m / step;
    assert n - (m - m % step) == step * d;
    if d < 0 { MulAtLeast(step, -d); }
    MulAtLeast(step, d);
  }

  /** Off the grid the first chance is the next minute on it. */
  lemma FirstChanceAligned(start: int, step: int)
    requires step > 0 && 60 % step == 0 && MinuteOfHour(start) % step != 0
    ensures Aligned(FirstChance(start, step), step)
  {
    var m := start / MINUTE_MS;
    ModOfMod(m, 60, step);
    var n := m + step - m % step;
    DivModUnique(n, step, m / step + 1, 0);
    ModOfMod(n, 60, step);
  }

  lemma SlotsInReaches(req: Request, piece: Interval, w: int)
    requires req.Step() > 0
    ensures req.SlotAt(w) in SlotsIn(req, piece) <==>
      w + req.TotalMs() <= piece.end && Reaches(FirstCursor(piece.start, req.Step()), req.Step() * MINUTE_MS, w)
  {
    var c := FirstCursor(piece.start, req.Step());
    SlotsFromMembers(req, c, piece.end, w);
    FirstCursorParts(piece.start, req.Step());
    if Reaches(c, req.Step() * MINUTE_MS, w) { ReachesAtLeast(c, req.Step() * MINUTE_MS, w); }
  }

  lemma ReachesSameMillisecond(cursor: int, step: int, w: int)
    requires step > 0 && Reaches(cursor, step * MINUTE_MS, w)
    ensures w % MINUTE_MS == cursor % MINUTE_MS
  {
    var k: nat :| w == cursor + k * (step * MINUTE_MS);
    StepsInMs(k, step);
    ModShift(cursor, MINUTE_MS, step * k);
  }

  /** A piece that starts inside a minute emits no aligned slot. */
  lemma PartialPieceIsOff(req: Request, piece: Interval, w: int)
    requires req.Step() > 0 && piece.start % MINUTE_MS != 0 && req.SlotAt(w) in SlotsIn(req, piece)
    ensures !Aligned(w, req.Step()) && !TooShort(req, piece)
  {
    SlotsInReaches(req, piece, w);
    FirstCursorParts(piece.start, req.Step());
    ReachesSameMillisecond(FirstCursor(piece.start, req.Step()), req.Step(), w);
    ReachesAtLeast(FirstCursor(piece.start, req.Step()), req.Step() * MINUTE_MS, w);
  }

  /** The piece starts on a whole minute, or is too short for a slot. */
  predicate Harmless(req: Request, piece: Interval)
    requires req.Step() > 0
  {
    piece.start % MINUTE_MS == 0 || TooShort(req, piece)
  }

  /** A harmless piece emits exactly the aligned windows that fit in it. */
  lemma HarmlessPiece(req: Request, piece: Interval, w: int)
    requires req.Step() > 0 && 60 % req.Step() == 0 && Harmless(req, piece)
    ensures req.SlotAt(w) in SlotsIn(req, piece)
       <==> piece.start <= w && w + req.TotalMs() <= piece.end && Aligned(w, req.Step())
  {
    if piece.start % MINUTE_MS == 0 {
      SlotsInMembers(req, piece, w);
    } else {
      if req.SlotAt(w) in SlotsIn(req, piece) {
        PartialPieceIsOff(req, piece, w);
        assert false;
      }
      if piece.start <= w && Aligned(w, req.Step()) { AlignedFromFirstChance(piece.start, req.Step(), w); }
    }
  }

  /** Some piece emits the slot. */
  ghost predicate EmittedBy(req: Request, free: seq<Interval>, s: Interval)
    requires req.Step() > 0
  {
    exists i :: 0 <= i < |free| && s in SlotsIn(req, free[i])
  }

  lemma EmittedSnoc(req: Request, init: seq<Interval>, last: Interval, s: Interval)
    requires req.Step() > 0
    ensures EmittedBy(req, init + [last], s) <==> EmittedBy(req, init, s) || s in SlotsIn(req, last)
  {
    var free := init + [last];
    if EmittedBy(req, init, s) {
      var i :| 0 <= i < |init| && s in SlotsIn(req, init[i]);
      assert free[i] == init[i];
    }
    if s in SlotsIn(req, last) { assert free[|init|] == last; }
    if EmittedBy(req, free, s) {
      var i :| 0 <= i < |free| && s in SlotsIn(req, free[i]);
      if i < |init| { assert init[i] == free[i]; }
    }
  }

  lemma SlotsInAllSnoc(req: Request, init: seq<Interval>, last: Interval)
    requires req.Step() > 0
    ensures SlotsInAll(req, init + [last]) == SlotsInAll(req, init) + SlotsIn(req, last)
  {
    assert (init + [last])[..|init|] == init;
  }

  lemma {:induction false} SlotsInAllIff(req: Request, free: seq<Interval>, s: Interval)
    requires req.Step() > 0
    ensures s in SlotsInAll(req, free) <==> EmittedBy(req, free, s)
  {
    if free != [] {
      var init, last := free[..|free| - 1], free[|free| - 1];
      assert free == init + [last];
      SlotsInAllIff(req, init, s);
      SlotsInAllSnoc(req, init, last);
      EmittedSnoc(req, init, last, s);
      InConcat(SlotsInAll(req, init), SlotsIn(req, last), s);
    }
  }

  lemma InConcat(a: seq<Interval>, b: seq<Interval>, s: Interval)
    ensures s in a + b <==> s in a || s in b
  {
  }

  ghost predicate AllHarmless(req: Request, free: seq<Interval>)
    requires req.Step() > 0
  {
    forall i :: 0 <= i < |free| ==> Harmless(req, free[i])
  }

  lemma HarmlessIsExact(req: Request)
    requires req.Step() > 0 && 60 % req.Step() == 0 && req.TotalMs() > 0
    requires AllHarmless(req, Subtract(Windows(req.workingHours), req.Occupied()))
    ensures Exact(req)
  {
    var free := Subtract(Windows(req.workingHours), req.Occupied());
    forall w ensures req.SlotAt(w) in Slots(req) <==> Offerable(req, w) {
      SlotsInAllIff(req, free, req.SlotAt(w));
      SubtractFits(Windows(req.workingHours), req.Occupied(), w, w + req.TotalMs());
      forall i | 0 <= i < |free| { HarmlessPiece(req, free[i], w); }
    }
  }

  /** A harmful piece breaks exactness: it emits a slot off the grid, or misses an aligned window that no other piece
      holds. */
  lemma HarmfulPiece(req: Request, i: nat)
    requires req.Step() > 0 && 60 % req.Step() == 0 && req.TotalMs() > 0 && !req.isHoliday
    requires Apart(Windows(req.workingHours)) && Forward(req.Occupied())
    requires i < |Subtract(Windows(req.workingHours), req.Occupied())|
    requires !Harmless(req, Subtract(Windows(req.workingHours), req.Occupied())[i])
    ensures !Exact(req)
  {
    var free := Subtract(Windows(req.workingHours), req.Occupied());
    var piece, w := free[i], FirstChance(free[i].start, req.Step());
    SlotsInAllIff(req, free, req.SlotAt(w));
    FirstCursorParts(piece.start, req.Step());
    if MinuteOfHour(piece.start) % req.Step() == 0 {
      SlotsInReaches(req, piece, w);
      ReachesStep(w, req.Step() * MINUTE_MS, w);
      assert req.SlotAt(w) in Slots(req) && !Offerable(req, w);
    } else {
      FirstChanceAligned(piece.start, req.Step());
      SubtractFits(Windows(req.workingHours), req.Occupied(), w, w + req.TotalMs());
      assert Offerable(req, w);
      SubtractApart(Windows(req.workingHours), req.Occupied());
      MissedByAll(req, free, i, w);
    }
  }

  lemma MissedByAll(req: Request, free: seq<Interval>, i: nat, w: int)
    requires req.Step() > 0 && req.TotalMs() > 0 && Apart(free) && i < |free|
    requires free[i].start % MINUTE_MS != 0 && Aligned(w, req.Step())
    requires free[i].start <= w && w + req.TotalMs() <= free[i].end
    ensures !EmittedBy(req, free, req.SlotAt(w))
  {
    forall j | 0 <= j < |free| ensures req.SlotAt(w) !in SlotsIn(req, free[j]) {
      if req.SlotAt(w) in SlotsIn(req, free[j]) {
        SlotsInReaches(req, free[j], w);
        FirstCursorParts(free[j].start, req.Step());
        ReachesAtLeast(FirstCursor(free[j].start, req.Step()), req.Step() * MINUTE_MS, w);
        assert j == i;
        PartialPieceIsOff(req, free[i], w);
        assert false;
      }
    }
  }

  /** When a request is exact, whole minutes or not: over working windows that do not overlap, the slots are exactly the
      offerable windows if and only if the day is a holiday or every free piece that starts inside a minute is too short
      for a slot. */
  lemma ExactIffPartialPiecesShort(req: Request)
    requires req.Step() > 0 && 60 % req.Step() == 0 && req.TotalMs() > 0
    requires Apart(Windows(req.workingHours)) && Forward(req.Occupied())
    ensures var free := Subtract(Windows(req.workingHours), req.Occupied());
      Exact(req) <==>
        req.isHoliday
        || forall i :: 0 <= i < |free| && free[i].start % MINUTE_MS != 0 ==> TooShort(req, free[i])
  {
    var free := Subtract(Windows(req.workingHours), req.Occupied());
    if !req.isHoliday {
      if AllHarmless(req, free) {
        HarmlessIsExact(req);
      } else {
        var i :| 0 <= i < |free| && !Harmless(req, free[i]);
        HarmfulPiece(req, i);
      }
      assert AllHarmless(req, free)
        <==> forall i :: 0 <= i < |free| && free[i].start % MINUTE_MS != 0 ==> TooShort(req, free[i]);
    }
  }

  // ---- When exactness fails ----

  /** Exactness over all whole-minute requests of positive length with this interval. */
  ghost predicate ExactForInterval(step: int)
    requires step > 0
  {
    forall req: Request :: req.Step() == step && req.TotalMs() > 0 && WholeMinutes(req) ==> Exact(req)
  }

  /** A free window [0, until) and a one-minute service. */
  function Plain(step: int, until: int): Request {
    Request(false, Some(step), 0, 1, 0, [WorkingHours(0, until, None)], [], [], [])
  }

  lemma PlainSlots(step: int, until: int)
    requires step > 0 && until > 0
    ensures WholeMinutes(Plain(step, until))
    ensures Slots(Plain(step, until)) == SlotsIn(Plain(step, until), Interval(0, until))
    ensures Windows(Plain(step, until).workingHours) == [Interval(0, until)]
    ensures Plain(step, until).Occupied() == []
  {
    var req := Plain(step, until);
    var hours := req.workingHours;
    assert hours[..0] == [];
    assert Windows([]) == [] && Pauses([]) == [];
    assert Windows(hours) == [Interval(0, until)];
    var free := [Interval(0, until)];
    assert free[..0] == [];
    assert SlotsInAll(req, []) == [];
  }

  /** The settings allow any slot interval from 5 to 60 minutes, but the calculator restarts its grid at every full
      hour only to start a free interval: the slots are exact for all requests if and only if the interval
      divides 60. */
  lemma ExactIffDivides60(step: int)
    requires step > 0
    ensures ExactForInterval(step) <==> 60 % step == 0
  {
    if 60 % step == 0 {
      forall req: Request | req.Step() == step && req.TotalMs() > 0 && WholeMinutes(req) ensures Exact(req) {
        SlotExactness(req);
      }
    } else if step < 60 {
      EmittedOffGrid(step);
    } else {
      OfferableNotEmitted(step);
    }
  }

  lemma FirstMultiplePastHour(step: int) returns (k: nat)
    requires 0 < step < 60 && 60 % step != 0
    ensures 60 < step * k < 60 + step
  {
    k := 60 / step + 1;
    assert step * k == step * (60 / step) + step;
  }

  lemma EmittedAt(step: int, k: nat, n: int)
    requires step > 0 && n == step * k
    ensures var req, until := Plain(step, n * MINUTE_MS + MINUTE_MS), n * MINUTE_MS + MINUTE_MS;
      req.SlotAt(n * MINUTE_MS) in SlotsFrom(req, 0, until)
  {
    StepsInMs(k, step);
    var w := n * MINUTE_MS;
    assert Reaches(0, step * MINUTE_MS, w) by { assert w == 0 + k * (step * MINUTE_MS); }
    SlotsFromMembers(Plain(step, w + MINUTE_MS), 0, w + MINUTE_MS, w);
  }

  lemma NotExactAt(step: int, w: int)
    requires step > 0 && w > 0 && !Aligned(w, step)
    requires Plain(step, w + MINUTE_MS).SlotAt(w) in SlotsFrom(Plain(step, w + MINUTE_MS), 0, w + MINUTE_MS)
    ensures !ExactForInterval(step)
  {
    var req := Plain(step, w + MINUTE_MS);
    PlainSlots(step, w + MINUTE_MS);
    assert FirstCursor(0, step) == 0;
    assert req.SlotAt(w) in Slots(req) && !Offerable(req, w);
    assert !Exact(req);
  }

  /** The minute n after the full hour, a multiple of the interval, is not on the grid. */
  lemma PastHourOffGrid(step: int, n: int)
    requires 60 < n < 60 + step && step < 60
    ensures !Aligned(n * MINUTE_MS, step)
  {
    DivModUnique(n * MINUTE_MS, MINUTE_MS, n, 0);
    DivModUnique(n, 60, 1, n - 60);
    DivModUnique(n - 60, step, 0, n - 60);
  }

  lemma EmittedOffGrid(step: int)
    requires 0 < step < 60 && 60 % step != 0
    ensures !ExactForInterval(step)
  {
    var k := FirstMultiplePastHour(step);
    var n := step * k;
    EmittedAt(step, k, n);
    PastHourOffGrid(step, n);
    NotExactAt(step, n * MINUTE_MS);
  }

  lemma OfferableNotEmitted(step: int)
    requires step > 60
    ensures !ExactForInterval(step)
  {
    var w := 60 * MINUTE_MS;
    var req := Plain(step, w + MINUTE_MS);
    PlainSlots(step, w + MINUTE_MS);
    assert [Interval(0, w + MINUTE_MS)][0] == Interval(0, w + MINUTE_MS);
    assert Offerable(req, w);
    SlotsFromMembers(req, 0, w + MINUTE_MS, w);
    if k: nat :| w == 0 + k * (step * MINUTE_MS) {
      StepsInMs(k, step);
      if k >= 1 { MulAtLeast(step, k); }
    }
    assert !Exact(req);
  }

  /** A booking that ends inside a minute shifts the grid off the whole minutes. */
  lemma PartialMinuteBreaksGrid()
    ensures var req := Plain(15, 60 * MINUTE_MS).(bookings := [Interval(-1, 500)]);
      req.TotalMs() > 0 && req.SlotAt(500) in Slots(req) && !Offerable(req, 500)
  {
    var until := 60 * MINUTE_MS;
    var req := Plain(15, until).(bookings := [Interval(-1, 500)]);
    PlainSlots(15, until);
    var base, subs := [Interval(0, until)], [Interval(-1, 500)];
    assert req.Occupied() == subs;
    assert base[..0] == [] && subs[..0] == [];
    assert CutAll([], subs[0]) == [];
    assert CutAll(base, subs[0]) == Cut(base[0], subs[0]) == [Interval(500, until)];
    assert Subtract(base, subs) == CutAll(Subtract(base, []), subs[0]);
    var free := [Interval(500, until)];
    assert free[..0] == [] && SlotsInAll(req, []) == [];
    assert FirstCursor(500, 15) == 500;
    assert SlotsFrom(req, 500, until)[0] == req.SlotAt(500);
  }
}
