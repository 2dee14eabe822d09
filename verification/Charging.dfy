/** Bookings and the three pass ledgers: a charge takes from time passes first, then bundles, then credits; a
    cancellation refunds all three. Between the two anything may happen to the ledgers. */
module Charging {
  import opened Common
  import opened Passes
  import B = BundlePacks
  import C = CreditPacks
  import BR = BundleRuns
  import CR = CreditRuns
  import BE = BundleEffects
  import CE = CreditEffects

  /** Of the time-pass ledger only the log is modelled: whether a time pass covers the booking is given. */
  datatype State = State(time: seq<Use>, bundle: B.State, credit: C.State)

  /** What happens around the charge of one booking: the answers of the candidate queries, and which ledger's
      transaction fails, if any does. */
  datatype Call = Call(
    booking: nat,
    visit: Visit,
    timePass: Option<nat>,
    bundles: seq<nat>,
    credits: seq<nat>,
    timeFails: bool,
    bundleFails: bool,
    creditFails: bool)

  /** Deducts from the first ledger that has a pass; a failing transaction ends the attempt without a charge. */
  function Charge(st: State, c: Call): State {
    if c.timeFails then st
    else if c.timePass.Some? then
      st.(time := st.time + [Use(c.timePass.value, Some(c.booking), Some(c.visit.service), 1, Consumed)])
    else if c.bundleFails then st
    else
      var (bundle', hit) := B.Deduct(st.bundle, c.bundles, c.visit, c.booking);
      if hit.Some? then st.(bundle := bundle')
      else if c.creditFails then st
      else st.(credit := C.Deduct(st.credit, c.credits, c.visit, c.booking).0)
  }

  function TimeRefund(time: seq<Use>, booking: nat): seq<Use> {
    var original := FindUse(time, booking, Consumed);
    if original.None? || FindUse(time, booking, Refunded).Some? then time
    else
      var u := time[original.value];
      time + [Use(u.pack, Some(booking), u.service, -u.amount, Refunded)]
  }

  /** Refunds each ledger on its own; a ledger whose transaction fails is left as it was. */
  function Refund(st: State, booking: nat, now: int, timeFails: bool, bundleFails: bool, creditFails: bool): State {
    State(
      if timeFails then st.time else TimeRefund(st.time, booking),
      if bundleFails then st.bundle else B.Refund(st.bundle, booking).0,
      if creditFails then st.credit else C.Refund(st.credit, booking, now).0)
  }

  function RefundAll(st: State, booking: nat, now: int): State { Refund(st, booking, now, false, false, false) }

  // ---- Runs ----

  /** Charges and cancellations of any bookings, whole or interrupted, between arbitrary operations on one ledger. */
  datatype Event =
    | DoCharge(call: Call)
    | DoRefund(booking: nat, at: int, timeFails: bool, bundleFails: bool, creditFails: bool)
    | OnTime(pack: nat, amount: int)
    | OnBundle(onBundle: BR.Event)
    | OnCredit(onCredit: CR.Event)

  function Step(st: State, ev: Event): (st': State)
    requires |st.credit.moved| == |st.credit.packs|
    ensures |st'.credit.moved| == |st'.credit.packs|
  {
    match ev
    case DoCharge(c) => Charge(st, c)
    case DoRefund(booking, at, tf, bf, cf) => Refund(st, booking, at, tf, bf, cf)
    case OnTime(pack, amount) => st.(time := st.time + [Use(pack, None, None, amount, Adjusted)])
    case OnBundle(e) => st.(bundle := BR.Step(st.bundle, e))
    case OnCredit(e) => st.(credit := CR.Step(st.credit, e))
  }

  function Run(events: seq<Event>): (st: State)
    ensures |st.credit.moved| == |st.credit.packs|
  {
    if events == [] then State([], B.State([], []), C.State([], [], []))
    else Step(Run(events[..|events| - 1]), events[|events| - 1])
  }

  /** The booking an event charges, if it is a charge. */
  function ChargeOf(ev: Event): Option<nat> {
    match ev
    case DoCharge(c) => Some(c.booking)
    case OnBundle(e) => if e.DoDeduct? then Some(e.booking) else None
    case OnCredit(e) => if e.DoDeduct? then Some(e.booking) else None
    case _ => None
  }

  /** The services make one deduct call per booking. */
  ghost predicate ChargedOnce(events: seq<Event>) {
    forall i, j :: 0 <= i < j < |events| && ChargeOf(events[i]).Some? ==> ChargeOf(events[i]) != ChargeOf(events[j])
  }

  // ---- One log ----

  /** Net amount of the charge and refund rows of a booking; penalties are a matter of their own. */
  function Net(uses: seq<Use>, booking: nat): int {
    if uses == [] then 0
    else
      var u := uses[|uses| - 1];
      Net(uses[..|uses| - 1], booking)
      + if IsRow(u, booking, Consumed) || IsRow(u, booking, Refunded) then u.amount else 0
  }

  predicate HasCharge(uses: seq<Use>, booking: nat) { FindUse(uses, booking, Consumed).Some? }

  function Charged(uses: seq<Use>, booking: nat): nat { if HasCharge(uses, booking) then 1 else 0 }

  /** The rows of a booking are nothing, a charge, or a charge and its refund. */
  predicate Settled(uses: seq<Use>, booking: nat) {
    match FindUse(uses, booking, Consumed)
    case None => FindUse(uses, booking, Refunded).None? && Net(uses, booking) == 0
    case Some(i) => Net(uses, booking) == if FindUse(uses, booking, Refunded).None? then uses[i].amount else 0
  }

  /** What a step may append: a charge of its own booking, the refund of an open charge, or a row of another kind. */
  predicate Allowed(uses: seq<Use>, u: Use, charge: Option<nat>) {
    match u.action
    case Consumed => u.booking.Some? && u.booking == charge
    case Refunded =>
      && u.booking.Some?
      && FindUse(uses, u.booking.value, Refunded).None?
      && var original := FindUse(uses, u.booking.value, Consumed);
         original.Some? && u.amount == -uses[original.value].amount
    case _ => true
  }

  predicate Appends(before: seq<Use>, after: seq<Use>, charge: Option<nat>) {
    || after == before
    || (after != [] && after[..|after| - 1] == before && Allowed(before, after[|after| - 1], charge))
  }

  lemma NetSnoc(uses: seq<Use>, u: Use, booking: nat)
    ensures Net(uses + [u], booking)
         == Net(uses, booking) + if IsRow(u, booking, Consumed) || IsRow(u, booking, Refunded) then u.amount else 0
  {
  }

  lemma AppendSettles(before: seq<Use>, after: seq<Use>, charge: Option<nat>, booking: nat)
    requires Appends(before, after, charge) && Settled(before, booking)
    requires charge == Some(booking) ==> !HasCharge(before, booking)
    ensures Settled(after, booking)
    ensures HasCharge(after, booking) ==> HasCharge(before, booking) || (charge == Some(booking) && after != before)
  {
    if after != before {
      var u := after[|after| - 1];
      assert after == before + [u];
      FindSnoc(before, u, booking, Consumed);
      FindSnoc(before, u, booking, Refunded);
      NetSnoc(before, u, booking);
    }
  }

  // ---- One step ----

  /** Log rows name existing passes. */
  ghost predicate CreditInRange(st: C.State) {
    forall i :: 0 <= i < |st.uses| ==> st.uses[i].pack < |st.packs|
  }

  /** Log rows name existing passes, and charges name their service. */
  ghost predicate BundleInRange(st: B.State) {
    forall i :: 0 <= i < |st.uses| ==>
      st.uses[i].pack < |st.packs| && (st.uses[i].action.Consumed? ==> st.uses[i].service.Some?)
  }

  ghost predicate InRange(st: State) { CreditInRange(st.credit) && BundleInRange(st.bundle) }

  ghost predicate LogsAppend(st: State, st': State, charge: Option<nat>) {
    && Appends(st.time, st'.time, charge)
    && Appends(st.bundle.uses, st'.bundle.uses, charge)
    && Appends(st.credit.uses, st'.credit.uses, charge)
  }

  function Changed(before: seq<Use>, after: seq<Use>): nat { if after == before then 0 else 1 }

  lemma CreditStepAppends(st: C.State, e: CR.Event)
    requires |st.moved| == |st.packs| && CreditInRange(st)
    ensures Appends(st.uses, CR.Step(st, e).uses, if e.DoDeduct? then Some(e.booking) else None)
    ensures CreditInRange(CR.Step(st, e))
  {
    CreditStepAppendsSound(st, e);
    var st' := CR.Step(st, e);
    forall i | 0 <= i < |st'.uses| ensures st'.uses[i].pack < |st'.packs| {
      if i < |st.uses| { assert st'.uses[i] == st.uses[i]; }
    }
  }

  lemma CreditStepAppendsSound(st: C.State, e: CR.Event)
    requires |st.moved| == |st.packs| && CreditInRange(st)
    ensures var st' := CR.Step(st, e);
      && Appends(st.uses, st'.uses, if e.DoDeduct? then Some(e.booking) else None)
      && |st.packs| <= |st'.packs|
      && (st'.uses != st.uses ==> st'.uses[|st.uses|].pack < |st'.packs|)
  {
  }

  lemma BundleStepAppends(st: B.State, e: BR.Event)
    requires BundleInRange(st)
    ensures Appends(st.uses, BR.Step(st, e).uses, if e.DoDeduct? then Some(e.booking) else None)
    ensures BundleInRange(BR.Step(st, e))
  {
    BundleStepAppendsSound(st, e);
    var st' := BR.Step(st, e);
    forall i | 0 <= i < |st'.uses|
      ensures st'.uses[i].pack < |st'.packs| && (st'.uses[i].action.Consumed? ==> st'.uses[i].service.Some?)
    {
      if i < |st.uses| { assert st'.uses[i] == st.uses[i]; }
    }
  }

  lemma BundleStepAppendsSound(st: B.State, e: BR.Event)
    ensures var st' := BR.Step(st, e);
      && Appends(st.uses, st'.uses, if e.DoDeduct? then Some(e.booking) else None)
      && |st.packs| <= |st'.packs|
      && (st'.uses != st.uses ==>
            var u := st'.uses[|st.uses|]; u.pack < |st'.packs| && (u.action.Consumed? ==> u.service.Some?))
  {
  }

  /** Every step appends at most one allowed row to each log, and a charge touches at most one log. */
  ghost predicate GoodStep(st: State, st': State, charge: Option<nat>) {
    && InRange(st') && LogsAppend(st, st', charge)
    && (charge.Some? ==>
          Changed(st.time, st'.time) + Changed(st.bundle.uses, st'.bundle.uses)
          + Changed(st.credit.uses, st'.credit.uses) <= 1)
  }

  function BundleCharge(c: Call): BR.Event { BR.DoDeduct(c.bundles, c.visit, c.booking) }

  function CreditCharge(c: Call): CR.Event { CR.DoDeduct(c.credits, c.visit, c.booking) }

  /** A charge is nothing, a row in the time log, or one deduction from one of the other ledgers. */
  lemma ChargeCases(st: State, c: Call)
    requires |st.credit.moved| == |st.credit.packs|
    ensures
      || Charge(st, c) == st
      || (c.timePass.Some?
          && Charge(st, c) == st.(time := st.time
               + [Use(c.timePass.value, Some(c.booking), Some(c.visit.service), 1, Consumed)]))
      || Charge(st, c) == st.(bundle := BR.Step(st.bundle, BundleCharge(c)))
      || Charge(st, c) == st.(credit := CR.Step(st.credit, CreditCharge(c)))
  {
  }

  lemma OneLogGood(st: State, time: seq<Use>, bundle: B.State, credit: C.State, charge: Option<nat>)
    requires InRange(st)
    ensures Appends(st.time, time, charge) ==> GoodStep(st, st.(time := time), charge)
    ensures Appends(st.bundle.uses, bundle.uses, charge) && BundleInRange(bundle) ==>
      GoodStep(st, st.(bundle := bundle), charge)
    ensures Appends(st.credit.uses, credit.uses, charge) && CreditInRange(credit) ==>
      GoodStep(st, st.(credit := credit), charge)
  {
  }

  lemma ChargeAppends(st: State, c: Call)
    requires InRange(st) && |st.credit.moved| == |st.credit.packs|
    ensures GoodStep(st, Charge(st, c), Some(c.booking))
  {
    ChargeCases(st, c);
    var bundle', credit' := BR.Step(st.bundle, BundleCharge(c)), CR.Step(st.credit, CreditCharge(c));
    BundleStepAppends(st.bundle, BundleCharge(c));
    CreditStepAppends(st.credit, CreditCharge(c));
    var st' := Charge(st, c);
    assert Appends(st.time, st'.time, Some(c.booking)) by {
      if st'.time != st.time { assert st'.time[..|st.time|] == st.time; }
    }
    OneLogGood(st, st'.time, bundle', credit', Some(c.booking));
  }

  lemma TimeRefundAppends(time: seq<Use>, booking: nat)
    ensures Appends(time, TimeRefund(time, booking), None)
  {
  }

  lemma RefundAppends(st: State, booking: nat, at: int, tf: bool, bf: bool, cf: bool)
    requires InRange(st) && |st.credit.moved| == |st.credit.packs|
    ensures GoodStep(st, Refund(st, booking, at, tf, bf, cf), None)
  {
    TimeRefundAppends(st.time, booking);
    assert B.Refund(st.bundle, booking).0 == BR.Step(st.bundle, BR.DoRefund(booking));
    assert C.Refund(st.credit, booking, at).0 == CR.Step(st.credit, CR.DoRefund(booking, at));
    BundleStepAppends(st.bundle, BR.DoRefund(booking));
    CreditStepAppends(st.credit, CR.DoRefund(booking, at));
  }

  lemma StepAppends(st: State, ev: Event)
    requires InRange(st) && |st.credit.moved| == |st.credit.packs|
    ensures GoodStep(st, Step(st, ev), ChargeOf(ev))
  {
    match ev
    case DoCharge(c) => ChargeAppends(st, c);
    case DoRefund(booking, at, tf, bf, cf) => RefundAppends(st, booking, at, tf, bf, cf);
    case OnTime(_, _) =>
    case OnBundle(e) => BundleStepAppends(st.bundle, e);
    case OnCredit(e) => CreditStepAppends(st.credit, e);
  }

  // ---- At most one charge, in every run ----

  predicate AllSettled(st: State, booking: nat) {
    && Settled(st.time, booking) && Settled(st.bundle.uses, booking) && Settled(st.credit.uses, booking)
    && ChargesOf(st, booking) <= 1
  }

  /** The number of ledgers that hold a charge of the booking. */
  function ChargesOf(st: State, booking: nat): nat {
    Charged(st.time, booking) + Charged(st.bundle.uses, booking) + Charged(st.credit.uses, booking)
  }

  lemma StepSettles(st: State, ev: Event, booking: nat)
    requires InRange(st) && |st.credit.moved| == |st.credit.packs| && AllSettled(st, booking)
    requires ChargeOf(ev) == Some(booking) ==> ChargesOf(st, booking) == 0
    ensures AllSettled(Step(st, ev), booking)
    ensures ChargeOf(ev) != Some(booking) ==> ChargesOf(Step(st, ev), booking) <= ChargesOf(st, booking)
  {
    var st' := Step(st, ev);
    StepAppends(st, ev);
    AppendSettles(st.time, st'.time, ChargeOf(ev), booking);
    AppendSettles(st.bundle.uses, st'.bundle.uses, ChargeOf(ev), booking);
    AppendSettles(st.credit.uses, st'.credit.uses, ChargeOf(ev), booking);
  }

  /** In every run with one deduct call per booking, at most one of the three ledgers ever holds a charge of a booking,
      and none does while the booking has not been charged. */
  lemma {:induction false} AtMostOneCharge(events: seq<Event>, booking: nat)
    requires ChargedOnce(events)
    ensures InRange(Run(events)) && AllSettled(Run(events), booking)
    ensures ChargesOf(Run(events), booking) <= 1
    ensures (forall i :: 0 <= i < |events| ==> ChargeOf(events[i]) != Some(booking)) ==>
      ChargesOf(Run(events), booking) == 0
  {
    if events != [] {
      var init, ev := events[..|events| - 1], events[|events| - 1];
      assert forall i :: 0 <= i < |init| ==> init[i] == events[i];
      AtMostOneCharge(init, booking);
      StepAppends(Run(init), ev);
      StepSettles(Run(init), ev, booking);
    }
  }

  // ---- Refunds cancel charges, in every run ----

  lemma TimeRefundIsIdempotent(time: seq<Use>, booking: nat)
    ensures TimeRefund(TimeRefund(time, booking), booking) == TimeRefund(time, booking)
  {
    var after := TimeRefund(time, booking);
    if after != time { FindSnoc(time, after[|time|], booking, Refunded); }
  }

  lemma TimeRefundNet(time: seq<Use>, booking: nat)
    requires Settled(time, booking)
    ensures Net(TimeRefund(time, booking), booking) == 0
  {
    var after := TimeRefund(time, booking);
    if after != time { NetSnoc(time, after[|time|], booking); }
  }

  lemma BundleRefundNet(st: B.State, booking: nat)
    requires Settled(st.uses, booking)
    requires BundleInRange(st)
    ensures Net(B.Refund(st, booking).0.uses, booking) == 0
  {
    var after := B.Refund(st, booking).0.uses;
    if after != st.uses { NetSnoc(st.uses, after[|st.uses|], booking); }
  }

  lemma CreditRefundNet(st: C.State, booking: nat, now: int)
    requires Settled(st.uses, booking)
    requires CreditInRange(st)
    ensures Net(C.Refund(st, booking, now).0.uses, booking) == 0
  {
    var after := C.Refund(st, booking, now).0.uses;
    if after != st.uses { NetSnoc(st.uses, after[|st.uses|], booking); }
  }

  ghost predicate KeepsSuspensions(st: State, st': State) {
    && |st'.bundle.packs| == |st.bundle.packs| && |st'.credit.packs| == |st.credit.packs|
    && (forall id :: 0 <= id < |st.bundle.packs| && st.bundle.packs[id].status.Suspended? ==>
          st'.bundle.packs[id].status.Suspended?)
    && (forall id :: 0 <= id < |st.credit.packs| && st.credit.packs[id].status.Suspended? ==>
          st'.credit.packs[id].status.Suspended?)
  }

  /** Charge and refund cancel out: whatever happened before, between and after, once a booking's cancellation has gone
      through, every ledger's charge and refund rows of it sum to zero, any further refund changes nothing, and a pass
      suspended meanwhile stays suspended. */
  lemma RefundCancelsCharge(events: seq<Event>, booking: nat, now: int, later: int)
    requires ChargedOnce(events)
    ensures var refunded := RefundAll(Run(events), booking, now);
      && Net(refunded.time, booking) == 0
      && Net(refunded.bundle.uses, booking) == 0
      && Net(refunded.credit.uses, booking) == 0
      && RefundAll(refunded, booking, later) == refunded
      && KeepsSuspensions(Run(events), refunded)
  {
    var st := Run(events);
    AtMostOneCharge(events, booking);
    TimeRefundNet(st.time, booking);
    TimeRefundIsIdempotent(st.time, booking);
    BundleRefundNet(st.bundle, booking);
    CreditRefundNet(st.credit, booking, now);
    BR.RefundIsIdempotent(st.bundle, booking);
    CR.RefundIsIdempotent(st.credit, booking, now, later);
  }

  /** A refund interrupted by failing ledgers leaves no trace once it is repeated: the failed try and the full one end
      in the state of the full one alone, whenever the ledgers failed. */
  lemma RefundCanBeRepeated(st: State, booking: nat, now: int, tf: bool, bf: bool, cf: bool)
    ensures RefundAll(Refund(st, booking, now, tf, bf, cf), booking, now) == RefundAll(st, booking, now)
  {
    TimeRefundIsIdempotent(st.time, booking);
    BR.RefundIsIdempotent(st.bundle, booking);
    CR.RefundIsIdempotent(st.credit, booking, now, now);
  }

  // ---- Which ledger is charged ----

  /** The answers of the candidate queries are listings of the ledgers. */
  ghost predicate Listed(st: State, c: Call) {
    && IsListing(c.bundles, B.Candidates(st.bundle.packs, c.visit), B.Keys(st.bundle.packs))
    && IsListing(c.credits, C.Candidates(st.credit.packs, c.visit), C.Keys(st.credit.packs))
    && forall id :: 0 <= id < |st.bundle.packs| ==> BR.NonNegative(st.bundle.packs[id].items)
  }

  predicate BundleCovers(st: State, v: Visit) {
    exists id :: 0 <= id < |st.bundle.packs| && BE.Gives(st.bundle.packs[id], v)
  }

  predicate CreditCovers(st: State, v: Visit) {
    exists id :: 0 <= id < |st.credit.packs| && CE.Pays(st.credit.packs[id], v)
  }

  /** A time pass is used if there is one, else a bundle if one can give a piece, else credits if a pack can pay; a
      ledger that fails ends the attempt. Each way exactly one row is logged. */
  lemma ChargeOrder(st: State, c: Call)
    requires Listed(st, c)
    ensures var st' := Charge(st, c);
      if c.timeFails then st' == st
      else if c.timePass != None
      then
        var row := Use(c.timePass.value, Some(c.booking), Some(c.visit.service), 1, Consumed);
        st' == State(st.time + [row], st.bundle, st.credit)
      else if c.bundleFails then st' == st
      else if BundleCovers(st, c.visit)
      then
        && st'.time == st.time && st'.credit == st.credit
        && st'.bundle == B.Deduct(st.bundle, c.bundles, c.visit, c.booking).0
        && |st'.bundle.uses| == |st.bundle.uses| + 1
      else if c.creditFails || !CreditCovers(st, c.visit) then st' == st
      else
        && st'.time == st.time && st'.bundle == st.bundle
        && st'.credit == C.Deduct(st.credit, c.credits, c.visit, c.booking).0
        && |st'.credit.uses| == |st.credit.uses| + 1
  {
    BE.ChargeEffect(st.bundle, c.bundles, c.visit, c.booking);
    CE.ChargeEffect(st.credit, c.credits, c.visit, c.booking);
  }

  /** Each ledger is refunded unless its own transaction fails, whatever the others do. */
  lemma RefundEachAlone(st: State, booking: nat, now: int, tf: bool, bf: bool, cf: bool)
    ensures var st' := Refund(st, booking, now, tf, bf, cf);
      && (tf ==> st'.time == st.time) && (bf ==> st'.bundle == st.bundle) && (cf ==> st'.credit == st.credit)
      && (!bf ==> st'.bundle == B.Refund(st.bundle, booking).0)
      && (!cf ==> st'.credit == C.Refund(st.credit, booking, now).0)
  {
  }

  lemma TimeRefundEffect(st: State, booking: nat, now: int, bf: bool, cf: bool, i: nat)
    ensures var time' := Refund(st, booking, now, false, bf, cf).time;
      && (CE.NoRow(st.time, booking, Consumed) || !CE.NoRow(st.time, booking, Refunded) ==> time' == st.time)
      && (CE.IsFirstRow(st.time, booking, Consumed, i) && CE.NoRow(st.time, booking, Refunded) ==>
            time' == st.time
              + [Use(st.time[i].pack, Some(booking), st.time[i].service, -st.time[i].amount, Refunded)])
  {
    CE.FindUseIsFirst(st.time, booking, Consumed);
    CE.FindUseIsFirst(st.time, booking, Refunded);
  }
}
