/** Conservation of credits over whole runs, optimal choice of the pass, and refunds that undo charges. */
module CreditRuns {
  import opened Common
  import opened Passes
  import opened CreditPacks

  /** Sum of the log rows of a pack: what was deducted, refunds counted negative. */
  function Logged(uses: seq<Use>, pack: nat): int {
    if uses == [] then 0
    else Logged(uses[..|uses| - 1], pack) + if uses[|uses| - 1].pack == pack then uses[|uses| - 1].amount else 0
  }

  ghost predicate Conserved(st: State) {
    && |st.moved| == |st.packs|
    && (forall id :: 0 <= id < |st.packs| ==>
          st.packs[id].remaining + Logged(st.uses, id) + st.moved[id] == st.packs[id].atPurchase)
    && (forall i :: 0 <= i < |st.uses| ==> st.uses[i].pack < |st.packs|)
  }

  /** No balance is negative, and a pack that can be charged, now or after it is resumed, holds a credit. */
  predicate Solvent(p: Pack) {
    && p.remaining >= 0
    && (p.status.Active? || p.status.Suspended? ==> p.remaining > 0)
    && (forall s :: s in p.costs ==> p.costs[s] >= 1)
  }

  ghost predicate AllSolvent(st: State) {
    && (forall id :: 0 <= id < |st.packs| ==> Solvent(st.packs[id]))
    && (forall i :: 0 <= i < |st.uses| && st.uses[i].action.Consumed? ==> st.uses[i].amount >= 1)
  }

  ghost predicate Inv(st: State) { Conserved(st) && AllSolvent(st) }

  lemma LoggedSnoc(uses: seq<Use>, u: Use, pack: nat)
    ensures Logged(uses + [u], pack) == Logged(uses, pack) + if u.pack == pack then u.amount else 0
  {
  }

  lemma {:induction false} LoggedNone(uses: seq<Use>, pack: nat)
    requires forall i :: 0 <= i < |uses| ==> uses[i].pack != pack
    ensures Logged(uses, pack) == 0
  {
    if uses != [] { LoggedNone(uses[..|uses| - 1], pack); }
  }

  /** A change of one balance that is logged with the opposite sign keeps the books. */
  lemma LoggedChange(st: State, id: nat, p: Pack, u: Use)
    requires Inv(st) && id < |st.packs| && u.pack == id
    requires p.remaining == st.packs[id].remaining - u.amount && p.atPurchase == st.packs[id].atPurchase
    requires Solvent(p) && (u.action.Consumed? ==> u.amount >= 1)
    ensures Inv(st.(packs := st.packs[id := p], uses := st.uses + [u]))
  {
  }

  lemma SoldKeeps(st: State, owner: Owner, t: Template, validFrom: int)
    requires Inv(st) && t.total >= 1 && forall s :: s in t.costs ==> t.costs[s] >= 1
    ensures Inv(st.(packs := st.packs + [Sold(owner, t, validFrom)], moved := st.moved + [0]))
  {
    LoggedNone(st.uses, |st.packs|);
  }

  lemma RollOverKeeps(st: State, customer: nat, now: int, policy: Policy)
    requires Inv(st) && st.packs != [] && st.packs[|st.packs| - 1].status.Active?
    ensures Inv(RollOver(st, customer, now, policy))
    ensures |RollOver(st, customer, now, policy).packs| == |st.packs|
  {
    var st' := RollOver(st, customer, now, policy);
    var n := |st.packs| - 1;
    forall id | 0 <= id < |st'.packs|
      ensures st'.packs[id].remaining + Logged(st'.uses, id) + st'.moved[id] == st'.packs[id].atPurchase
      ensures Solvent(st'.packs[id])
    {
      assert Solvent(st.packs[id]);
    }
  }

  lemma DeductKeeps(st: State, order: seq<nat>, v: Visit, booking: nat)
    requires Inv(st)
    ensures Inv(Deduct(st, order, v, booking).0)
  {
  }

  lemma RefundKeeps(st: State, booking: nat, now: int)
    requires Inv(st)
    ensures Inv(Refund(st, booking, now).0)
  {
  }

  lemma PenaltyKeeps(st: State, head: Option<nat>, booking: Option<nat>, credits: int)
    requires Inv(st)
    ensures Inv(DeductPenalty(st, head, booking, credits).0)
  {
  }

  lemma AdjustKeeps(st: State, id: nat, creditsDelta: Option<int>, extendDays: Option<int>)
    requires Inv(st)
    ensures Inv(Adjust(st, id, creditsDelta, extendDays).0)
  {
    var (st', r) := Adjust(st, id, creditsDelta, extendDays);
    if r.Ok? {
      var delta := match creditsDelta case Some(d) => d case None => 0;
      assert Solvent(st.packs[id]);
      LoggedChange(st, id, st'.packs[id], Use(id, None, None, -delta, Adjusted));
    }
  }

  lemma SuspendKeeps(st: State, id: nat, suspend: bool)
    requires Inv(st)
    ensures Inv(SetSuspended(st, id, suspend).0)
  {
  }

  lemma ExpireKeeps(st: State, now: int)
    requires Inv(st)
    ensures Inv(st.(packs := ExpireAll(st.packs, now)))
  {
  }

  // ---- Runs ----

  datatype Event =
    | DoAllocate(owner: Owner, template: Option<Template>, validFrom: int, at: int, policy: Policy)
    | DoAdjust(id: nat, creditsDelta: Option<int>, extendDays: Option<int>)
    | DoSetSuspended(id: nat, suspend: bool)
    | DoDeduct(order: seq<nat>, visit: Visit, booking: nat)
    | DoRefund(booking: nat, at: int)
    | DoPenalty(head: Option<nat>, penalised: Option<nat>, credits: int)
    | DoExpire(at: int)

  function Step(st: State, ev: Event): (st': State)
    requires |st.moved| == |st.packs|
    ensures |st'.moved| == |st'.packs|
  {
    match ev
    case DoAllocate(owner, template, validFrom, at, policy) => Allocate(st, owner, template, validFrom, at, policy).0
    case DoAdjust(id, creditsDelta, extendDays) => Adjust(st, id, creditsDelta, extendDays).0
    case DoSetSuspended(id, suspend) => SetSuspended(st, id, suspend).0
    case DoDeduct(order, visit, booking) => Deduct(st, order, visit, booking).0
    case DoRefund(booking, at) => Refund(st, booking, at).0
    case DoPenalty(head, booking, credits) => DeductPenalty(st, head, booking, credits).0
    case DoExpire(at) => st.(packs := ExpireAll(st.packs, at))
  }

  /** Templates are validated when they are made: at least one credit, every service costs at least one. */
  ghost predicate ValidTemplates(events: seq<Event>) {
    forall i :: 0 <= i < |events| && events[i].DoAllocate? && events[i].template.Some? ==>
      ValidTemplate(events[i].template.value)
  }

  predicate ValidTemplate(t: Template) {
    t.total >= 1 && forall s :: s in t.costs ==> t.costs[s] >= 1
  }

  lemma StepKeeps(st: State, ev: Event)
    requires Inv(st) && (ev.DoAllocate? && ev.template.Some? ==> ValidTemplate(ev.template.value))
    ensures Inv(Step(st, ev))
  {
    match ev
    case DoAllocate(owner, template, validFrom, at, policy) =>
      if template.Some? {
        SoldKeeps(st, owner, template.value, validFrom);
        var st' := st.(packs := st.packs + [Sold(owner, template.value, validFrom)], moved := st.moved + [0]);
        if owner.Customer? { RollOverKeeps(st', owner.id, at, policy); }
      }
    case DoAdjust(id, creditsDelta, extendDays) => AdjustKeeps(st, id, creditsDelta, extendDays);
    case DoSetSuspended(id, suspend) => SuspendKeeps(st, id, suspend);
    case DoDeduct(order, visit, booking) => DeductKeeps(st, order, visit, booking);
    case DoRefund(booking, at) => RefundKeeps(st, booking, at);
    case DoPenalty(head, booking, credits) => PenaltyKeeps(st, head, booking, credits);
    case DoExpire(at) => ExpireKeeps(st, at);
  }

  function Run(events: seq<Event>): (st: State)
    ensures |st.moved| == |st.packs|
  {
    if events == [] then State([], [], []) else Step(Run(events[..|events| - 1]), events[|events| - 1])
  }

  /** Conservation: in every reachable state each pack's remaining credits, its logged deductions and what it gave up to
      rollovers add up to the credits bought; no balance is negative; an active pack always has a credit left. */
  lemma {:induction false} CreditsAreConserved(events: seq<Event>)
    requires ValidTemplates(events)
    ensures Inv(Run(events))
  {
    if events != [] {
      var init := events[..|events| - 1];
      assert forall i :: 0 <= i < |init| ==> init[i] == events[i];
      CreditsAreConserved(init);
      StepKeeps(Run(init), events[|events| - 1]);
    }
  }

  // ---- Rollover ----

  /** A rollover closes every source and hands the new pack at most what the sources held. */
  lemma RollOverTransfers(st: State, customer: nat, now: int, policy: Policy)
    requires st.packs != [] && |st.moved| == |st.packs|
    requires Carried(policy, Unused(st.packs[..|st.packs| - 1], customer, now)) > 0
    ensures var st' := RollOver(st, customer, now, policy);
      var n := |st.packs| - 1;
      var credits := st'.packs[n].remaining - st.packs[n].remaining;
      && 0 < credits <= Unused(st.packs[..n], customer, now)
      && (!policy.unlimited ==> credits <= policy.maxCredits)
      && Unused(st'.packs[..n], customer, now) == 0
      && (forall i :: 0 <= i < n && !IsSource(st.packs[i], customer, now) ==> st'.packs[i] == st.packs[i])
  {
    var n := |st.packs| - 1;
    var st' := RollOver(st, customer, now, policy);
    assert st'.packs[..n] == CloseSources(st.packs[..n], customer, now);
    NoSourcesLeft(st.packs[..n], customer, now);
  }

  lemma {:induction false} NoSourcesLeft(packs: seq<Pack>, customer: nat, now: int)
    ensures Unused(CloseSources(packs, customer, now), customer, now) == 0
  {
    if packs != [] {
      var init := packs[..|packs| - 1];
      NoSourcesLeft(init, customer, now);
      assert CloseSources(packs, customer, now)[..|packs| - 1] == CloseSources(init, customer, now);
    }
  }

  // ---- The choice of the pack ----

  /** The choice is optimal: nothing is charged exactly when no reachable pack qualifies and can afford the cost, and
      the pack charged comes before every other such pack in the order of the query. */
  lemma ChoiceIsOptimal(st: State, order: seq<nat>, v: Visit, booking: nat)
    requires IsListing(order, Candidates(st.packs, v), Keys(st.packs))
    ensures var r := Deduct(st, order, v, booking).1;
      && (r.None? <==> forall id :: 0 <= id < |st.packs| ==> !(Candidate(st.packs[id], v) && Usable(st.packs[id], v)))
      && (r.Some? ==> IsBest(st.packs, r.value.pack, v) && r.value.credits == Cost(st.packs[r.value.pack], v.service))
  {
    FirstInIsOptimal(order, Candidates(st.packs, v), UsableIds(st.packs, v), Keys(st.packs));
    forall id | 0 <= id < |st.packs|
      ensures Candidate(st.packs[id], v) && Usable(st.packs[id], v) ==>
        id in Candidates(st.packs, v) * UsableIds(st.packs, v)
    {
    }
  }

  ghost predicate IsBest(packs: seq<Pack>, best: nat, v: Visit) {
    && best < |packs| && Candidate(packs[best], v) && Usable(packs[best], v)
    && forall id :: 0 <= id < |packs| && id != best && Candidate(packs[id], v) && Usable(packs[id], v) ==>
         NotAfter(packs[best].owner, packs[best].validUntil, packs[id].owner, packs[id].validUntil)
  }

  /** An own pack is charged whenever one qualifies, and the earliest to expire of those; packs that never expire come
      last. Between companies the company decides first, not the expiry. */
  lemma OwnPackFirst(st: State, order: seq<nat>, v: Visit, booking: nat, own: nat)
    requires IsListing(order, Candidates(st.packs, v), Keys(st.packs))
    requires own < |st.packs| && st.packs[own].owner == Customer(v.customer)
    requires Candidate(st.packs[own], v) && Usable(st.packs[own], v)
    ensures var r := Deduct(st, order, v, booking).1;
      && r.Some?
      && st.packs[r.value.pack].owner == Customer(v.customer)
      && ExpiryNotAfter(st.packs[r.value.pack].validUntil, st.packs[own].validUntil)
  {
    ChoiceIsOptimal(st, order, v, booking);
  }

  predicate Eligible(p: Pack, v: Visit) { Candidate(p, v) && Usable(p, v) }

  function EligibleIds(packs: seq<Pack>, v: Visit): set<nat> { set id: nat | id < |packs| && Eligible(packs[id], v) }

  /** The promise that the pack expiring first is used first holds for a visit if and only if, among the packs that
      could be charged, one that expires soonest has an owner no other owner precedes: the customer, or, without an
      own pack, the company with the least id. */
  lemma ExpiresFirstIff(st: State, order: seq<nat>, v: Visit, booking: nat)
    requires IsListing(order, Candidates(st.packs, v), Keys(st.packs)) && Deduct(st, order, v, booking).1.Some?
    ensures var best := Deduct(st, order, v, booking).1.value.pack;
      && best < |st.packs|
      && ((forall id :: 0 <= id < |st.packs| && Eligible(st.packs[id], v) ==>
             ExpiryNotAfter(st.packs[best].validUntil, st.packs[id].validUntil))
          <==> SoonestRanksFirst(EligibleIds(st.packs, v), Keys(st.packs)))
  {
    ChoiceIsOptimal(st, order, v, booking);
    var best := Deduct(st, order, v, booking).1.value.pack;
    var ids := EligibleIds(st.packs, v);
    forall id | id in ids && id != best ensures KeyNotAfter(Keys(st.packs)[best], Keys(st.packs)[id]) {
      assert Eligible(st.packs[id], v);
    }
    BestExpiresFirstIff(ids, Keys(st.packs), best);
    assert forall id :: id in ids <==> 0 <= id < |st.packs| && Eligible(st.packs[id], v);
  }

  /** When all packs that could be charged are the customer's own, or all are one company's, the one charged expires no
      later than any of them. */
  lemma OneOwnerExpiresFirst(st: State, order: seq<nat>, v: Visit, booking: nat, owner: Owner)
    requires IsListing(order, Candidates(st.packs, v), Keys(st.packs)) && Deduct(st, order, v, booking).1.Some?
    requires forall id :: 0 <= id < |st.packs| && Eligible(st.packs[id], v) ==> st.packs[id].owner == owner
    ensures var best := Deduct(st, order, v, booking).1.value.pack;
      && best < |st.packs|
      && forall id :: 0 <= id < |st.packs| && Eligible(st.packs[id], v) ==>
           ExpiryNotAfter(st.packs[best].validUntil, st.packs[id].validUntil)
  {
    ChoiceIsOptimal(st, order, v, booking);
  }

  /** A pack of one credit that never expires, and a company pack that expires at the given time. */
  function OwnAndCompany(until: int): seq<Pack> {
    [Pack(Customer(1), 1, 1, PerVisit, {}, {}, map[], None, Active),
     Pack(Company(5), 1, 1, PerVisit, {}, {}, map[], Some(until), Active)]
  }

  /** The own pack that never expires is charged although the company's expires sooner, on the one listing there is. */
  lemma LaterExpiryCharged(booking: nat)
    ensures var st := State(OwnAndCompany(100), [], [0, 0]);
      var v := Visit(1, {5}, 9, None, 0);
      && Inv(st) && IsListing([0, 1], Candidates(st.packs, v), Keys(st.packs))
      && Deduct(st, [0, 1], v, booking).1 == Some(Charge(0, 1))
      && Eligible(st.packs[1], v) && !ExpiryNotAfter(st.packs[0].validUntil, st.packs[1].validUntil)
  {
    var st := State(OwnAndCompany(100), [], [0, 0]);
    var v := Visit(1, {5}, 9, None, 0);
    assert Usable(st.packs[0], v);
    assert [0, 1][..1] == [0] && [0][..0] == [];
    assert FirstIn([0], UsableIds(st.packs, v)) == Some(0);
  }

  // ---- Refunds ----

  /** The pack as it was, except that a charge that emptied it stays final once the pack has expired. */
  predicate Restored(p: Pack, p': Pack, credits: int, now: int) {
    || p' == p
    || (p' == p.(status := UsedUp) && p.remaining == credits && p.validUntil.Some? && p.validUntil.value <= now)
  }

  /** The event writes a charge or a refund row of the booking. */
  predicate Touches(ev: Event, booking: nat) {
    (ev.DoDeduct? && ev.booking == booking) || (ev.DoRefund? && ev.booking == booking)
  }

  lemma OthersAppendOthers(st: State, ev: Event, booking: nat)
    requires |st.moved| == |st.packs| && !Touches(ev, booking)
    ensures var st' := Step(st, ev);
      && |st.packs| <= |st'.packs|
      && (st'.uses == st.uses
          || (|st'.uses| == |st.uses| + 1 && st'.uses == st.uses + [st'.uses[|st.uses|]]
              && !IsRow(st'.uses[|st.uses|], booking, Consumed) && !IsRow(st'.uses[|st.uses|], booking, Refunded)))
  {
  }

  /** Everything else leaves the rows of the booking as they are. */
  lemma OthersLeaveRows(st: State, ev: Event, booking: nat)
    requires |st.moved| == |st.packs| && !Touches(ev, booking)
    ensures var st' := Step(st, ev);
      && st.uses <= st'.uses && |st.packs| <= |st'.packs|
      && FindUse(st'.uses, booking, Consumed) == FindUse(st.uses, booking, Consumed)
      && FindUse(st'.uses, booking, Refunded) == FindUse(st.uses, booking, Refunded)
  {
    OthersAppendOthers(st, ev, booking);
    var uses, uses' := st.uses, Step(st, ev).uses;
    if uses' != uses { RowLeaves(uses, uses'[|uses|], booking); }
  }

  lemma RowLeaves(uses: seq<Use>, u: Use, booking: nat)
    requires !IsRow(u, booking, Consumed) && !IsRow(u, booking, Refunded)
    ensures FindUse(uses + [u], booking, Consumed) == FindUse(uses, booking, Consumed)
    ensures FindUse(uses + [u], booking, Refunded) == FindUse(uses, booking, Refunded)
  {
    FindSnoc(uses, u, booking, Consumed);
    FindSnoc(uses, u, booking, Refunded);
  }

  lemma {:induction false} NeverTouched(events: seq<Event>, booking: nat)
    requires forall i :: 0 <= i < |events| ==> !Touches(events[i], booking)
    ensures FindUse(Run(events).uses, booking, Consumed).None? && FindUse(Run(events).uses, booking, Refunded).None?
  {
    if events != [] {
      var init := events[..|events| - 1];
      assert forall i :: 0 <= i < |init| ==> init[i] == events[i];
      NeverTouched(init, booking);
      OthersLeaveRows(Run(init), events[|events| - 1], booking);
    }
  }

  /** Event n charges the booking, and no other event charges or refunds it. */
  ghost predicate OnlyCharge(events: seq<Event>, n: nat, booking: nat) {
    && n < |events| && events[n].DoDeduct? && events[n].booking == booking
    && forall i :: 0 <= i < |events| && i != n ==> !Touches(events[i], booking)
  }

  function ChargeAt(events: seq<Event>, n: nat): (charge: Option<Charge>)
    requires n < |events| && events[n].DoDeduct?
    ensures charge.Some? ==> charge.value.pack < |Run(events[..n]).packs| == |Step(Run(events[..n]), events[n]).packs|
  {
    Deduct(Run(events[..n]), events[n].order, events[n].visit, events[n].booking).1
  }

  /** The charge stands in the log until it is refunded. */
  lemma {:induction false} ChargeStands(events: seq<Event>, n: nat, booking: nat)
    requires OnlyCharge(events, n, booking) && ChargeAt(events, n).Some?
    ensures var uses, charge := Run(events).uses, ChargeAt(events, n).value;
      && charge.pack < |Run(events).packs|
      && FindUse(uses, booking, Refunded).None?
      && FindUse(uses, booking, Consumed).Some?
      && uses[FindUse(uses, booking, Consumed).value]
         == Use(charge.pack, Some(booking), None, charge.credits, Consumed)
  {
    var init, ev := events[..|events| - 1], events[|events| - 1];
    assert forall i :: 0 <= i < |init| ==> init[i] == events[i];
    if n == |events| - 1 {
      NeverTouched(init, booking);
      assert events[..n] == init;
      var charge := ChargeAt(events, n).value;
      var u := Use(charge.pack, Some(booking), None, charge.credits, Consumed);
      assert Run(events).uses == Run(init).uses + [u];
      FindSnoc(Run(init).uses, u, booking, Consumed);
      FindSnoc(Run(init).uses, u, booking, Refunded);
    } else {
      assert events[..n] == init[..n];
      ChargeStands(init, n, booking);
      OthersLeaveRows(Run(init), ev, booking);
    }
  }

  /** A refund gives the charged pack back exactly the credits charged, whatever happened to the ledger since: sales and
      rollovers, adjustments, suspensions, penalties, expiry, and charges and refunds of other bookings. Only a used-up
      pack in date changes its status. */
  lemma RefundReturnsCharge(events: seq<Event>, n: nat, booking: nat, now: int)
    requires OnlyCharge(events, n, booking) && ChargeAt(events, n).Some?
    ensures var st, charge := Run(events), ChargeAt(events, n).value;
      var (st', refund) := Refund(st, booking, now);
      && refund == Some(charge)
      && |st'.packs| == |st.packs| && charge.pack < |st.packs|
      && (forall id :: 0 <= id < |st.packs| && id != charge.pack ==> st'.packs[id] == st.packs[id])
      && var p, p' := st.packs[charge.pack], st'.packs[charge.pack];
         && p'.remaining == p.remaining + charge.credits
         && p' == p.(remaining := p'.remaining, status := p'.status)
         && p'.status == (if p.status.UsedUp? && InDate(p.validUntil, now) then Active else p.status)
  {
    ChargeStands(events, n, booking);
  }

  /** A charge and its refund cancel out: if nothing else has touched the charged pack since, whatever happened to
      others, it is as before the charge, balance and status, unless the charge emptied it and the refund comes after
      its expiry. */
  lemma RefundUndoesCharge(events: seq<Event>, n: nat, booking: nat, now: int)
    requires OnlyCharge(events, n, booking) && ChargeAt(events, n).Some?
    requires var pack := ChargeAt(events, n).value.pack;
      && Run(events[..n]).packs[pack].status.Active?
      && pack < |Run(events).packs|
      && Run(events).packs[pack] == Step(Run(events[..n]), events[n]).packs[pack]
    ensures var charge := ChargeAt(events, n).value;
      && Refund(Run(events), booking, now).1 == Some(charge)
      && charge.pack < |Refund(Run(events), booking, now).0.packs|
      && Restored(Run(events[..n]).packs[charge.pack], Refund(Run(events), booking, now).0.packs[charge.pack],
                  charge.credits, now)
  {
    ChargeStands(events, n, booking);
  }

  /** A second refund of a booking does nothing, and no refund ever lifts a suspension. */
  lemma RefundIsIdempotent(st: State, booking: nat, now: int, later: int)
    ensures var st' := Refund(st, booking, now).0;
      && Refund(st', booking, later) == (st', None)
      && |st'.packs| == |st.packs|
      && (forall id :: 0 <= id < |st.packs| && st.packs[id].status.Suspended? ==> st'.packs[id].status.Suspended?)
      && (forall id :: 0 <= id < |st.packs| && !st.packs[id].status.UsedUp? ==>
            st'.packs[id].status == st.packs[id].status)
  {
  }

  /** A charge touches one pack and one log row. */
  lemma DeductFrame(st: State, order: seq<nat>, v: Visit, booking: nat)
    requires Deduct(st, order, v, booking).1.Some?
    ensures var (st', r) := Deduct(st, order, v, booking);
      var c := r.value;
      && st'.uses == st.uses + [Use(c.pack, Some(booking), None, c.credits, Consumed)]
      && |st'.packs| == |st.packs|
      && st'.packs[c.pack].remaining == st.packs[c.pack].remaining - c.credits >= 0
      && (st'.packs[c.pack].status.UsedUp? <==> st'.packs[c.pack].remaining == 0 || st.packs[c.pack].status.UsedUp?)
      && forall id :: 0 <= id < |st.packs| && id != c.pack ==> st'.packs[id] == st.packs[id]
  {
  }
}
