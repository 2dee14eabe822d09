/** What each operation on bundles does, item by item, in terms of the tables alone. */
module BundleEffects {
  import opened Common
  import opened Passes
  import opened BundlePacks
  import R = BundleRuns
  import C = CreditEffects

  /** Item i is the first of the service, and, if asked, the first with a piece left. */
  predicate IsFirstItem(items: seq<Item>, service: nat, stocked: bool, i: nat) {
    && i < |items| && items[i].service == service && (stocked ==> 0 < items[i].quantity)
    && forall j :: 0 <= j < i && items[j].service == service ==> stocked && items[j].quantity <= 0
  }

  lemma {:induction false} FindItemIsFirst(items: seq<Item>, service: nat, stocked: bool)
    ensures match FindItem(items, service, stocked)
      case None => forall i :: 0 <= i < |items| && items[i].service == service ==> stocked && items[i].quantity <= 0
      case Some(i) => IsFirstItem(items, service, stocked, i)
  {
    if items != [] {
      var init := items[..|items| - 1];
      FindItemIsFirst(init, service, stocked);
      assert forall i :: 0 <= i < |init| ==> init[i] == items[i];
    }
  }

  /** Nothing is left in any item. */
  predicate Empty(items: seq<Item>) { forall i :: 0 <= i < |items| ==> items[i].quantity == 0 }

  lemma {:induction false} EmptyIff(items: seq<Item>)
    requires R.NonNegative(items)
    ensures TotalRemaining(items) >= 0 && (TotalRemaining(items) == 0 <==> Empty(items))
  {
    if items != [] {
      var init := items[..|items| - 1];
      assert forall i :: 0 <= i < |init| ==> init[i] == items[i];
      EmptyIff(init);
    }
  }

  /** The bundle can give a piece of the service for the visit. */
  predicate Gives(p: Pack, v: Visit) {
    && C.Reaches(p.owner, v)
    && p.status == Active
    && (p.validUntil.Some? ==> v.now < p.validUntil.value)
    && (|p.branches| != 0 ==> v.branch.Some? && v.branch.value in p.branches)
    && exists i :: 0 <= i < |p.items| && p.items[i].service == v.service && 0 < p.items[i].quantity
  }

  predicate Before(p: Pack, q: Pack) {
    || C.Rank(p.owner) < C.Rank(q.owner)
    || (C.Rank(p.owner) == C.Rank(q.owner)
        && (q.validUntil == None || (p.validUntil.Some? && p.validUntil.value <= q.validUntil.value)))
  }

  lemma GivesIff(p: Pack, v: Visit)
    ensures Gives(p, v) <==> Candidate(p, v) && Usable(p, v)
  {
    FindItemIsFirst(p.items, v.service, true);
  }

  /** One piece is taken from the first stocked item of the service. */
  predicate TakesOne(items: seq<Item>, items': seq<Item>, service: nat) {
    exists i :: 0 <= i < |items| && IsFirstItem(items, service, true, i)
      && items' == items[i := Item(service, items[i].quantity - 1)]
  }

  /** A visit takes nothing if and only if no bundle can give a piece; else a piece from one that can and comes before
      any other that can. A bundle left without any piece is used up; one row is logged, and nothing else changes. */
  lemma ChargeEffect(st: State, order: seq<nat>, v: Visit, booking: nat)
    requires IsListing(order, Candidates(st.packs, v), Keys(st.packs))
    requires forall id :: 0 <= id < |st.packs| ==> R.NonNegative(st.packs[id].items)
    ensures var (st', r) := Deduct(st, order, v, booking);
      && (r == None <==> forall id :: 0 <= id < |st.packs| ==> !Gives(st.packs[id], v))
      && (r == None ==> st' == st)
      && (r != None ==>
            && r.value == Charge(r.value.pack, v.service, 1)
            && r.value.pack < |st.packs| == |st'.packs|
            && var p, p' := st.packs[r.value.pack], st'.packs[r.value.pack];
            && Gives(p, v)
            && (forall id :: 0 <= id < |st.packs| && id != r.value.pack && Gives(st.packs[id], v) ==>
                  Before(p, st.packs[id]))
            && TakesOne(p.items, p'.items, v.service)
            && p' == p.(items := p'.items, status := if Empty(p'.items) then UsedUp else Active)
            && st' == State(st.packs[r.value.pack := p'],
                            st.uses + [Use(r.value.pack, Some(booking), Some(v.service), 1, Consumed)]))
  {
    R.ChoiceIsOptimal(st, order, v, booking);
    forall id | 0 <= id < |st.packs| ensures Gives(st.packs[id], v) <==> R.Eligible(st.packs[id], v) {
      GivesIff(st.packs[id], v);
    }
    var (st', r) := Deduct(st, order, v, booking);
    if r.Some? {
      var p := st.packs[r.value.pack];
      FindItemIsFirst(p.items, v.service, true);
      EmptyIff(st'.packs[r.value.pack].items);
    }
  }

  /** A sale adds a bundle with the template's items, for so many days from the start, or for ever. */
  lemma SaleEffect(st: State, owner: Owner, t: Template, validFrom: int)
    ensures var days := if t.validityDays == None then 0 else t.validityDays.value;
      Allocate(st, owner, Some(t), validFrom)
      == (State(st.packs + [Pack(owner, t.items, t.items, t.branches,
                                 if days == 0 then None else Some(validFrom + days * 24 * 60 * 60 * 1000), Active)],
                st.uses),
          Ok(|st.packs|))
    ensures Allocate(st, owner, None, validFrom) == (st, Failed(PackNotFound))
  {
  }

  /** The request that changes no quantity: the date moves, and a bundle found empty is used up. */
  lemma ExtendEffect(st: State, id: nat, extendDays: Option<int>)
    requires id < |st.packs| ==> R.NonNegative(st.packs[id].items)
    ensures var days := if extendDays == None then 0 else extendDays.value;
      AdjustItem(st, id, None, extendDays) ==
        if |st.packs| <= id then (st, Failed(AllocationNotFound))
        else if days != 0 && st.packs[id].validUntil == None then (st, Failed(NoExpiryToExtend))
        else
          var p := st.packs[id];
          var until := if days == 0 then p.validUntil else Some(p.validUntil.value + days * 24 * 60 * 60 * 1000);
          (State(st.packs[id := p.(validUntil := until, status := if Empty(p.items) then UsedUp else p.status)],
                 st.uses + [Use(id, None, None, 0, Adjusted)]),
           Ok(id))
  {
    if id < |st.packs| { EmptyIff(st.packs[id].items); }
  }

  /** The request that changes the quantity of a service by delta: item i is the first of the service. */
  lemma AdjustEffect(st: State, id: nat, service: nat, delta: int, i: nat, extendDays: Option<int>)
    requires id < |st.packs| && R.NonNegative(st.packs[id].items) && IsFirstItem(st.packs[id].items, service, false, i)
    ensures var p := st.packs[id];
      var days := if extendDays == None then 0 else extendDays.value;
      AdjustItem(st, id, Some(Item(service, delta)), extendDays) ==
        if p.items[i].quantity < -delta then (st, Failed(NegativeQuantity))
        else if days != 0 && p.validUntil == None then (st, Failed(NoExpiryToExtend))
        else
          var items := p.items[i := Item(service, p.items[i].quantity + delta)];
          var until := if days == 0 then p.validUntil else Some(p.validUntil.value + days * 24 * 60 * 60 * 1000);
          (State(st.packs[id := p.(items := items, validUntil := until,
                                   status := if Empty(items) then UsedUp else p.status)],
                 st.uses + [Use(id, None, Some(service), -delta, Adjusted)]),
           Ok(id))
  {
    var p := st.packs[id];
    FindItemIsFirst(p.items, service, false);
    if p.items[i].quantity >= -delta { EmptyIff(p.items[i := Item(service, p.items[i].quantity + delta)]); }
  }

  lemma AdjustUnknownService(st: State, id: nat, service: nat, delta: int, extendDays: Option<int>)
    requires id < |st.packs| && forall i :: 0 <= i < |st.packs[id].items| ==> st.packs[id].items[i].service != service
    ensures AdjustItem(st, id, Some(Item(service, delta)), extendDays) == (st, Failed(ItemNotInBundle))
  {
  }

  lemma SuspendEffect(st: State, id: nat, suspend: bool)
    ensures var (st', r) := SetSuspended(st, id, suspend);
      var from, to := if suspend then Active else Suspended, if suspend then Suspended else Active;
      if id < |st.packs| && st.packs[id].status == from
      then
        && r == Ok(id)
        && st' == State(st.packs[id := st.packs[id].(status := to)], st.uses + [Use(id, None, None, 0, Adjusted)])
      else st' == st && r.Failed?
  {
  }

  /** A refund does nothing without a charge of the booking, after a refund of it, or without the bundle; else it puts
      the pieces of the first charge back into the first item k of its service and logs it, and a used-up bundle is
      active again, in date or not. */
  lemma RefundEffect(st: State, booking: nat, i: nat, k: nat)
    ensures C.NoRow(st.uses, booking, Consumed) || !C.NoRow(st.uses, booking, Refunded) ==>
      Refund(st, booking) == (st, None)
    ensures C.IsFirstRow(st.uses, booking, Consumed, i) && C.NoRow(st.uses, booking, Refunded)
            && st.uses[i].service.Some? && st.uses[i].pack < |st.packs|
            && IsFirstItem(st.packs[st.uses[i].pack].items, st.uses[i].service.value, false, k) ==>
      var u := st.uses[i];
      var p := st.packs[u.pack];
      Refund(st, booking)
      == (State(st.packs[u.pack := p.(items := p.items[k := Item(u.service.value, p.items[k].quantity + u.amount)],
                                      status := if p.status == UsedUp then Active else p.status)],
                st.uses + [Use(u.pack, Some(booking), u.service, -u.amount, Refunded)]),
          Some(Charge(u.pack, u.service.value, u.amount)))
  {
    C.FindUseIsFirst(st.uses, booking, Consumed);
    C.FindUseIsFirst(st.uses, booking, Refunded);
    if i < |st.uses| && st.uses[i].service.Some? && st.uses[i].pack < |st.packs| {
      FindItemIsFirst(st.packs[st.uses[i].pack].items, st.uses[i].service.value, false);
    }
  }

  /** Active and used-up bundles past their date expire. */
  lemma ExpiryEffect(packs: seq<Pack>, now: int)
    ensures |ExpireAll(packs, now)| == |packs|
    ensures forall id :: 0 <= id < |packs| ==>
      ExpireAll(packs, now)[id] ==
        if packs[id].validUntil != None && packs[id].validUntil.value < now
           && (packs[id].status == Active || packs[id].status == UsedUp)
        then packs[id].(status := Expired) else packs[id]
  {
  }
}
