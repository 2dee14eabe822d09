/** What each operation on credit packs does, pack by pack, in terms of the tables alone. */
module CreditEffects {
  import opened Common
  import opened Passes
  import opened CreditPacks
  import R = CreditRuns

  // ---- Charging ----

  /** The pack is the customer's own, or one of the customer's companies'. */
  predicate Reaches(owner: Owner, v: Visit) {
    match owner
    case Customer(id) => id == v.customer
    case Company(id) => id in v.companies
  }

  /** What the visit costs on the pack: the price of the service where the pack counts in credits, else one. */
  function Price(p: Pack, service: nat): int {
    match p.mode
    case PerVisit => 1
    case PerCredit => if service in p.costs.Keys then p.costs[service] else 1
  }

  /** The pack can pay for the visit. */
  predicate Pays(p: Pack, v: Visit) {
    && Reaches(p.owner, v)
    && p.status == Active
    && (p.validUntil.Some? ==> v.now < p.validUntil.value)
    && (|p.services| != 0 ==> v.service in p.services)
    && (|p.branches| != 0 ==> v.branch.Some? && v.branch.value in p.branches)
    && 0 < p.remaining && Price(p, v.service) <= p.remaining
  }

  /** Rank of an owner: own packs first, then companies by id. */
  function Rank(owner: Owner): int { if owner.Customer? then -1 else owner.id }

  /** Charged before: by rank of the owner, then by expiry, never-expiring last. */
  predicate Before(p: Pack, q: Pack) {
    || Rank(p.owner) < Rank(q.owner)
    || (Rank(p.owner) == Rank(q.owner)
        && (q.validUntil == None || (p.validUntil.Some? && p.validUntil.value <= q.validUntil.value)))
  }

  lemma PaysIff(p: Pack, v: Visit)
    ensures Pays(p, v) <==> Candidate(p, v) && Usable(p, v)
  {
  }

  /** The charge of a visit: nothing if and only if no pack can pay; else one that can pay and comes before any other
      that can, at its own price. Its balance falls by the price, an emptied pack is used up, one row is logged, and
      nothing else changes. */
  lemma ChargeEffect(st: State, order: seq<nat>, v: Visit, booking: nat)
    requires IsListing(order, Candidates(st.packs, v), Keys(st.packs))
    ensures var (st', r) := Deduct(st, order, v, booking);
      && (r == None <==> forall id :: 0 <= id < |st.packs| ==> !Pays(st.packs[id], v))
      && (r == None ==> st' == st)
      && (r != None ==>
            && r.value.pack < |st.packs|
            && var p := st.packs[r.value.pack];
            && Pays(p, v) && r.value.credits == Price(p, v.service)
            && (forall id :: 0 <= id < |st.packs| && id != r.value.pack && Pays(st.packs[id], v) ==>
                  Before(p, st.packs[id]))
            && st' == State(
                 st.packs[r.value.pack := p.(remaining := p.remaining - Price(p, v.service),
                   status := if p.remaining == Price(p, v.service) then UsedUp else Active)],
                 st.uses + [Use(r.value.pack, Some(booking), None, Price(p, v.service), Consumed)], st.moved))
  {
    R.ChoiceIsOptimal(st, order, v, booking);
    forall id | 0 <= id < |st.packs| ensures Pays(st.packs[id], v) <==> R.Eligible(st.packs[id], v) {
      PaysIff(st.packs[id], v);
    }
  }

  // ---- Selling ----

  /** A new pack of the template, for so many days from the start, or for ever. */
  function NewPack(owner: Owner, t: Template, validFrom: int): Pack {
    var days := if t.validityDays == None then 0 else t.validityDays.value;
    Pack(owner, t.total, t.total, t.mode, t.services, t.branches, t.costs,
         if days == 0 then None else Some(validFrom + days * 24 * 60 * 60 * 1000), Active)
  }

  /** An own pack past its date that was never used up. */
  predicate Leftover(p: Pack, customer: nat, now: int) {
    && p.owner == Customer(customer) && p.status == Active && 1 <= p.remaining
    && p.validUntil != None && p.validUntil.value < now
  }

  function LeftoverCredits(packs: seq<Pack>, customer: nat, now: int): int {
    if packs == [] then 0
    else
      (if Leftover(packs[0], customer, now) then packs[0].remaining else 0)
      + LeftoverCredits(packs[1..], customer, now)
  }

  lemma {:induction false} UnusedIsLeftover(packs: seq<Pack>, customer: nat, now: int)
    ensures Unused(packs, customer, now) == LeftoverCredits(packs, customer, now)
  {
    if |packs| == 1 {
      assert packs[..0] == [] && packs[1..] == [];
    } else if packs != [] {
      var n := |packs| - 1;
      UnusedIsLeftover(packs[..n], customer, now);
      UnusedIsLeftover(packs[1..], customer, now);
      UnusedIsLeftover(packs[..n][1..], customer, now);
      assert packs[..n][1..] == packs[1..][..n - 1];
    }
  }

  /** How much is carried over: all that is left, or at most the limit, and nothing when the policy is off. */
  function CarriedOver(policy: Policy, left: int): int {
    if !policy.enabled || left <= 0 then 0
    else if policy.unlimited || left <= policy.maxCredits then left
    else if policy.maxCredits <= 0 then 0
    else policy.maxCredits
  }

  lemma CarriedIs(policy: Policy, left: int)
    ensures Carried(policy, left) == CarriedOver(policy, left)
  {
  }

  /** A sale adds the pack of the template. A customer's leftover packs are closed, and what is carried over is added to
      the new pack, whose date may be moved; a company's sale does nothing else. */
  lemma SaleEffect(st: State, owner: Owner, t: Template, validFrom: int, now: int, policy: Policy)
    requires |st.moved| == |st.packs|
    ensures var (st', r) := Allocate(st, owner, Some(t), validFrom, now, policy);
      var sold := NewPack(owner, t, validFrom);
      var carried := if owner.Customer?
                     then CarriedOver(policy, LeftoverCredits(st.packs, owner.id, now)) else 0;
      && r == Ok(|st.packs|) && st'.uses == st.uses && |st'.packs| == |st.packs| + 1
      && st'.packs[|st.packs|] == sold.(
           remaining := t.total + carried, atPurchase := t.total + carried,
           validUntil := if carried > 0 && policy.extendDays > 0 && sold.validUntil.Some?
                         then Some(sold.validUntil.value + policy.extendDays * 24 * 60 * 60 * 1000)
                         else sold.validUntil)
      && forall id :: 0 <= id < |st.packs| ==>
           st'.packs[id] == if carried > 0 && Leftover(st.packs[id], owner.id, now)
                            then st.packs[id].(remaining := 0, status := RolledOver) else st.packs[id]
  {
    var sold := NewPack(owner, t, validFrom);
    assert sold == Sold(owner, t, validFrom);
    if owner.Customer? {
      assert (st.packs + [sold])[..|st.packs|] == st.packs;
      UnusedIsLeftover(st.packs, owner.id, now);
      CarriedIs(policy, LeftoverCredits(st.packs, owner.id, now));
    }
  }

  lemma NoSuchTemplate(st: State, owner: Owner, validFrom: int, now: int, policy: Policy)
    requires |st.moved| == |st.packs|
    ensures Allocate(st, owner, None, validFrom, now, policy) == (st, Failed(PackNotFound))
  {
  }

  // ---- Manual changes ----

  /** An adjustment moves the balance by the asked number and the date by the asked days, unless the balance would be
      negative or there is no date to move; it logs the number with the opposite sign. */
  lemma AdjustEffect(st: State, id: nat, creditsDelta: Option<int>, extendDays: Option<int>)
    ensures var (st', r) := Adjust(st, id, creditsDelta, extendDays);
      var delta := if creditsDelta == None then 0 else creditsDelta.value;
      var days := if extendDays == None then 0 else extendDays.value;
      && (r.Ok? <==>
            id < |st.packs| && st.packs[id].remaining >= -delta && (days != 0 ==> st.packs[id].validUntil != None))
      && (r.Failed? ==> st' == st)
      && (r == Failed(AllocationNotFound) <==> id >= |st.packs|)
      && (r == Failed(NegativeCredits) <==> id < |st.packs| && st.packs[id].remaining < -delta)
      && (r.Ok? ==>
            var p := st.packs[id];
            && r.value == p.remaining + delta
            && st' == State(
                 st.packs[id := p.(remaining := p.remaining + delta,
                   validUntil := if days == 0 then p.validUntil
                                 else Some(p.validUntil.value + days * 24 * 60 * 60 * 1000),
                   status := if p.remaining == -delta then UsedUp else p.status)],
                 st.uses + [Use(id, None, None, -delta, Adjusted)], st.moved))
  {
  }

  lemma SuspendEffect(st: State, id: nat, suspend: bool)
    ensures var (st', r) := SetSuspended(st, id, suspend);
      var from, to := if suspend then Active else Suspended, if suspend then Suspended else Active;
      if id < |st.packs| && st.packs[id].status == from
      then
        && r == Ok(id)
        && st' == State(st.packs[id := st.packs[id].(status := to)], st.uses + [Use(id, None, None, 0, Adjusted)],
                        st.moved)
      else st' == st && r.Failed?
  {
  }

  // ---- Refunds, penalties, expiry ----

  /** Row i is the first of this kind for the booking. */
  predicate IsFirstRow(uses: seq<Use>, booking: nat, action: Action, i: nat) {
    && i < |uses| && uses[i].booking == Some(booking) && uses[i].action == action
    && forall j :: 0 <= j < i ==> !(uses[j].booking == Some(booking) && uses[j].action == action)
  }

  predicate NoRow(uses: seq<Use>, booking: nat, action: Action) {
    forall j :: 0 <= j < |uses| ==> !(uses[j].booking == Some(booking) && uses[j].action == action)
  }

  lemma {:induction false} FindUseIsFirst(uses: seq<Use>, booking: nat, action: Action)
    ensures match FindUse(uses, booking, action)
      case None => NoRow(uses, booking, action)
      case Some(i) => IsFirstRow(uses, booking, action, i)
  {
    if uses != [] {
      var init := uses[..|uses| - 1];
      FindUseIsFirst(init, booking, action);
      assert forall j :: 0 <= j < |init| ==> init[j] == uses[j];
    }
  }

  /** A refund does nothing without a charge of the booking, after a refund of it, or without the pack; else it gives
      the amount of the first charge back to its pack and logs it, and a used-up pack in date is active again. */
  lemma RefundEffect(st: State, booking: nat, now: int, i: nat)
    ensures NoRow(st.uses, booking, Consumed) || !NoRow(st.uses, booking, Refunded) ==>
      Refund(st, booking, now) == (st, None)
    ensures IsFirstRow(st.uses, booking, Consumed, i) && NoRow(st.uses, booking, Refunded) ==>
      Refund(st, booking, now) ==
        if |st.packs| <= st.uses[i].pack then (st, None)
        else
          var u := st.uses[i];
          var p := st.packs[u.pack];
          var revived := p.status == UsedUp && (p.validUntil == None || now < p.validUntil.value);
          (State(
             st.packs[u.pack := p.(remaining := p.remaining + u.amount,
                                   status := if revived then Active else p.status)],
             st.uses + [Use(u.pack, Some(booking), None, -u.amount, Refunded)], st.moved),
           Some(Charge(u.pack, u.amount)))
  {
    FindUseIsFirst(st.uses, booking, Consumed);
    FindUseIsFirst(st.uses, booking, Refunded);
  }

  /** The pack a penalty takes from: an own active pack with credits, the earliest to expire. */
  lemma PenaltyHeadIff(packs: seq<Pack>, customer: nat, head: Option<nat>)
    ensures IsPenaltyHead(packs, customer, head) <==>
      var own := set id: nat | id < |packs| && packs[id].owner == Customer(customer) && packs[id].status == Active
                               && 0 < packs[id].remaining;
      if head == None then own == {}
      else
        && head.value in own
        && forall id :: id in own ==>
             packs[id].validUntil == None
             || (packs[head.value].validUntil.Some? && packs[head.value].validUntil.value <= packs[id].validUntil.value)
  {
    var own := set id: nat | id < |packs| && packs[id].owner == Customer(customer) && packs[id].status == Active
                             && 0 < packs[id].remaining;
    assert forall id: nat :: id in own <==> id < |packs| && Chargeable(packs[id], customer);
    if head == None && own == {} {
      forall i | 0 <= i < |packs| ensures !Chargeable(packs[i], customer) { assert i !in own; }
    }
  }

  /** A penalty takes what it asks for, or all the pack holds. */
  lemma PenaltyEffect(st: State, head: nat, booking: Option<nat>, credits: int)
    requires head < |st.packs|
    ensures var p := st.packs[head];
      var taken := if p.remaining < credits then p.remaining else credits;
      DeductPenalty(st, Some(head), booking, credits)
      == (State(st.packs[head := p.(remaining := p.remaining - taken,
                                    status := if p.remaining == taken then UsedUp else p.status)],
                st.uses + [Use(head, booking, None, taken, Penalty)], st.moved),
          Some(Charge(head, taken)))
    ensures DeductPenalty(st, None, booking, credits) == (st, None)
  {
  }

  /** Active and used-up packs past their date expire. */
  lemma ExpiryEffect(packs: seq<Pack>, now: int)
    ensures |ExpireAll(packs, now)| == |packs|
    ensures forall id :: 0 <= id < |packs| ==>
      ExpireAll(packs, now)[id] ==
        if packs[id].validUntil != None && packs[id].validUntil.value < now
           && (packs[id].status == Active || packs[id].status == UsedUp)
        then packs[id].(status := Expired) else packs[id]
  {
  }
}
