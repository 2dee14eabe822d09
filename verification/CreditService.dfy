/** The service that updates the credit passes in place, each call proved equal to its operation on values. */
module CreditService {
  import opened Common
  import opened Passes
  import opened CreditPacks

  class CreditTables {
    var packs: seq<Pack>
    var uses: seq<Use>
    ghost var moved: seq<int>

    ghost predicate Valid()
      reads this
    {
      |moved| == |packs|
    }

    ghost function Contents(): State
      reads this
    {
      State(packs, uses, moved)
    }

    constructor ()
      ensures Valid() && Contents() == State([], [], [])
    {
      packs, uses, moved := [], [], [];
    }

    /** Moves the credits of the customer's expired packs to the pack sold last. */
    method ApplyRollover(customer: nat, now: int, policy: Policy)
      requires Valid() && packs != []
      modifies this
      ensures Valid() && Contents() == RollOver(old(Contents()), customer, now, policy)
    {
      if !policy.enabled { return; }
      var n := |packs| - 1;
      var unused := 0;
      for i := 0 to n
        invariant unused == Unused(packs[..i], customer, now)
      {
        assert packs[..i + 1][..i] == packs[..i];
        if IsSource(packs[i], customer, now) {
          unused := unused + packs[i].remaining;
        }
      }
      var credits := Carried(policy, unused);
      if credits <= 0 { return; }
      var p := packs[n];
      var topped := p.(
        remaining := p.remaining + credits,
        atPurchase := p.atPurchase + credits,
        validUntil := if policy.extendDays > 0 then Extended(p.validUntil, policy.extendDays) else p.validUntil);
      moved := MoveOut(packs[..n], moved[..n], customer, now) + [moved[n]];
      packs := CloseSources(packs[..n], customer, now) + [topped];
    }

    method Sell(owner: Owner, template: Option<Template>, validFrom: int, now: int, policy: Policy)
      returns (r: Result<nat>)
      requires Valid()
      modifies this
      ensures Valid() && (Contents(), r) == Allocate(old(Contents()), owner, template, validFrom, now, policy)
    {
      if template.None? { return Failed(PackNotFound); }
      var id := |packs|;
      packs := packs + [Sold(owner, template.value, validFrom)];
      moved := moved + [0];
      if owner.Customer? {
        ApplyRollover(owner.id, now, policy);
      }
      return Ok(id);
    }

    method AdjustCredits(id: nat, creditsDelta: Option<int>, extendDays: Option<int>) returns (r: Result<int>)
      requires Valid()
      modifies this
      ensures Valid() && (Contents(), r) == Adjust(old(Contents()), id, creditsDelta, extendDays)
    {
      if id >= |packs| { return Failed(AllocationNotFound); }
      var p := packs[id];
      var delta := match creditsDelta case Some(d) => d case None => 0;
      var newRemaining := p.remaining + delta;
      if newRemaining < 0 { return Failed(NegativeCredits); }
      var newValidUntil := p.validUntil;
      if extendDays.Some? && extendDays.value != 0 {
        if p.validUntil.None? { return Failed(NoExpiryToExtend); }
        newValidUntil := Some(p.validUntil.value + extendDays.value * DAY_MS);
      }
      packs := packs[id := p.(remaining := newRemaining, validUntil := newValidUntil,
                              status := if newRemaining == 0 then UsedUp else p.status)];
      uses := uses + [Use(id, None, None, -delta, Adjusted)];
      return Ok(newRemaining);
    }

    method SetStatus(id: nat, suspend: bool) returns (r: Result<nat>)
      requires Valid()
      modifies this
      ensures Valid() && (Contents(), r) == SetSuspended(old(Contents()), id, suspend)
    {
      if id >= |packs| { return Failed(AllocationNotFound); }
      if suspend && !packs[id].status.Active? { return Failed(NotSuspendable); }
      if !suspend && !packs[id].status.Suspended? { return Failed(NotSuspended); }
      packs := packs[id := packs[id].(status := if suspend then Suspended else Active)];
      uses := uses + [Use(id, None, None, 0, Adjusted)];
      return Ok(id);
    }

    /** The candidate loop: skips packs that do not match or cannot afford the cost. */
    method FirstUsable(ghost v: Visit, candidates: seq<nat>, service: nat, branch: Option<nat>)
      returns (found: Option<Charge>)
      requires forall i :: 0 <= i < |candidates| ==> candidates[i] < |packs|
      requires service == v.service && branch == v.branch
      ensures match FirstIn(candidates, UsableIds(packs, v))
        case None => found.None?
        case Some(id) => found == Some(Charge(id, Cost(packs[id], service)))
    {
      for n := 0 to |candidates|
        invariant FirstIn(candidates[..n], UsableIds(packs, v)).None?
      {
        assert candidates[..n + 1][..n] == candidates[..n];
        var alloc := packs[candidates[n]];
        var serviceMatch := alloc.services == {} || service in alloc.services;
        var branchMatch := alloc.branches == {} || (branch.Some? && branch.value in alloc.branches);
        if !serviceMatch || !branchMatch { continue; }
        var cost := 1;
        if alloc.mode.PerCredit? && service in alloc.costs {
          cost := alloc.costs[service];
        }
        if alloc.remaining < cost { continue; }
        FirstInStands(candidates, n + 1, UsableIds(packs, v));
        return Some(Charge(candidates[n], cost));
      }
      assert candidates[..|candidates|] == candidates;
      return None;
    }

    /** candidates is the row-locked answer of the candidate query. */
    method DeductForBooking(ghost v: Visit, candidates: seq<nat>, service: nat, branch: Option<nat>, booking: nat)
      returns (r: Option<Charge>)
      requires Valid() && IsListing(candidates, Candidates(packs, v), Keys(packs))
      requires service == v.service && branch == v.branch
      modifies this
      ensures Valid() && (Contents(), r) == Deduct(old(Contents()), candidates, v, booking)
    {
      r := FirstUsable(v, candidates, service, branch);
      if r.None? { return; }
      var alloc := packs[r.value.pack];
      var newRemaining := alloc.remaining - r.value.credits;
      packs := packs[r.value.pack := alloc.(remaining := newRemaining,
                                            status := if newRemaining == 0 then UsedUp else alloc.status)];
      uses := uses + [Use(r.value.pack, Some(booking), None, r.value.credits, Consumed)];
    }

    method RefundForBooking(booking: nat, now: int) returns (r: Option<Charge>)
      requires Valid()
      modifies this
      ensures Valid() && (Contents(), r) == Refund(old(Contents()), booking, now)
    {
      var original := FindUse(uses, booking, Consumed);
      if original.None? { return None; }
      var existing := FindUse(uses, booking, Refunded);
      if existing.Some? { return None; }
      var u := uses[original.value];
      if u.pack >= |packs| { return None; }
      var alloc := packs[u.pack];
      var isExpired := alloc.validUntil.Some? && alloc.validUntil.value <= now;
      var keepStatus := isExpired || !alloc.status.UsedUp?;
      packs := packs[u.pack := alloc.(remaining := alloc.remaining + u.amount,
                                      status := if keepStatus then alloc.status else Active)];
      uses := uses + [Use(u.pack, Some(booking), None, -u.amount, Refunded)];
      return Some(Charge(u.pack, u.amount));
    }

    method ChargePenalty(customer: nat, head: Option<nat>, booking: Option<nat>, credits: int)
      returns (r: Option<Charge>)
      requires Valid() && IsPenaltyHead(packs, customer, head)
      modifies this
      ensures Valid() && (Contents(), r) == DeductPenalty(old(Contents()), head, booking, credits)
    {
      if head.None? { return None; }
      var alloc := packs[head.value];
      var toDeduct := if credits < alloc.remaining then credits else alloc.remaining;
      var newRemaining := alloc.remaining - toDeduct;
      packs := packs[head.value := alloc.(remaining := newRemaining,
                                          status := if newRemaining == 0 then UsedUp else alloc.status)];
      uses := uses + [Use(head.value, booking, None, toDeduct, Penalty)];
      return Some(Charge(head.value, toDeduct));
    }

    /** Exactly the active and used-up packs past their date become expired; nothing else changes, and no active or
        used-up one past its date is left. */
    method ExpireOverdue(now: int)
      requires Valid()
      modifies this`packs
      ensures |packs| == |old(packs)|
      ensures forall id :: 0 <= id < |packs| ==>
        packs[id] == if Lapsed(old(packs)[id].validUntil, old(packs)[id].status, now)
                     then old(packs)[id].(status := Expired) else old(packs)[id]
      ensures forall id :: 0 <= id < |packs| && (packs[id].status.Active? || packs[id].status.UsedUp?) ==>
        packs[id].validUntil.None? || packs[id].validUntil.value >= now
    {
      packs := ExpireAll(packs, now);
    }
  }
}
