/** The service that updates the bundles in place, each call proved equal to its operation on values. */
module BundleService {
  import opened Common
  import opened Passes
  import opened BundlePacks

  class BundleTables {
    var packs: seq<Pack>
    var uses: seq<Use>

    ghost function Contents(): State
      reads this
    {
      State(packs, uses)
    }

    constructor ()
      ensures Contents() == State([], [])
    {
      packs, uses := [], [];
    }

    method Sell(owner: Owner, template: Option<Template>, validFrom: int) returns (r: Result<nat>)
      modifies this
      ensures (Contents(), r) == Allocate(old(Contents()), owner, template, validFrom)
    {
      if template.None? { return Failed(PackNotFound); }
      packs := packs + [Sold(owner, template.value, validFrom)];
      return Ok(|packs| - 1);
    }

    method Adjust(id: nat, change: Option<Item>, extendDays: Option<int>) returns (r: Result<nat>)
      modifies this
      ensures (Contents(), r) == AdjustItem(old(Contents()), id, change, extendDays)
    {
      if id >= |packs| { return Failed(AllocationNotFound); }
      var alloc := packs[id];
      var items := alloc.items;
      var auditService: Option<nat> := None;
      var quantityDelta := 0;
      if change.Some? {
        var idx := FindItem(items, change.value.service, false);
        if idx.None? { return Failed(ItemNotInBundle); }
        var newQuantity := items[idx.value].quantity + change.value.quantity;
        if newQuantity < 0 { return Failed(NegativeQuantity); }
        items := items[idx.value := Item(change.value.service, newQuantity)];
        auditService := Some(change.value.service);
        quantityDelta := change.value.quantity;
      }
      var newValidUntil := alloc.validUntil;
      if extendDays.Some? && extendDays.value != 0 {
        if alloc.validUntil.None? { return Failed(NoExpiryToExtend); }
        newValidUntil := Some(alloc.validUntil.value + extendDays.value * DAY_MS);
      }
      var newStatus := if TotalRemaining(items) == 0 then UsedUp else alloc.status;
      packs := packs[id := alloc.(items := items, status := newStatus, validUntil := newValidUntil)];
      uses := uses + [Use(id, None, auditService, -quantityDelta, Adjusted)];
      return Ok(id);
    }

    method SetStatus(id: nat, suspend: bool) returns (r: Result<nat>)
      modifies this
      ensures (Contents(), r) == SetSuspended(old(Contents()), id, suspend)
    {
      if id >= |packs| { return Failed(AllocationNotFound); }
      if suspend && !packs[id].status.Active? { return Failed(NotSuspendable); }
      if !suspend && !packs[id].status.Suspended? { return Failed(NotSuspended); }
      packs := packs[id := packs[id].(status := if suspend then Suspended else Active)];
      uses := uses + [Use(id, None, None, 0, Adjusted)];
      return Ok(id);
    }

    /** The candidate loop: the first bundle with a piece for the service and a matching branch. */
    method FirstUsable(v: Visit, candidates: seq<nat>) returns (found: Option<nat>)
      requires forall i :: 0 <= i < |candidates| ==> candidates[i] < |packs|
      ensures found == FirstIn(candidates, UsableIds(packs, v))
      ensures found.Some? ==> found.value < |packs| && Usable(packs[found.value], v)
    {
      for n := 0 to |candidates|
        invariant FirstIn(candidates[..n], UsableIds(packs, v)).None?
      {
        assert candidates[..n + 1][..n] == candidates[..n];
        var alloc := packs[candidates[n]];
        var idx := FindItem(alloc.items, v.service, true);
        if idx.None? { continue; }
        var branchMatch := alloc.branches == {} || (v.branch.Some? && v.branch.value in alloc.branches);
        if !branchMatch { continue; }
        FirstInStands(candidates, n + 1, UsableIds(packs, v));
        return Some(candidates[n]);
      }
      assert candidates[..|candidates|] == candidates;
      return None;
    }

    /** candidates is the answer of the candidate query. */
    method DeductForBooking(v: Visit, candidates: seq<nat>, booking: nat) returns (r: Option<Charge>)
      requires IsListing(candidates, Candidates(packs, v), Keys(packs))
      modifies this
      ensures (Contents(), r) == Deduct(old(Contents()), candidates, v, booking)
    {
      assert forall i :: 0 <= i < |candidates| ==> candidates[i] in Candidates(packs, v);
      var found := FirstUsable(v, candidates);
      if found.None? { return None; }
      var id := found.value;
      var alloc := packs[id];
      var idx := FindItem(alloc.items, v.service, true).value;
      var items := alloc.items[idx := Item(v.service, alloc.items[idx].quantity - 1)];
      var status := if TotalRemaining(items) == 0 then UsedUp else alloc.status;
      packs := packs[id := alloc.(items := items, status := status)];
      uses := uses + [Use(id, Some(booking), Some(v.service), 1, Consumed)];
      return Some(Charge(id, v.service, 1));
    }

    method RefundForBooking(booking: nat) returns (r: Option<Charge>)
      modifies this
      ensures (Contents(), r) == Refund(old(Contents()), booking)
    {
      var original := FindUse(uses, booking, Consumed);
      if original.None? { return None; }
      var u := uses[original.value];
      if u.service.None? { return None; }
      var existing := FindUse(uses, booking, Refunded);
      if existing.Some? { return None; }
      if u.pack >= |packs| { return None; }
      var alloc := packs[u.pack];
      var items := alloc.items;
      var idx := FindItem(items, u.service.value, false);
      if idx.None? {
        items := items + [Item(u.service.value, u.amount)];
      } else {
        items := items[idx.value := Item(u.service.value, items[idx.value].quantity + u.amount)];
      }
      packs := packs[u.pack := alloc.(items := items, status := if alloc.status.UsedUp? then Active else alloc.status)];
      uses := uses + [Use(u.pack, Some(booking), u.service, -u.amount, Refunded)];
      return Some(Charge(u.pack, u.service.value, u.amount));
    }

    /** Exactly the active and used-up bundles past their date become expired; nothing else changes, and no active or
        used-up one past its date is left. */
    method ExpireOverdue(now: int)
      modifies this`packs
      ensures |packs| == |old(packs)|
      ensures forall id :: 0 <= id < |packs| ==>
        packs[id] == if Lapsed(old(packs)[id].validUntil, old(packs)[id].status, now)
                     then old(packs)[id].(status := Expired) else old(packs)[id]
      ensures forall id :: 0 <= id < |packs| && (packs[id].status.Active? || packs[id].status.UsedUp?) ==>
        packs[id].validUntil.None? || packs[id].validUntil.value >= now
    {
      packs := ExpireAll(packs, now);
    }
  }
}
