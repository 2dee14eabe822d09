/** What credit passes and bundles share: ownership, expiry, and the order in which passes are offered for a charge. */
module Passes {
  import opened Common

  datatype Owner = Customer(id: nat) | Company(id: nat)

  datatype Status = Active | UsedUp | Expired | Suspended | RolledOver | Cancelled

  datatype Action = Consumed | Refunded | Penalty | Adjusted

  /** Who books, and what: the customer, the companies they belong to, the service and the branch. */
  datatype Visit = Visit(customer: nat, companies: set<nat>, service: nat, branch: Option<nat>, now: int)

  function Extended(validUntil: Option<int>, days: int): Option<int> {
    match validUntil
    case None => None
    case Some(t) => Some(t + days * DAY_MS)
  }

  /** A validity of zero days counts as none. */
  function ValidUntil(validFrom: int, validityDays: Option<int>): Option<int> {
    if validityDays.Some? && validityDays.value != 0 then Some(validFrom + validityDays.value * DAY_MS) else None
  }

  predicate Reachable(owner: Owner, v: Visit) {
    owner == Customer(v.customer) || (owner.Company? && owner.id in v.companies)
  }

  predicate InDate(validUntil: Option<int>, now: int) { validUntil.None? || validUntil.value > now }

  predicate BranchMatches(branches: set<nat>, v: Visit) {
    branches == {} || (v.branch.Some? && v.branch.value in branches)
  }

  predicate ExpiryNotAfter(a: Option<int>, b: Option<int>) {
    b.None? || (a.Some? && a.value <= b.value)
  }

  /** ORDER BY company ASC NULLS FIRST, valid_until ASC (nulls last). */
  predicate NotAfter(a: Owner, aUntil: Option<int>, b: Owner, bUntil: Option<int>) {
    if a.Customer? then b.Company? || ExpiryNotAfter(aUntil, bUntil)
    else b.Company? && (a.id < b.id || (a.id == b.id && ExpiryNotAfter(aUntil, bUntil)))
  }

  /** The query sorts by expiry exactly among passes of customers or of one company: otherwise there are expiries for
      which it puts the later one first. A visit has one customer, so its own passes are in order of expiry. */
  lemma ExpiryDecidesIffSameOwner(a: Owner, b: Owner)
    ensures (forall x, y :: NotAfter(a, x, b, y) <==> ExpiryNotAfter(x, y)) <==> a == b || (a.Customer? && b.Customer?)
  {
    var never, soon := None, Some(0);
    assert !ExpiryNotAfter(never, soon) && ExpiryNotAfter(soon, never);
    if a != b && !(a.Customer? && b.Customer?) {
      assert NotAfter(a, never, b, soon) || !NotAfter(a, soon, b, never);
    }
  }

  /** No owner comes before this one in the query: customers come first, then companies by id. */
  predicate OwnerNotAfter(a: Owner, b: Owner) { a.Customer? || (b.Company? && a.id <= b.id) }

  predicate Lapsed(validUntil: Option<int>, status: Status, now: int) {
    validUntil.Some? && validUntil.value < now && (status.Active? || status.UsedUp?)
  }

  // ---- The use log ----

  /** A row of a use log. Only bundles name the service; amounts of refunds are negative. */
  datatype Use = Use(pack: nat, booking: Option<nat>, service: Option<nat>, amount: int, action: Action)

  predicate IsRow(u: Use, booking: nat, action: Action) { u.booking == Some(booking) && u.action == action }

  /** The row a query for this booking and action finds. */
  function FindUse(uses: seq<Use>, booking: nat, action: Action): (found: Option<nat>)
    ensures match found
      case Some(i) => i < |uses| && IsRow(uses[i], booking, action)
      case None => forall i :: 0 <= i < |uses| ==> !IsRow(uses[i], booking, action)
  {
    if uses == [] then None
    else
      var n := |uses| - 1;
      var earlier := FindUse(uses[..n], booking, action);
      if earlier.Some? then earlier else if IsRow(uses[n], booking, action) then Some(n) else None
  }

  lemma FindSnoc(uses: seq<Use>, u: Use, booking: nat, action: Action)
    ensures FindUse(uses + [u], booking, action)
         == if FindUse(uses, booking, action).Some? then FindUse(uses, booking, action)
            else if IsRow(u, booking, action) then Some(|uses|) else None
  {
  }

  // ---- The first usable candidate ----

  function FirstIn(order: seq<nat>, usable: set<nat>): (first: Option<nat>)
    ensures first.Some? ==> first.value in order && first.value in usable
  {
    if order == [] then None
    else
      var earlier := FirstIn(order[..|order| - 1], usable);
      var id := order[|order| - 1];
      if earlier.Some? then earlier else if id in usable then Some(id) else None
  }

  /** The sort key of a pass: its owner and its expiry. */
  datatype SortKey = SortKey(owner: Owner, until: Option<int>)

  predicate KeyNotAfter(a: SortKey, b: SortKey) { NotAfter(a.owner, a.until, b.owner, b.until) }

  /** order is what the candidate query may return: all candidates, once each, sorted; ties in any order. */
  ghost predicate IsListing(order: seq<nat>, candidates: set<nat>, keys: seq<SortKey>) {
    && (forall i :: 0 <= i < |order| ==> order[i] in candidates)
    && (forall id :: id in candidates ==> id in order && id < |keys|)
    && (forall i, j :: 0 <= i < j < |order| ==>
          order[i] != order[j] && order[i] < |keys| && order[j] < |keys| && KeyNotAfter(keys[order[i]], keys[order[j]]))
  }

  lemma {:induction false} FirstInIsFirst(order: seq<nat>, usable: set<nat>)
    ensures match FirstIn(order, usable)
      case None => forall i :: 0 <= i < |order| ==> order[i] !in usable
      case Some(id) => exists k :: 0 <= k < |order| && order[k] == id && forall i :: 0 <= i < k ==> order[i] !in usable
  {
    if order != [] {
      var n := |order| - 1;
      var init := order[..n];
      FirstInIsFirst(init, usable);
      assert forall i :: 0 <= i < n ==> init[i] == order[i];
      if FirstIn(init, usable).Some? {
        var k :| 0 <= k < n && init[k] == FirstIn(init, usable).value && forall i :: 0 <= i < k ==> init[i] !in usable;
        assert order[k] == FirstIn(order, usable).value;
      } else if FirstIn(order, usable).Some? {
        assert order[n] == FirstIn(order, usable).value;
      }
    }
  }

  /** Scanning a listing finds nothing exactly when no candidate is usable, and otherwise a usable candidate that the
      query puts before every other usable candidate. */
  lemma FirstInIsOptimal(order: seq<nat>, candidates: set<nat>, usable: set<nat>, keys: seq<SortKey>)
    requires IsListing(order, candidates, keys)
    ensures match FirstIn(order, usable)
      case None => candidates !! usable
      case Some(best) =>
        && best in candidates && best in usable && best < |keys|
        && forall id :: id in candidates && id in usable && id != best ==>
             id < |keys| && KeyNotAfter(keys[best], keys[id])
  {
    FirstInIsFirst(order, usable);
    match FirstIn(order, usable)
    case None =>
    case Some(best) =>
      var k :| 0 <= k < |order| && order[k] == best && forall i :: 0 <= i < k ==> order[i] !in usable;
      forall id | id in candidates && id in usable && id != best
        ensures id < |keys| && KeyNotAfter(keys[best], keys[id])
      {
        var j :| 0 <= j < |order| && order[j] == id;
        assert k < j;
      }
  }

  /** Some pass of the set both expires no later than any other and has an owner that no other owner precedes. */
  ghost predicate SoonestRanksFirst(ids: set<nat>, keys: seq<SortKey>) {
    exists p :: p in ids && p < |keys| && forall id :: id in ids && id < |keys| ==>
      OwnerNotAfter(keys[p].owner, keys[id].owner) && ExpiryNotAfter(keys[p].until, keys[id].until)
  }

  /** The pass the query puts first expires no later than any other if and only if some pass that expires soonest has an
      owner that ranks first. */
  lemma BestExpiresFirstIff(ids: set<nat>, keys: seq<SortKey>, best: nat)
    requires best in ids && forall id :: id in ids ==> id < |keys|
    requires best < |keys| && forall id :: id in ids && id != best ==> KeyNotAfter(keys[best], keys[id])
    ensures (forall id :: id in ids ==> ExpiryNotAfter(keys[best].until, keys[id].until))
       <==> SoonestRanksFirst(ids, keys)
  {
    if forall id :: id in ids ==> ExpiryNotAfter(keys[best].until, keys[id].until) {
      forall id | id in ids ensures OwnerNotAfter(keys[best].owner, keys[id].owner) {
        assert id == best || KeyNotAfter(keys[best], keys[id]);
      }
    }
    if p :| p in ids && forall id :: id in ids ==>
      OwnerNotAfter(keys[p].owner, keys[id].owner) && ExpiryNotAfter(keys[p].until, keys[id].until)
    {
      assert p == best || KeyNotAfter(keys[best], keys[p]);
    }
  }

  lemma {:induction false} FirstInStands(order: seq<nat>, n: nat, usable: set<nat>)
    requires n <= |order| && FirstIn(order[..n], usable).Some?
    ensures FirstIn(order, usable) == FirstIn(order[..n], usable)
  {
    if n == |order| {
      assert order[..n] == order;
    } else {
      var init := order[..|order| - 1];
      assert init[..n] == order[..n];
      FirstInStands(init, n, usable);
    }
  }
}
