/** Credit passes: balances, the append-only use log, rollover, and the choice of the pass to charge. */
module CreditPacks {
  import opened Common
  import opened Passes

  datatype Mode = PerVisit | PerCredit

  datatype Pack = Pack(
    owner: Owner,
    remaining: int,
    atPurchase: int,
    mode: Mode,
    services: set<nat>,
    branches: set<nat>,
    costs: map<nat, int>,
    validUntil: Option<int>,
    status: Status)

  datatype Template = Template(
    total: int, mode: Mode, services: set<nat>, branches: set<nat>, costs: map<nat, int>, validityDays: Option<int>)

  datatype Policy = Policy(enabled: bool, unlimited: bool, maxCredits: int, extendDays: int)

  /** moved is a history variable: the credits each pack gave up to rollovers. */
  datatype State = State(packs: seq<Pack>, uses: seq<Use>, moved: seq<int>)

  datatype Error =
    | PackNotFound | AllocationNotFound | NegativeCredits | NoExpiryToExtend | NotSuspendable | NotSuspended

  datatype Result<+T> = Ok(value: T) | Failed(error: Error)

  datatype Charge = Charge(pack: nat, credits: int)

  // ---- Selling and rolling over ----

  function Sold(owner: Owner, t: Template, validFrom: int): Pack {
    var until := ValidUntil(validFrom, t.validityDays);
    Pack(owner, t.total, t.total, t.mode, t.services, t.branches, t.costs, until, Active)
  }

  /** An expired pack of the customer with credits left. */
  predicate IsSource(p: Pack, customer: nat, now: int) {
    && p.owner == Customer(customer) && p.status.Active? && p.remaining > 0
    && p.validUntil.Some? && p.validUntil.value < now
  }

  function Unused(packs: seq<Pack>, customer: nat, now: int): int {
    if packs == [] then 0
    else
      var p := packs[|packs| - 1];
      Unused(packs[..|packs| - 1], customer, now) + if IsSource(p, customer, now) then p.remaining else 0
  }

  function Carried(policy: Policy, unused: int): int {
    if !policy.enabled || unused <= 0 then 0
    else Max(0, if policy.unlimited then unused else Min(unused, policy.maxCredits))
  }

  /** The new pack is the last one; the sources are among the earlier ones. */
  function RollOver(st: State, customer: nat, now: int, policy: Policy): State
    requires st.packs != [] && |st.moved| == |st.packs|
  {
    var n := |st.packs| - 1;
    var credits := Carried(policy, Unused(st.packs[..n], customer, now));
    if credits <= 0 then st
    else
      var p := st.packs[n];
      var topped := p.(
        remaining := p.remaining + credits,
        atPurchase := p.atPurchase + credits,
        validUntil := if policy.extendDays > 0 then Extended(p.validUntil, policy.extendDays) else p.validUntil);
      st.(packs := CloseSources(st.packs[..n], customer, now) + [topped],
          moved := MoveOut(st.packs[..n], st.moved[..n], customer, now) + [st.moved[n]])
  }

  function CloseSources(packs: seq<Pack>, customer: nat, now: int): seq<Pack> {
    seq(|packs|, i requires 0 <= i < |packs| =>
      if IsSource(packs[i], customer, now) then packs[i].(remaining := 0, status := RolledOver) else packs[i])
  }

  function MoveOut(packs: seq<Pack>, moved: seq<int>, customer: nat, now: int): seq<int>
    requires |moved| == |packs|
  {
    seq(|packs|, i requires 0 <= i < |packs| =>
      moved[i] + if IsSource(packs[i], customer, now) then packs[i].remaining else 0)
  }

  function Allocate(st: State, owner: Owner, template: Option<Template>, validFrom: int, now: int, policy: Policy)
    : (State, Result<nat>)
    requires |st.moved| == |st.packs|
  {
    if template.None? then (st, Failed(PackNotFound))
    else
      var st' := st.(packs := st.packs + [Sold(owner, template.value, validFrom)], moved := st.moved + [0]);
      (if owner.Customer? then RollOver(st', owner.id, now, policy) else st', Ok(|st.packs|))
  }

  // ---- Manual changes ----

  function Spent(p: Pack, remaining: int): Pack {
    p.(remaining := remaining, status := if remaining == 0 then UsedUp else p.status)
  }

  function Adjust(st: State, id: nat, creditsDelta: Option<int>, extendDays: Option<int>): (State, Result<int>) {
    if id >= |st.packs| then (st, Failed(AllocationNotFound))
    else
      var p := st.packs[id];
      var delta := match creditsDelta case Some(d) => d case None => 0;
      var extend := match extendDays case Some(d) => d case None => 0;
      if p.remaining + delta < 0 then (st, Failed(NegativeCredits))
      else if extend != 0 && p.validUntil.None? then (st, Failed(NoExpiryToExtend))
      else
        var until := if extend != 0 then Extended(p.validUntil, extend) else p.validUntil;
        (st.(packs := st.packs[id := Spent(p, p.remaining + delta).(validUntil := until)],
             uses := st.uses + [Use(id, None, None, -delta, Adjusted)]),
         Ok(p.remaining + delta))
  }

  function SetSuspended(st: State, id: nat, suspend: bool): (State, Result<nat>) {
    if id >= |st.packs| then (st, Failed(AllocationNotFound))
    else if suspend && !st.packs[id].status.Active? then (st, Failed(NotSuspendable))
    else if !suspend && !st.packs[id].status.Suspended? then (st, Failed(NotSuspended))
    else
      (st.(packs := st.packs[id := st.packs[id].(status := if suspend then Suspended else Active)],
           uses := st.uses + [Use(id, None, None, 0, Adjusted)]),
       Ok(id))
  }

  // ---- Charging a booking ----

  /** The WHERE clause of the candidate query. */
  predicate Candidate(p: Pack, v: Visit) {
    Reachable(p.owner, v) && p.status.Active? && p.remaining > 0 && InDate(p.validUntil, v.now)
  }

  function Cost(p: Pack, service: nat): int {
    if p.mode.PerCredit? && service in p.costs then p.costs[service] else 1
  }

  /** The pack accepts the service and the branch and can afford the cost. */
  predicate Usable(p: Pack, v: Visit) {
    && (p.services == {} || v.service in p.services)
    && BranchMatches(p.branches, v)
    && p.remaining >= Cost(p, v.service)
  }

  function Keys(packs: seq<Pack>): seq<SortKey> {
    seq(|packs|, i requires 0 <= i < |packs| => SortKey(packs[i].owner, packs[i].validUntil))
  }

  function Candidates(packs: seq<Pack>, v: Visit): set<nat> { set id: nat | id < |packs| && Candidate(packs[id], v) }

  function UsableIds(packs: seq<Pack>, v: Visit): set<nat> { set id: nat | id < |packs| && Usable(packs[id], v) }

  function Deduct(st: State, order: seq<nat>, v: Visit, booking: nat): (State, Option<Charge>) {
    match FirstIn(order, UsableIds(st.packs, v))
    case None => (st, None)
    case Some(id) =>
      var cost := Cost(st.packs[id], v.service);
      (st.(packs := st.packs[id := Spent(st.packs[id], st.packs[id].remaining - cost)],
           uses := st.uses + [Use(id, Some(booking), None, cost, Consumed)]),
       Some(Charge(id, cost)))
  }

  function Refund(st: State, booking: nat, now: int): (State, Option<Charge>) {
    var original := FindUse(st.uses, booking, Consumed);
    if original.None? || FindUse(st.uses, booking, Refunded).Some? then (st, None)
    else if st.uses[original.value].pack >= |st.packs| then (st, None)
    else
      var u := st.uses[original.value];
      var p := st.packs[u.pack];
      var isExpired := p.validUntil.Some? && p.validUntil.value <= now;
      (st.(packs := st.packs[u.pack := p.(
             remaining := p.remaining + u.amount,
             status := if !isExpired && p.status.UsedUp? then Active else p.status)],
           uses := st.uses + [Use(u.pack, Some(booking), None, -u.amount, Refunded)]),
       Some(Charge(u.pack, u.amount)))
  }

  /** head is the pack the penalty query returns. */
  predicate IsPenaltyHead(packs: seq<Pack>, customer: nat, head: Option<nat>) {
    match head
    case None => forall i :: 0 <= i < |packs| ==> !Chargeable(packs[i], customer)
    case Some(h) =>
      && h < |packs| && Chargeable(packs[h], customer)
      && forall i :: 0 <= i < |packs| && Chargeable(packs[i], customer) ==>
           ExpiryNotAfter(packs[h].validUntil, packs[i].validUntil)
  }

  predicate Chargeable(p: Pack, customer: nat) {
    p.owner == Customer(customer) && p.status.Active? && p.remaining > 0
  }

  function DeductPenalty(st: State, head: Option<nat>, booking: Option<nat>, credits: int): (State, Option<Charge>) {
    if head.None? || head.value >= |st.packs| then (st, None)
    else
      var p := st.packs[head.value];
      var toDeduct := Min(credits, p.remaining);
      (st.(packs := st.packs[head.value := Spent(p, p.remaining - toDeduct)],
           uses := st.uses + [Use(head.value, booking, None, toDeduct, Penalty)]),
       Some(Charge(head.value, toDeduct)))
  }

  function ExpireAll(packs: seq<Pack>, now: int): seq<Pack> {
    seq(|packs|, i requires 0 <= i < |packs| =>
      if Lapsed(packs[i].validUntil, packs[i].status, now) then packs[i].(status := Expired) else packs[i])
  }
}
