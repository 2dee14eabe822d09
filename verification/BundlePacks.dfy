/** Bundle passes: an array of (service, quantity) items per pass and an append-only use log. */
module BundlePacks {
  import opened Common
  import opened Passes

  datatype Item = Item(service: nat, quantity: int)

  datatype Pack = Pack(
    owner: Owner,
    items: seq<Item>,
    snapshot: seq<Item>,
    branches: set<nat>,
    validUntil: Option<int>,
    status: Status)

  datatype Template = Template(items: seq<Item>, branches: set<nat>, validityDays: Option<int>)

  datatype State = State(packs: seq<Pack>, uses: seq<Use>)

  datatype Error =
    | PackNotFound | AllocationNotFound | ItemNotInBundle | NegativeQuantity | NoExpiryToExtend
    | NotSuspendable | NotSuspended

  datatype Result<+T> = Ok(value: T) | Failed(error: Error)

  datatype Charge = Charge(pack: nat, service: nat, quantity: int)

  function TotalRemaining(items: seq<Item>): int {
    if items == [] then 0 else TotalRemaining(items[..|items| - 1]) + items[|items| - 1].quantity
  }

  /** First item of the service; with stocked only one that has a piece left. */
  function FindItem(items: seq<Item>, service: nat, stocked: bool): (found: Option<nat>)
    ensures match found
      case Some(i) => i < |items| && items[i].service == service && (stocked ==> items[i].quantity > 0)
      case None => forall i :: 0 <= i < |items| && items[i].service == service ==> stocked && items[i].quantity <= 0
  {
    if items == [] then None
    else
      var n := |items| - 1;
      var earlier := FindItem(items[..n], service, stocked);
      if earlier.Some? then earlier
      else if items[n].service == service && (!stocked || items[n].quantity > 0) then Some(n)
      else None
  }

  function Sold(owner: Owner, t: Template, validFrom: int): Pack {
    Pack(owner, t.items, t.items, t.branches, ValidUntil(validFrom, t.validityDays), Active)
  }

  function Allocate(st: State, owner: Owner, template: Option<Template>, validFrom: int): (State, Result<nat>) {
    if template.None? then (st, Failed(PackNotFound))
    else (st.(packs := st.packs + [Sold(owner, template.value, validFrom)]), Ok(|st.packs|))
  }

  function Stocked(p: Pack, items: seq<Item>): Pack {
    p.(items := items, status := if TotalRemaining(items) == 0 then UsedUp else p.status)
  }

  /** change is the (service, quantity delta) pair of the request, if it carries one. */
  function AdjustItem(st: State, id: nat, change: Option<Item>, extendDays: Option<int>): (State, Result<nat>) {
    if id >= |st.packs| then (st, Failed(AllocationNotFound))
    else
      var p := st.packs[id];
      var idx := if change.Some? then FindItem(p.items, change.value.service, false) else None;
      var extend := match extendDays case Some(d) => d case None => 0;
      if change.Some? && idx.None? then (st, Failed(ItemNotInBundle))
      else if change.Some? && p.items[idx.value].quantity + change.value.quantity < 0
      then (st, Failed(NegativeQuantity))
      else if extend != 0 && p.validUntil.None? then (st, Failed(NoExpiryToExtend))
      else
        var items :=
          if change.Some?
          then p.items[idx.value := Item(change.value.service, p.items[idx.value].quantity + change.value.quantity)]
          else p.items;
        var until := if extend != 0 then Extended(p.validUntil, extend) else p.validUntil;
        var logged :=
          if change.Some? then Use(id, None, Some(change.value.service), -change.value.quantity, Adjusted)
          else Use(id, None, None, 0, Adjusted);
        (st.(packs := st.packs[id := Stocked(p, items).(validUntil := until)], uses := st.uses + [logged]), Ok(id))
  }

  function SetSuspended(st: State, id: nat, suspend: bool): (State, Result<nat>) {
    if id >= |st.packs| then (st, Failed(AllocationNotFound))
    else if suspend && !st.packs[id].status.Active? then (st, Failed(NotSuspendable))
    else if !suspend && !st.packs[id].status.Suspended? then (st, Failed(NotSuspended))
    else
      (st.(packs := st.packs[id := st.packs[id].(status := if suspend then Suspended else Active)],
           uses := st.uses + [Use(id, None, None, 0, Adjusted)]),
       Ok(id))
  }

  predicate Candidate(p: Pack, v: Visit) {
    Reachable(p.owner, v) && p.status.Active? && InDate(p.validUntil, v.now)
  }

  predicate Usable(p: Pack, v: Visit) {
    FindItem(p.items, v.service, true).Some? && BranchMatches(p.branches, v)
  }

  function Keys(packs: seq<Pack>): seq<SortKey> {
    seq(|packs|, i requires 0 <= i < |packs| => SortKey(packs[i].owner, packs[i].validUntil))
  }

  function Candidates(packs: seq<Pack>, v: Visit): set<nat> { set id: nat | id < |packs| && Candidate(packs[id], v) }

  function UsableIds(packs: seq<Pack>, v: Visit): set<nat> { set id: nat | id < |packs| && Usable(packs[id], v) }

  function Deduct(st: State, order: seq<nat>, v: Visit, booking: nat): (State, Option<Charge>) {
    match FirstIn(order, UsableIds(st.packs, v))
    case None => (st, None)
    case Some(id) =>
      var p := st.packs[id];
      var idx := FindItem(p.items, v.service, true).value;
      (st.(packs := st.packs[id := Stocked(p, p.items[idx := Item(v.service, p.items[idx].quantity - 1)])],
           uses := st.uses + [Use(id, Some(booking), Some(v.service), 1, Consumed)]),
       Some(Charge(id, v.service, 1)))
  }

  /** Back into the first item of the service, or a new item when there is none. */
  function PutBack(items: seq<Item>, service: nat, quantity: int): seq<Item> {
    match FindItem(items, service, false)
    case None => items + [Item(service, quantity)]
    case Some(i) => items[i := Item(service, items[i].quantity + quantity)]
  }

  function Refund(st: State, booking: nat): (State, Option<Charge>) {
    var original := FindUse(st.uses, booking, Consumed);
    if original.None? || st.uses[original.value].service.None? then (st, None)
    else if FindUse(st.uses, booking, Refunded).Some? then (st, None)
    else if st.uses[original.value].pack >= |st.packs| then (st, None)
    else
      var u := st.uses[original.value];
      var p := st.packs[u.pack];
      (st.(packs := st.packs[u.pack := p.(
             items := PutBack(p.items, u.service.value, u.amount),
             status := if p.status.UsedUp? then Active else p.status)],
           uses := st.uses + [Use(u.pack, Some(booking), u.service, -u.amount, Refunded)]),
       Some(Charge(u.pack, u.service.value, u.amount)))
  }

  function ExpireAll(packs: seq<Pack>, now: int): seq<Pack> {
    seq(|packs|, i requires 0 <= i < |packs| =>
      if Lapsed(packs[i].validUntil, packs[i].status, now) then packs[i].(status := Expired) else packs[i])
  }
}
