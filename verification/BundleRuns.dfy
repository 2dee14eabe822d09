/** Conservation of bundle pieces, service by service, over whole runs. */
module BundleRuns {
  import opened Common
  import opened Passes
  import opened BundlePacks

  /** Pieces of a service over all items: the same service may occur in several. */
  function TotalOf(items: seq<Item>, service: nat): int {
    if items == [] then 0
    else
      TotalOf(items[..|items| - 1], service)
      + if items[|items| - 1].service == service then items[|items| - 1].quantity else 0
  }

  function Logged(uses: seq<Use>, pack: nat, service: nat): int {
    if uses == [] then 0
    else
      var u := uses[|uses| - 1];
      Logged(uses[..|uses| - 1], pack, service) + if u.pack == pack && u.service == Some(service) then u.amount else 0
  }

  ghost predicate Balanced(st: State, id: nat)
    requires id < |st.packs|
  {
    forall s :: TotalOf(st.packs[id].items, s) + Logged(st.uses, id, s) == TotalOf(st.packs[id].snapshot, s)
  }

  predicate NonNegative(items: seq<Item>) { forall i :: 0 <= i < |items| ==> items[i].quantity >= 0 }

  /** The items name the services of the snapshot, in its order. */
  predicate SameServices(p: Pack) {
    |p.items| == |p.snapshot| && forall i :: 0 <= i < |p.items| ==> p.items[i].service == p.snapshot[i].service
  }

  /** A pack that can be charged, now or after it is resumed, has a piece left. */
  predicate InStock(p: Pack) { p.status.Active? || p.status.Suspended? ==> TotalRemaining(p.items) > 0 }

  predicate Sound(p: Pack) { NonNegative(p.items) && SameServices(p) && InStock(p) }

  predicate Offers(p: Pack, service: nat) { FindItem(p.items, service, false).Some? }

  ghost predicate UsesSound(st: State) {
    forall i :: 0 <= i < |st.uses| ==>
      && st.uses[i].pack < |st.packs|
      && (st.uses[i].action.Consumed? ==>
            && st.uses[i].service.Some? && st.uses[i].amount == 1
            && Offers(st.packs[st.uses[i].pack], st.uses[i].service.value))
  }

  ghost predicate Inv(st: State) {
    && (forall id :: 0 <= id < |st.packs| ==> Sound(st.packs[id]) && Balanced(st, id))
    && UsesSound(st)
  }

  lemma LoggedSnoc(uses: seq<Use>, u: Use, pack: nat, service: nat)
    ensures Logged(uses + [u], pack, service)
         == Logged(uses, pack, service) + if u.pack == pack && u.service == Some(service) then u.amount else 0
  {
  }

  lemma {:induction false} LoggedNone(uses: seq<Use>, pack: nat, service: nat)
    requires forall i :: 0 <= i < |uses| ==> uses[i].pack != pack
    ensures Logged(uses, pack, service) == 0
  {
    if uses != [] { LoggedNone(uses[..|uses| - 1], pack, service); }
  }

  lemma {:induction false} TotalOfSet(items: seq<Item>, k: nat, quantity: int, service: nat)
    requires k < |items|
    ensures TotalOf(items[k := Item(items[k].service, quantity)], service)
         == TotalOf(items, service) + if items[k].service == service then quantity - items[k].quantity else 0
  {
    var n := |items| - 1;
    var set_ := items[k := Item(items[k].service, quantity)];
    if k < n {
      assert set_[..n] == items[..n][k := Item(items[k].service, quantity)];
      TotalOfSet(items[..n], k, quantity, service);
    } else {
      assert set_[..n] == items[..n];
    }
  }

  lemma {:induction false} TotalRemainingNonNegative(items: seq<Item>)
    requires NonNegative(items)
    ensures TotalRemaining(items) >= 0
    ensures (exists i :: 0 <= i < |items| && items[i].quantity > 0) ==> TotalRemaining(items) > 0
  {
    if items != [] { TotalRemainingNonNegative(items[..|items| - 1]); }
  }

  /** Changing the quantity of one item and logging the opposite keeps the books of every service. */
  lemma QuantityChange(st: State, id: nat, k: nat, p: Pack, u: Use)
    requires Inv(st) && id < |st.packs| && k < |st.packs[id].items| && u.pack == id
    requires u.service == Some(st.packs[id].items[k].service)
    requires st.packs[id].items[k].quantity - u.amount >= 0
    requires var item := st.packs[id].items[k];
      p.items == st.packs[id].items[k := Item(item.service, item.quantity - u.amount)]
    requires p.snapshot == st.packs[id].snapshot && InStock(p)
    requires u.action.Consumed? ==> u.amount == 1
    ensures Inv(st.(packs := st.packs[id := p], uses := st.uses + [u]))
  {
    var st' := st.(packs := st.packs[id := p], uses := st.uses + [u]);
    forall j | 0 <= j < |st'.packs| ensures Sound(st'.packs[j]) && Balanced(st', j) {
      assert Sound(st.packs[j]) && Balanced(st, j);
      forall s ensures TotalOf(st'.packs[j].items, s) + Logged(st'.uses, j, s) == TotalOf(st'.packs[j].snapshot, s) {
        LoggedSnoc(st.uses, u, j, s);
        if j == id { TotalOfSet(st.packs[id].items, k, st.packs[id].items[k].quantity - u.amount, s); }
      }
    }
    OffersUnchanged(st.packs[id], p);
    assert p.items[k].service == u.service.value;
  }

  lemma OffersUnchanged(p: Pack, p': Pack)
    requires |p.items| == |p'.items| && forall i :: 0 <= i < |p.items| ==> p'.items[i].service == p.items[i].service
    ensures forall s :: Offers(p, s) ==> Offers(p', s)
  {
  }

  /** A change of status or expiry alone, with a log row that moves nothing. */
  lemma StatusChange(st: State, id: nat, p: Pack, u: Use)
    requires Inv(st) && id < |st.packs| && u.pack == id && u.service.None? && !u.action.Consumed?
    requires p.items == st.packs[id].items && p.snapshot == st.packs[id].snapshot && InStock(p)
    ensures Inv(st.(packs := st.packs[id := p], uses := st.uses + [u]))
  {
  }

  lemma DeductKeeps(st: State, order: seq<nat>, v: Visit, booking: nat)
    requires Inv(st)
    ensures Inv(Deduct(st, order, v, booking).0)
  {
    var chosen := FirstIn(order, UsableIds(st.packs, v));
    if chosen.Some? {
      var id := chosen.value;
      var p := st.packs[id];
      assert Sound(p);
      var k := FindItem(p.items, v.service, true).value;
      var items := p.items[k := Item(v.service, p.items[k].quantity - 1)];
      TotalRemainingNonNegative(items);
      QuantityChange(st, id, k, Stocked(p, items), Use(id, Some(booking), Some(v.service), 1, Consumed));
    }
  }

  lemma RefundKeeps(st: State, booking: nat)
    requires Inv(st)
    ensures Inv(Refund(st, booking).0)
  {
    var (st', r) := Refund(st, booking);
    if r.Some? {
      var u := st.uses[FindUse(st.uses, booking, Consumed).value];
      var p := st.packs[u.pack];
      assert Sound(p) && Offers(p, u.service.value);
      var k := FindItem(p.items, u.service.value, false).value;
      var items := p.items[k := Item(u.service.value, p.items[k].quantity + u.amount)];
      assert items[k].quantity > 0;
      TotalRemainingNonNegative(items);
      QuantityChange(st, u.pack, k, st'.packs[u.pack], Use(u.pack, Some(booking), u.service, -u.amount, Refunded));
    }
  }

  lemma AdjustKeeps(st: State, id: nat, change: Option<Item>, extendDays: Option<int>)
    requires Inv(st)
    ensures Inv(AdjustItem(st, id, change, extendDays).0)
  {
    var (st', r) := AdjustItem(st, id, change, extendDays);
    if r.Ok? {
      var p := st.packs[id];
      assert Sound(p);
      if change.Some? {
        var k := FindItem(p.items, change.value.service, false).value;
        TotalRemainingNonNegative(st'.packs[id].items);
        QuantityChange(st, id, k, st'.packs[id],
                       Use(id, None, Some(change.value.service), -change.value.quantity, Adjusted));
      } else {
        TotalRemainingNonNegative(p.items);
        StatusChange(st, id, st'.packs[id], Use(id, None, None, 0, Adjusted));
      }
    }
  }

  lemma SuspendKeeps(st: State, id: nat, suspend: bool)
    requires Inv(st)
    ensures Inv(SetSuspended(st, id, suspend).0)
  {
  }

  lemma AllocateKeeps(st: State, owner: Owner, template: Option<Template>, validFrom: int)
    requires Inv(st) && (template.Some? ==> ValidTemplate(template.value))
    ensures Inv(Allocate(st, owner, template, validFrom).0)
  {
    if template.Some? {
      var st' := Allocate(st, owner, template, validFrom).0;
      var n := |st.packs|;
      assert template.value.items[0].quantity > 0;
      TotalRemainingNonNegative(template.value.items);
      forall j | 0 <= j < |st'.packs| ensures Sound(st'.packs[j]) && Balanced(st', j) {
        if j < n {
          assert Sound(st.packs[j]) && Balanced(st, j);
        } else {
          forall s ensures Logged(st'.uses, n, s) == 0 { LoggedNone(st.uses, n, s); }
        }
      }
    }
  }

  lemma ExpireKeeps(st: State, now: int)
    requires Inv(st)
    ensures Inv(st.(packs := ExpireAll(st.packs, now)))
  {
  }

  // ---- Runs ----

  datatype Event =
    | DoAllocate(owner: Owner, template: Option<Template>, validFrom: int)
    | DoAdjust(id: nat, change: Option<Item>, extendDays: Option<int>)
    | DoSetSuspended(id: nat, suspend: bool)
    | DoDeduct(order: seq<nat>, visit: Visit, booking: nat)
    | DoRefund(booking: nat)
    | DoExpire(at: int)

  function Step(st: State, ev: Event): State {
    match ev
    case DoAllocate(owner, template, validFrom) => Allocate(st, owner, template, validFrom).0
    case DoAdjust(id, change, extendDays) => AdjustItem(st, id, change, extendDays).0
    case DoSetSuspended(id, suspend) => SetSuspended(st, id, suspend).0
    case DoDeduct(order, visit, booking) => Deduct(st, order, visit, booking).0
    case DoRefund(booking) => Refund(st, booking).0
    case DoExpire(at) => st.(packs := ExpireAll(st.packs, at))
  }

  function Run(events: seq<Event>): State {
    if events == [] then State([], []) else Step(Run(events[..|events| - 1]), events[|events| - 1])
  }

  /** Templates hold at least one item and only positive quantities. */
  predicate ValidTemplate(t: Template) {
    t.items != [] && forall i :: 0 <= i < |t.items| ==> t.items[i].quantity > 0
  }

  ghost predicate ValidTemplates(events: seq<Event>) {
    forall i :: 0 <= i < |events| && events[i].DoAllocate? && events[i].template.Some? ==>
      ValidTemplate(events[i].template.value)
  }

  /** In every reachable state, for every pass and service, the pieces left in all items plus the logged deductions are
      the pieces of the snapshot; no quantity is negative; a pass that can be charged has a piece left. */
  lemma {:induction false} PiecesAreConserved(events: seq<Event>)
    requires ValidTemplates(events)
    ensures Inv(Run(events))
  {
    if events != [] {
      var init, ev := events[..|events| - 1], events[|events| - 1];
      assert forall i :: 0 <= i < |init| ==> init[i] == events[i];
      PiecesAreConserved(init);
      var st := Run(init);
      match ev
      case DoAllocate(owner, template, validFrom) => AllocateKeeps(st, owner, template, validFrom);
      case DoAdjust(id, change, extendDays) => AdjustKeeps(st, id, change, extendDays);
      case DoSetSuspended(id, suspend) => SuspendKeeps(st, id, suspend);
      case DoDeduct(order, visit, booking) => DeductKeeps(st, order, visit, booking);
      case DoRefund(booking) => RefundKeeps(st, booking);
      case DoExpire(at) => ExpireKeeps(st, at);
    }
  }

  /** The defensive branch of the refund that adds a missing item is dead: in every reachable state the item to put the
      piece back into is there. */
  lemma ReAddNeverNeeded(events: seq<Event>, booking: nat)
    requires ValidTemplates(events) && Refund(Run(events), booking).1.Some?
    ensures var st := Run(events);
      var c := Refund(st, booking).1.value;
      && c.pack < |st.packs|
      && FindItem(st.packs[c.pack].items, c.service, false).Some?
      && |Refund(st, booking).0.packs[c.pack].items| == |st.packs[c.pack].items|
  {
    PiecesAreConserved(events);
  }

  /** Even when it runs, that branch keeps the count of the service. */
  lemma PutBackCounts(items: seq<Item>, service: nat, quantity: int, s: nat)
    ensures TotalOf(PutBack(items, service, quantity), s) == TotalOf(items, s) + if s == service then quantity else 0
  {
    match FindItem(items, service, false)
    case None => assert (items + [Item(service, quantity)])[..|items|] == items;
    case Some(k) => TotalOfSet(items, k, items[k].quantity + quantity, s);
  }

  // ---- Charging and refunding ----

  /** A piece is taken exactly when some reachable bundle in date has one for the service and accepts the branch, and
      then from the first such bundle in the order of the query. */
  lemma ChoiceIsOptimal(st: State, order: seq<nat>, v: Visit, booking: nat)
    requires IsListing(order, Candidates(st.packs, v), Keys(st.packs))
    ensures var r := Deduct(st, order, v, booking).1;
      && (r.None? <==> forall id :: 0 <= id < |st.packs| ==> !(Candidate(st.packs[id], v) && Usable(st.packs[id], v)))
      && (r.Some? ==> IsBest(st.packs, r.value.pack, v))
  {
    FirstInIsOptimal(order, Candidates(st.packs, v), UsableIds(st.packs, v), Keys(st.packs));
    forall id | 0 <= id < |st.packs|
      ensures Candidate(st.packs[id], v) && Usable(st.packs[id], v) ==>
        id in Candidates(st.packs, v) * UsableIds(st.packs, v)
    {
    }
  }

  ghost predicate IsBest(packs: seq<Pack>, best: nat, v: Visit) {
    && best < |packs| && Candidate(packs[best], v) && Usable(packs[best], v)
    && forall id :: 0 <= id < |packs| && id != best && Candidate(packs[id], v) && Usable(packs[id], v) ==>
         NotAfter(packs[best].owner, packs[best].validUntil, packs[id].owner, packs[id].validUntil)
  }

  predicate Eligible(p: Pack, v: Visit) { Candidate(p, v) && Usable(p, v) }

  function EligibleIds(packs: seq<Pack>, v: Visit): set<nat> { set id: nat | id < |packs| && Eligible(packs[id], v) }

  ghost predicate ExpiresFirst(packs: seq<Pack>, best: nat, v: Visit)
    requires best < |packs|
  {
    forall id :: 0 <= id < |packs| && Eligible(packs[id], v) ==>
      ExpiryNotAfter(packs[best].validUntil, packs[id].validUntil)
  }

  /** The promise that the bundle expiring first is used first holds for a visit if and only if, among the bundles that
      could be charged, one that expires soonest has an owner no other owner precedes: the customer, or, without an own
      bundle, the company with the least id. It holds whenever all of them have one owner. */
  lemma ExpiresFirstIff(st: State, order: seq<nat>, v: Visit, booking: nat)
    requires IsListing(order, Candidates(st.packs, v), Keys(st.packs)) && Deduct(st, order, v, booking).1.Some?
    ensures var best := Deduct(st, order, v, booking).1.value.pack;
      && best < |st.packs|
      && (ExpiresFirst(st.packs, best, v) <==> SoonestRanksFirst(EligibleIds(st.packs, v), Keys(st.packs)))
      && ((forall id :: 0 <= id < |st.packs| && Eligible(st.packs[id], v) ==>
             st.packs[id].owner == st.packs[best].owner)
          ==> ExpiresFirst(st.packs, best, v))
  {
    ChoiceIsOptimal(st, order, v, booking);
    var best, keys := Deduct(st, order, v, booking).1.value.pack, Keys(st.packs);
    forall id | id in EligibleIds(st.packs, v) && id != best ensures KeyNotAfter(keys[best], keys[id]) {
      assert Eligible(st.packs[id], v);
    }
    BestExpiresFirstIff(EligibleIds(st.packs, v), keys, best);
    assert forall id :: id in EligibleIds(st.packs, v) <==> 0 <= id < |st.packs| && Eligible(st.packs[id], v);
  }

  /** An own bundle that never expires, and a company's that expires at the given time, with one piece each. */
  function OwnAndCompany(until: int): seq<Pack> {
    [Pack(Customer(1), [Item(9, 1)], [Item(9, 1)], {}, None, Active),
     Pack(Company(5), [Item(9, 1)], [Item(9, 1)], {}, Some(until), Active)]
  }

  /** The own bundle that never expires is charged although the company's expires sooner, on the only listing. */
  lemma LaterExpiryCharged(booking: nat)
    ensures var st := State(OwnAndCompany(100), []);
      var v := Visit(1, {5}, 9, None, 0);
      && IsListing([0, 1], Candidates(st.packs, v), Keys(st.packs))
      && Deduct(st, [0, 1], v, booking).1 == Some(Charge(0, 9, 1))
      && Eligible(st.packs[1], v) && !ExpiryNotAfter(st.packs[0].validUntil, st.packs[1].validUntil)
  {
    var st := State(OwnAndCompany(100), []);
    var v := Visit(1, {5}, 9, None, 0);
    var items := [Item(9, 1)];
    assert items[..0] == [] && FindItem(items, 9, true) == Some(0);
    assert Usable(st.packs[0], v);
    assert [0, 1][..1] == [0] && [0][..0] == [];
    assert FirstIn([0], UsableIds(st.packs, v)) == Some(0);
  }

  /** A second refund of a booking does nothing, and no refund lifts a suspension. */
  lemma RefundIsIdempotent(st: State, booking: nat)
    ensures var st' := Refund(st, booking).0;
      && Refund(st', booking) == (st', None)
      && |st'.packs| == |st.packs|
      && (forall id :: 0 <= id < |st.packs| && !st.packs[id].status.UsedUp? ==>
            st'.packs[id].status == st.packs[id].status)
  {
  }
}
