/** Loyalty points: an append-only log, its balance, and the tiers reached by the points ever earned. */
module Loyalty {
  import opened Common

  datatype Kind = EarnBooking | Redeem | AdminAdjust | Referral

  datatype Entry = Entry(customer: nat, points: int, kind: Kind, booking: Option<nat>)

  datatype Error = InvalidPoints | InsufficientPoints | NegativeBalance | RewardNotFound

  datatype Result = Ok(balance: int) | Failed(error: Error)

  datatype Tier = Tier(minPoints: int, name: string)

  datatype Reward = Reward(id: nat, name: string, cost: int)

  datatype Redemption = Redemption(customer: nat, reward: Reward, code: string)

  datatype State = State(log: seq<Entry>, redemptions: seq<Redemption>)

  function Balance(log: seq<Entry>, customer: nat): int {
    if log == [] then 0
    else Balance(log[..|log| - 1], customer) + if log[|log| - 1].customer == customer then log[|log| - 1].points else 0
  }

  function LifetimeEarned(log: seq<Entry>, customer: nat): int {
    if log == [] then 0
    else
      var e := log[|log| - 1];
      LifetimeEarned(log[..|log| - 1], customer) + if e.customer == customer && e.points > 0 then e.points else 0
  }

  predicate IsEarnFor(e: Entry, booking: nat) { e.kind.EarnBooking? && e.booking == Some(booking) }

  function Award(log: seq<Entry>, enabled: bool, perBooking: int, customer: nat, booking: nat): seq<Entry> {
    if !enabled || perBooking <= 0 then log
    else if exists i :: 0 <= i < |log| && IsEarnFor(log[i], booking) then log
    else log + [Entry(customer, perBooking, EarnBooking, Some(booking))]
  }

  function RedeemPoints(log: seq<Entry>, customer: nat, points: int): (seq<Entry>, Result) {
    if points <= 0 then (log, Failed(InvalidPoints))
    else Spend(log, customer, points)
  }

  function Spend(log: seq<Entry>, customer: nat, points: int): (seq<Entry>, Result) {
    var balance := Balance(log, customer);
    if balance < points then (log, Failed(InsufficientPoints))
    else (log + [Entry(customer, -points, Redeem, None)], Ok(balance - points))
  }

  /** reward is the active reward asked for, None when there is none; the code is drawn at random. */
  function RedeemReward(st: State, customer: nat, reward: Option<Reward>, code: string): (State, Result) {
    if reward.None? then (st, Failed(RewardNotFound))
    else
      var (log', r) := Spend(st.log, customer, reward.value.cost);
      if r.Failed? then (st, r)
      else (State(log', st.redemptions + [Redemption(customer, reward.value, code)]), r)
  }

  function Adjust(log: seq<Entry>, customer: nat, points: int): (seq<Entry>, Result) {
    var balance := Balance(log, customer);
    if balance + points < 0 then (log, Failed(NegativeBalance))
    else (log + [Entry(customer, points, AdminAdjust, None)], Ok(balance + points))
  }

  /** A redeemed referral code: points for the referrer, and for the referee if that is a customer. */
  function Refer(log: seq<Entry>, referrer: nat, points: int, referee: Option<nat>, refereePoints: int): seq<Entry> {
    var first := log + [Entry(referrer, points, Referral, None)];
    if referee.None? then first else first + [Entry(referee.value, refereePoints, Referral, None)]
  }

  class Log {
    var entries: seq<Entry>
    var redemptions: seq<Redemption>

    ghost function Contents(): State
      reads this
    {
      State(entries, redemptions)
    }

    constructor ()
      ensures Contents() == State([], [])
    {
      entries, redemptions := [], [];
    }

    method AwardForBooking(enabled: bool, perBooking: int, customer: nat, booking: nat)
      modifies this`entries
      ensures entries == Award(old(entries), enabled, perBooking, customer, booking)
    {
      if !enabled || perBooking <= 0 { return; }
      if exists i :: 0 <= i < |entries| && IsEarnFor(entries[i], booking) { return; }
      entries := entries + [Entry(customer, perBooking, EarnBooking, Some(booking))];
    }

    method AwardReferral(referrer: nat, points: int, referee: Option<nat>, refereePoints: int)
      modifies this`entries
      ensures entries == Refer(old(entries), referrer, points, referee, refereePoints)
    {
      entries := entries + [Entry(referrer, points, Referral, None)];
      if referee.Some? {
        entries := entries + [Entry(referee.value, refereePoints, Referral, None)];
      }
    }

    method TakePoints(customer: nat, points: int) returns (r: Result)
      modifies this`entries
      ensures (entries, r) == RedeemPoints(old(entries), customer, points)
    {
      if points <= 0 { return Failed(InvalidPoints); }
      var balance := Balance(entries, customer);
      if balance < points { return Failed(InsufficientPoints); }
      entries := entries + [Entry(customer, -points, Redeem, None)];
      return Ok(balance - points);
    }

    method TakeReward(customer: nat, reward: Option<Reward>, code: string) returns (r: Result)
      modifies this
      ensures (Contents(), r) == RedeemReward(old(Contents()), customer, reward, code)
    {
      if reward.None? { return Failed(RewardNotFound); }
      var balance := Balance(entries, customer);
      if balance < reward.value.cost { return Failed(InsufficientPoints); }
      entries := entries + [Entry(customer, -reward.value.cost, Redeem, None)];
      redemptions := redemptions + [Redemption(customer, reward.value, code)];
      return Ok(balance - reward.value.cost);
    }

    method Correct(customer: nat, points: int) returns (r: Result)
      modifies this`entries
      ensures (entries, r) == Adjust(old(entries), customer, points)
    {
      var balance := Balance(entries, customer);
      if balance + points < 0 { return Failed(NegativeBalance); }
      entries := entries + [Entry(customer, points, AdminAdjust, None)];
      return Ok(balance + points);
    }
  }

  ghost predicate SortedTiers(tiers: seq<Tier>) {
    forall i, j :: 0 <= i < j < |tiers| ==> tiers[i].minPoints <= tiers[j].minPoints
  }

  /** t is a highest tier of the list reached with these points. */
  ghost predicate IsCurrent(tiers: seq<Tier>, earned: int, t: Tier) {
    && t in tiers && t.minPoints <= earned
    && forall i :: 0 <= i < |tiers| && tiers[i].minPoints <= earned ==> tiers[i].minPoints <= t.minPoints
  }

  /** t is a lowest tier of the list not reached with these points. */
  ghost predicate IsNext(tiers: seq<Tier>, earned: int, t: Tier) {
    && t in tiers && earned < t.minPoints
    && forall i :: 0 <= i < |tiers| && earned < tiers[i].minPoints ==> t.minPoints <= tiers[i].minPoints
  }

  /** The tier loop over the sorted list: the highest tier reached, the lowest one not reached, the points to it. */
  method CustomerTier(tiers: seq<Tier>, earned: int)
    returns (current: Option<Tier>, next: Option<Tier>, toNext: Option<int>)
    requires SortedTiers(tiers)
    ensures match current
      case None => forall i :: 0 <= i < |tiers| ==> earned < tiers[i].minPoints
      case Some(t) => IsCurrent(tiers, earned, t)
    ensures match next
      case None => forall i :: 0 <= i < |tiers| ==> tiers[i].minPoints <= earned
      case Some(t) => IsNext(tiers, earned, t)
    ensures toNext.Some? == next.Some? && (next.Some? ==> toNext.value == next.value.minPoints - earned > 0)
  {
    current, next := None, None;
    for n := 0 to |tiers|
      invariant current.None? ==> forall i :: 0 <= i < n ==> earned < tiers[i].minPoints
      invariant current.Some? ==> current.value in tiers && IsCurrent(tiers[..n], earned, current.value)
      invariant next.None? ==> forall i :: 0 <= i < n ==> tiers[i].minPoints <= earned
      invariant next.Some? ==> IsNext(tiers, earned, next.value)
    {
      assert tiers[..n + 1] == tiers[..n] + [tiers[n]];
      if earned >= tiers[n].minPoints {
        current := Some(tiers[n]);
      } else if next.None? {
        next := Some(tiers[n]);
      }
    }
    assert tiers[..|tiers|] == tiers;
    toNext := if next.Some? then Some(next.value.minPoints - earned) else None;
  }

  // ---- Runs ----

  datatype Event =
    | DoAward(enabled: bool, perBooking: int, customer: nat, booking: nat)
    | DoRedeem(customer: nat, points: int)
    | DoReward(customer: nat, reward: Option<Reward>, code: string)
    | DoAdjust(customer: nat, points: int)
    | DoReferral(referrer: nat, referrerPoints: int, referee: Option<nat>, refereePoints: int)

  function Step(st: State, ev: Event): State {
    match ev
    case DoAward(enabled, perBooking, customer, booking) =>
      st.(log := Award(st.log, enabled, perBooking, customer, booking))
    case DoRedeem(customer, points) => st.(log := RedeemPoints(st.log, customer, points).0)
    case DoReward(customer, reward, code) => RedeemReward(st, customer, reward, code).0
    case DoAdjust(customer, points) => st.(log := Adjust(st.log, customer, points).0)
    case DoReferral(referrer, points, referee, refereePoints) =>
      st.(log := Refer(st.log, referrer, points, referee, refereePoints))
  }

  function Run(events: seq<Event>): State {
    if events == [] then State([], []) else Step(Run(events[..|events| - 1]), events[|events| - 1])
  }

  /** Points a customer has redeemed, for a reward or without one. */
  function Redeemed(log: seq<Entry>, customer: nat): int {
    if log == [] then 0
    else
      var e := log[|log| - 1];
      Redeemed(log[..|log| - 1], customer) + if e.customer == customer && e.kind.Redeem? then -e.points else 0
  }

  /** Price of the rewards handed out to a customer. */
  function HandedOut(redemptions: seq<Redemption>, customer: nat): int {
    if redemptions == [] then 0
    else
      var x := redemptions[|redemptions| - 1];
      HandedOut(redemptions[..|redemptions| - 1], customer) + if x.customer == customer then x.reward.cost else 0
  }

  lemma SumsSnoc(log: seq<Entry>, e: Entry, customer: nat)
    ensures Balance(log + [e], customer) == Balance(log, customer) + if e.customer == customer then e.points else 0
    ensures LifetimeEarned(log + [e], customer)
         == LifetimeEarned(log, customer) + if e.customer == customer && e.points > 0 then e.points else 0
  {
  }

  ghost predicate EarnedOnce(log: seq<Entry>) {
    forall i, j :: 0 <= i < j < |log| && log[i].kind.EarnBooking? && log[j].kind.EarnBooking? ==>
      log[i].booking != log[j].booking
  }

  ghost predicate EarnsNameBookings(log: seq<Entry>) {
    forall i :: 0 <= i < |log| && log[i].kind.EarnBooking? ==> log[i].booking.Some?
  }

  lemma RedeemedSnoc(log: seq<Entry>, e: Entry, customer: nat)
    ensures Redeemed(log + [e], customer)
         == Redeemed(log, customer) + if e.customer == customer && e.kind.Redeem? then -e.points else 0
  {
    assert (log + [e])[..|log|] == log;
  }

  lemma HandedOutSnoc(redemptions: seq<Redemption>, x: Redemption, customer: nat)
    ensures HandedOut(redemptions + [x], customer)
         == HandedOut(redemptions, customer) + if x.customer == customer then x.reward.cost else 0
  {
    assert (redemptions + [x])[..|redemptions|] == redemptions;
  }

  ghost predicate Inv(st: State, customer: nat) {
    && 0 <= Balance(st.log, customer) <= LifetimeEarned(st.log, customer)
    && HandedOut(st.redemptions, customer) <= Redeemed(st.log, customer)
    && EarnedOnce(st.log) && EarnsNameBookings(st.log)
  }

  /** Referrals give points or none; their number is a setting. */
  predicate GoodReferral(ev: Event) { ev.DoReferral? ==> ev.referrerPoints >= 0 && ev.refereePoints >= 0 }

  lemma RewardKeepsPaid(st: State, ev: Event, customer: nat)
    requires ev.DoReward? && HandedOut(st.redemptions, customer) <= Redeemed(st.log, customer)
    ensures HandedOut(Step(st, ev).redemptions, customer) <= Redeemed(Step(st, ev).log, customer)
  {
    if ev.reward.Some? {
      var e := Entry(ev.customer, -ev.reward.value.cost, Redeem, None);
      RedeemedSnoc(st.log, e, customer);
      HandedOutSnoc(st.redemptions, Redemption(ev.customer, ev.reward.value, ev.code), customer);
    }
  }

  lemma ReferKeepsRedeemed(log: seq<Entry>, ev: Event, customer: nat)
    requires ev.DoReferral?
    ensures Redeemed(Refer(log, ev.referrer, ev.referrerPoints, ev.referee, ev.refereePoints), customer)
         == Redeemed(log, customer)
  {
    var first := log + [Entry(ev.referrer, ev.referrerPoints, Referral, None)];
    RedeemedSnoc(log, first[|log|], customer);
    if ev.referee.Some? { RedeemedSnoc(first, Entry(ev.referee.value, ev.refereePoints, Referral, None), customer); }
  }

  lemma OneEntryKeepsPaid(st: State, ev: Event, customer: nat)
    requires !ev.DoReward? && !ev.DoReferral? && HandedOut(st.redemptions, customer) <= Redeemed(st.log, customer)
    ensures HandedOut(Step(st, ev).redemptions, customer) <= Redeemed(Step(st, ev).log, customer)
  {
    StepAppends(st, ev);
    var log, log' := st.log, Step(st, ev).log;
    if log' != log { RedeemedSnoc(log, log'[|log|], customer); }
  }

  /** Only a redeemed reward adds a redemption, with the entry that pays for it. */
  lemma StepKeepsRewards(st: State, ev: Event, customer: nat)
    requires HandedOut(st.redemptions, customer) <= Redeemed(st.log, customer)
    ensures HandedOut(Step(st, ev).redemptions, customer) <= Redeemed(Step(st, ev).log, customer)
  {
    match ev
    case DoReward(_, _, _) => RewardKeepsPaid(st, ev, customer);
    case DoReferral(_, _, _, _) => ReferKeepsRedeemed(st.log, ev, customer);
    case _ => OneEntryKeepsPaid(st, ev, customer);
  }

  lemma StepAppends(st: State, ev: Event)
    requires !ev.DoReferral?
    ensures var log, log' := st.log, Step(st, ev).log;
      || log' == log
      || (|log'| == |log| + 1 && log' == log + [log'[|log|]]
          && log'[|log|].kind.EarnBooking? == ev.DoAward?
          && (log'[|log|].kind.Redeem? && !ev.DoReward? ==> log'[|log|].points <= 0))
  {
  }

  lemma ReferKeepsBalance(log: seq<Entry>, ev: Event, customer: nat)
    requires ev.DoReferral? && GoodReferral(ev) && 0 <= Balance(log, customer) <= LifetimeEarned(log, customer)
    ensures var log' := Refer(log, ev.referrer, ev.referrerPoints, ev.referee, ev.refereePoints);
      0 <= Balance(log', customer) <= LifetimeEarned(log', customer)
  {
    var first := log + [Entry(ev.referrer, ev.referrerPoints, Referral, None)];
    SumsSnoc(log, first[|log|], customer);
    if ev.referee.Some? { SumsSnoc(first, Entry(ev.referee.value, ev.refereePoints, Referral, None), customer); }
  }

  lemma StepKeepsBalance(st: State, ev: Event, customer: nat)
    requires 0 <= Balance(st.log, customer) <= LifetimeEarned(st.log, customer) && GoodReferral(ev)
    ensures 0 <= Balance(Step(st, ev).log, customer) <= LifetimeEarned(Step(st, ev).log, customer)
  {
    if ev.DoReferral? {
      ReferKeepsBalance(st.log, ev, customer);
    } else {
      var log, log' := st.log, Step(st, ev).log;
      StepAppends(st, ev);
      if log' != log { SumsSnoc(log, log'[|log|], customer); }
    }
  }

  /** No event takes back points once earned. */
  lemma StepEarns(st: State, ev: Event, customer: nat)
    ensures LifetimeEarned(st.log, customer) <= LifetimeEarned(Step(st, ev).log, customer)
  {
    var log, log' := st.log, Step(st, ev).log;
    if ev.DoReferral? {
      var first := log + [Entry(ev.referrer, ev.referrerPoints, Referral, None)];
      SumsSnoc(log, first[|log|], customer);
      if ev.referee.Some? { SumsSnoc(first, Entry(ev.referee.value, ev.refereePoints, Referral, None), customer); }
    } else {
      StepAppends(st, ev);
      if log' != log { SumsSnoc(log, log'[|log|], customer); }
    }
  }

  lemma StepEarnsOnce(st: State, ev: Event)
    requires EarnedOnce(st.log) && EarnsNameBookings(st.log)
    ensures EarnedOnce(Step(st, ev).log) && EarnsNameBookings(Step(st, ev).log)
  {
    if !ev.DoReferral? {
      var log, log' := st.log, Step(st, ev).log;
      StepAppends(st, ev);
      if log' != log && ev.DoAward? {
        assert forall i :: 0 <= i < |log| ==> !IsEarnFor(log[i], ev.booking);
      }
    }
  }

  /** Every event keeps it, referrals included as long as they give no negative points. */
  lemma StepKeeps(st: State, ev: Event, customer: nat)
    requires Inv(st, customer) && GoodReferral(ev)
    ensures Inv(Step(st, ev), customer)
    ensures LifetimeEarned(st.log, customer) <= LifetimeEarned(Step(st, ev).log, customer)
  {
    StepKeepsRewards(st, ev, customer);
    StepKeepsBalance(st, ev, customer);
    StepEarnsOnce(st, ev);
    StepEarns(st, ev, customer);
  }

  /** Along every run each customer's balance stays between zero and the points ever earned, every reward handed out has
      been paid for in points, and each booking earns at most once, however often it is completed. */
  lemma {:induction false} PointsRun(events: seq<Event>, customer: nat)
    requires forall i :: 0 <= i < |events| ==> GoodReferral(events[i])
    ensures Inv(Run(events), customer)
  {
    if events != [] {
      var init := events[..|events| - 1];
      assert forall i :: 0 <= i < |init| ==> init[i] == events[i];
      PointsRun(init, customer);
      StepKeeps(Run(init), events[|events| - 1], customer);
    }
  }

  /** The points of a referral are not checked: a negative setting takes a customer below zero. */
  lemma NegativeReferralOverdraws(customer: nat, points: int)
    requires points < 0
    ensures Balance(Run([DoReferral(customer, points, None, 0)]).log, customer) < 0
  {
    var events, e := [DoReferral(customer, points, None, 0)], Entry(customer, points, Referral, None);
    assert events[..0] == [];
    assert Run(events).log == [] + [e];
    SumsSnoc([], e, customer);
  }

  lemma {:induction false} EarnedNeverFalls(events: seq<Event>, n: nat, customer: nat)
    requires n <= |events|
    ensures LifetimeEarned(Run(events[..n]).log, customer) <= LifetimeEarned(Run(events).log, customer)
  {
    if n == |events| {
      assert events[..n] == events;
    } else {
      var init := events[..|events| - 1];
      assert init[..n] == events[..n];
      EarnedNeverFalls(init, n, customer);
      StepEarns(Run(init), events[|events| - 1], customer);
    }
  }

  /** With fixed tiers the threshold a customer has reached never falls along a run. */
  lemma TierNeverFalls(tiers: seq<Tier>, events: seq<Event>, n: nat, customer: nat, before: Tier, after: Tier)
    requires n <= |events|
    requires IsCurrent(tiers, LifetimeEarned(Run(events[..n]).log, customer), before)
    requires IsCurrent(tiers, LifetimeEarned(Run(events).log, customer), after)
    ensures before.minPoints <= after.minPoints
  {
    EarnedNeverFalls(events, n, customer);
    var i :| 0 <= i < |tiers| && tiers[i] == before;
    assert tiers[i].minPoints <= LifetimeEarned(Run(events).log, customer);
  }

  // ---- Results in terms of the log ----

  /** A booking earns the points of the setting, once, while the programme is on and gives any. */
  lemma AwardEffect(log: seq<Entry>, enabled: bool, perBooking: int, customer: nat, booking: nat)
    ensures var earned := exists i :: 0 <= i < |log| && log[i].kind == EarnBooking && log[i].booking == Some(booking);
      Award(log, enabled, perBooking, customer, booking) ==
        if enabled && perBooking >= 1 && !earned then log + [Entry(customer, perBooking, EarnBooking, Some(booking))]
        else log
  {
    assert forall e: Entry :: IsEarnFor(e, booking) <==> e.kind == EarnBooking && e.booking == Some(booking);
  }

  /** Redeeming takes a positive number of points the customer has. */
  lemma RedeemEffect(log: seq<Entry>, customer: nat, points: int)
    ensures RedeemPoints(log, customer, points) ==
      if points < 1 then (log, Failed(InvalidPoints))
      else if Balance(log, customer) < points then (log, Failed(InsufficientPoints))
      else (log + [Entry(customer, -points, Redeem, None)], Ok(Balance(log, customer) - points))
  {
  }

  /** A reward is handed out for its price, and only to who has it. */
  lemma RewardEffect(st: State, customer: nat, reward: Option<Reward>, code: string)
    ensures RedeemReward(st, customer, reward, code) ==
      if reward == None then (st, Failed(RewardNotFound))
      else if Balance(st.log, customer) < reward.value.cost then (st, Failed(InsufficientPoints))
      else
        (State(st.log + [Entry(customer, -reward.value.cost, Redeem, None)],
               st.redemptions + [Redemption(customer, reward.value, code)]),
         Ok(Balance(st.log, customer) - reward.value.cost))
  {
  }

  /** A correction of any size that leaves no debt. */
  lemma CorrectionEffect(log: seq<Entry>, customer: nat, points: int)
    ensures Adjust(log, customer, points) ==
      if Balance(log, customer) < -points then (log, Failed(NegativeBalance))
      else (log + [Entry(customer, points, AdminAdjust, None)], Ok(Balance(log, customer) + points))
  {
  }

  lemma ReferralEffect(log: seq<Entry>, referrer: nat, points: int, referee: nat, refereePoints: int)
    ensures Refer(log, referrer, points, None, refereePoints) == log + [Entry(referrer, points, Referral, None)]
    ensures Refer(log, referrer, points, Some(referee), refereePoints)
         == log + [Entry(referrer, points, Referral, None), Entry(referee, refereePoints, Referral, None)]
  {
  }

  /** The balance sums the customer's entries, lifetime earned the positive ones. */
  lemma SumsOfOne(e: Entry, customer: nat)
    ensures Balance([], customer) == 0 && LifetimeEarned([], customer) == 0
    ensures Balance([e], customer) == if e.customer == customer then e.points else 0
    ensures LifetimeEarned([e], customer) == if e.customer == customer then Max(e.points, 0) else 0
  {
    assert [e][..0] == [];
  }
}
