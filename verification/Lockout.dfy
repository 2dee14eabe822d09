/** Account lockout: a lock is computed from the failed attempts of a sliding window, never stored. */
module Lockout {
  import opened Common

  const MAX_ATTEMPTS := 10
  const WINDOW_MS := 15 * MINUTE_MS
  const LOCK_MS := 15 * MINUTE_MS

  /** Tenant and lower-cased e-mail. */
  datatype Account = Account(tenant: string, email: string)

  datatype Attempt = Attempt(account: Account, createdAt: int, resolvedAt: Option<int>)

  datatype LockState = LockState(locked: bool, attempts: nat, until: Option<int>, remainingSeconds: int)

  datatype LoginResult = Granted | Denied | AccountLocked(retryAfterSeconds: int, lockedUntil: Option<int>)

  /** Times of the attempts that still count against the account, in insertion order. */
  function Unresolved(rows: seq<Attempt>, account: Account): seq<int> {
    if rows == [] then []
    else
      var r := rows[|rows| - 1];
      Unresolved(rows[..|rows| - 1], account)
      + if r.account == account && r.resolvedAt.None? then [r.createdAt] else []
  }

  function Since(times: seq<int>, from: int): seq<int> {
    if times == [] then []
    else
      var t := times[|times| - 1];
      Since(times[..|times| - 1], from) + if t >= from then [t] else []
  }

  function Latest(times: seq<int>): int
    requires times != []
  {
    if |times| == 1 then times[0] else Max(Latest(times[..|times| - 1]), times[|times| - 1])
  }

  function StateOf(times: seq<int>, now: int): LockState {
    var recent := Since(times, now - WINDOW_MS);
    if |recent| < MAX_ATTEMPTS then LockState(false, |recent|, None, 0)
    else
      var until := Latest(recent) + LOCK_MS;
      if until - now <= 0 then LockState(false, |recent|, None, 0)
      else LockState(true, |recent|, Some(until), (until - now + 999) / 1000)
  }

  predicate Locked(times: seq<int>, now: int) { StateOf(times, now).locked }

  function Resolve(rows: seq<Attempt>, account: Account, at: int): seq<Attempt> {
    seq(|rows|, i requires 0 <= i < |rows| =>
      if rows[i].account == account && rows[i].resolvedAt.None? then rows[i].(resolvedAt := Some(at)) else rows[i])
  }

  class AccountLockout {
    var rows: seq<Attempt>

    constructor ()
      ensures rows == []
    {
      rows := [];
    }

    function State(account: Account, now: int): LockState
      reads this
    {
      StateOf(Unresolved(rows, account), now)
    }

    method RecordFailure(account: Account, at: int)
      modifies this
      ensures rows == old(rows) + [Attempt(account, at, None)]
    {
      rows := rows + [Attempt(account, at, None)];
    }

    /** Successful login or manual unlock. */
    method MarkResolved(account: Account, at: int) returns (released: nat)
      modifies this
      ensures rows == Resolve(old(rows), account, at)
      ensures released == |Unresolved(old(rows), account)|
      ensures Unresolved(rows, account) == []
    {
      released := |Unresolved(rows, account)|;
      ResolveClears(rows, account, at);
      rows := Resolve(rows, account, at);
    }
  }

  class AuthService {
    const lockout: AccountLockout

    constructor (lockout: AccountLockout)
      ensures this.lockout == lockout
    {
      this.lockout := lockout;
    }

    /** The lock is checked at `at`, before the password; the outcome is written at `doneAt`. */
    method Login(account: Account, at: int, accepted: bool, doneAt: int) returns (result: LoginResult)
      modifies lockout
      ensures (lockout.rows, result) == Step(old(lockout.rows), Attempted(account, at, accepted, doneAt))
    {
      var state := lockout.State(account, at);
      if state.locked {
        return AccountLocked(state.remainingSeconds, state.until);
      }
      if !accepted {
        lockout.RecordFailure(account, doneAt);
        return Denied;
      }
      var _ := lockout.MarkResolved(account, doneAt);
      return Granted;
    }
  }

  // ---- Runs ----

  datatype Event =
    | Attempted(account: Account, at: int, accepted: bool, doneAt: int)
    | Unlocked(account: Account, at: int)
  {
    function Ends(): int { if Attempted? then doneAt else at }
  }

  function Step(rows: seq<Attempt>, ev: Event): (seq<Attempt>, LoginResult) {
    match ev
    case Attempted(account, at, accepted, doneAt) =>
      var state := StateOf(Unresolved(rows, account), at);
      if state.locked then (rows, AccountLocked(state.remainingSeconds, state.until))
      else if accepted then (Resolve(rows, account, doneAt), Granted)
      else (rows + [Attempt(account, doneAt, None)], Denied)
    case Unlocked(account, at) => (Resolve(rows, account, at), Granted)
  }

  function Run(events: seq<Event>): seq<Attempt> {
    if events == [] then [] else Step(Run(events[..|events| - 1]), events[|events| - 1]).0
  }

  /** Each event starts after the one before it ended. */
  ghost predicate Sequential(events: seq<Event>) {
    && (forall i :: 0 <= i < |events| ==> events[i].at <= events[i].Ends())
    && (forall i, j :: 0 <= i < j < |events| ==> events[i].Ends() <= events[j].at)
  }

  ghost predicate Sorted(times: seq<int>) {
    forall i, j :: 0 <= i < j < |times| ==> times[i] <= times[j]
  }

  /** Eleven consecutive attempts span at least a quarter of an hour. */
  ghost predicate Paced(times: seq<int>) {
    && Sorted(times)
    && forall i :: 0 <= i && i + MAX_ATTEMPTS < |times| ==> times[i + MAX_ATTEMPTS] - times[i] >= LOCK_MS
  }

  lemma UnresolvedSnoc(rows: seq<Attempt>, r: Attempt, account: Account)
    ensures Unresolved(rows + [r], account)
         == Unresolved(rows, account) + if r.account == account && r.resolvedAt.None? then [r.createdAt] else []
  {
  }

  lemma {:induction false} ResolveClears(rows: seq<Attempt>, account: Account, at: int)
    ensures Unresolved(Resolve(rows, account, at), account) == []
  {
    if rows != [] {
      var init := rows[..|rows| - 1];
      var done := Resolve(rows, account, at);
      assert done[..|done| - 1] == Resolve(init, account, at);
      ResolveClears(init, account, at);
    }
  }

  lemma {:induction false} ResolveKeepsOthers(rows: seq<Attempt>, account: Account, at: int, other: Account)
    requires other != account
    ensures Unresolved(Resolve(rows, account, at), other) == Unresolved(rows, other)
  {
    if rows != [] {
      var init := rows[..|rows| - 1];
      var done := Resolve(rows, account, at);
      assert done[..|done| - 1] == Resolve(init, account, at);
      ResolveKeepsOthers(init, account, at, other);
    }
  }

  /** On sorted times the window is a suffix. */
  lemma {:induction false} SinceIsSuffix(times: seq<int>, from: int) returns (k: nat)
    requires Sorted(times)
    ensures k <= |times| && Since(times, from) == times[k..]
    ensures forall i :: 0 <= i < |times| ==> (times[i] >= from <==> i >= k)
  {
    if times == [] {
      k := 0;
    } else {
      var init, last := times[..|times| - 1], times[|times| - 1];
      assert forall i :: 0 <= i < |init| ==> init[i] == times[i];
      k := SinceIsSuffix(init, from);
      if last >= from {
        SliceSnoc(times, k);
      } else {
        assert forall i :: 0 <= i < |init| ==> init[i] <= last;
        k := |times|;
        assert Since(times, from) == Since(init, from) == [];
      }
    }
  }

  lemma SliceSnoc(times: seq<int>, k: nat)
    requires k < |times|
    ensures times[k..] == times[..|times| - 1][k..] + [times[|times| - 1]]
  {
  }

  lemma {:induction false} LatestIsLast(times: seq<int>)
    requires Sorted(times) && times != []
    ensures Latest(times) == times[|times| - 1]
  {
    if |times| > 1 { LatestIsLast(times[..|times| - 1]); }
  }

  /** When an account is locked: its tenth-latest attempt is still in the window and the latest is not yet
      LOCK_MS old. */
  lemma LockedIff(times: seq<int>, now: int)
    requires Sorted(times)
    ensures Locked(times, now) <==>
      && |times| >= MAX_ATTEMPTS
      && times[|times| - MAX_ATTEMPTS] >= now - WINDOW_MS
      && times[|times| - 1] + LOCK_MS > now
    ensures Locked(times, now) ==> StateOf(times, now).until == Some(times[|times| - 1] + LOCK_MS)
  {
    var k := SinceIsSuffix(times, now - WINDOW_MS);
    var recent := times[k..];
    if recent != [] {
      LatestIsLast(recent);
      assert Latest(recent) == times[|times| - 1];
    }
  }

  lemma PacedSnoc(times: seq<int>, at: int, t: int)
    requires Paced(times) && at <= t
    requires forall i :: 0 <= i < |times| ==> times[i] <= at
    requires !Locked(times, at)
    ensures Paced(times + [t])
  {
    LockedIff(times, at);
  }

  ghost predicate RunInvariant(rows: seq<Attempt>, clock: int) {
    forall account :: Paced(Unresolved(rows, account)) && BoundedBy(Unresolved(rows, account), clock)
  }

  ghost predicate BoundedBy(times: seq<int>, clock: int) {
    forall i :: 0 <= i < |times| ==> times[i] <= clock
  }

  /** What one event does to the counted attempts of an account. */
  lemma StepTimes(rows: seq<Attempt>, ev: Event, account: Account)
    ensures var times, times' := Unresolved(rows, account), Unresolved(Step(rows, ev).0, account);
      || times' == times
      || times' == []
      || (account == ev.account && ev.Attempted? && !Locked(times, ev.at) && times' == times + [ev.Ends()])
  {
    if ev.Attempted? && (Locked(Unresolved(rows, ev.account), ev.at) || !ev.accepted) {
      UnresolvedSnoc(rows, Attempt(ev.account, ev.doneAt, None), account);
    } else if account == ev.account {
      ResolveClears(rows, account, ev.Ends());
    } else {
      ResolveKeepsOthers(rows, ev.account, ev.Ends(), account);
    }
  }

  lemma TimesStayPaced(times: seq<int>, times': seq<int>, clock: int, at: int, t: int)
    requires Paced(times) && BoundedBy(times, clock) && clock <= at <= t
    requires times' == times || times' == [] || (!Locked(times, at) && times' == times + [t])
    ensures Paced(times') && BoundedBy(times', t)
  {
    if times' == times + [t] && !Locked(times, at) { PacedSnoc(times, at, t); }
  }

  lemma StepKeepsPace(rows: seq<Attempt>, clock: int, ev: Event)
    requires RunInvariant(rows, clock) && clock <= ev.at <= ev.Ends()
    ensures RunInvariant(Step(rows, ev).0, ev.Ends())
  {
    var rows' := Step(rows, ev).0;
    forall account ensures Paced(Unresolved(rows', account)) && BoundedBy(Unresolved(rows', account), ev.Ends()) {
      var times := Unresolved(rows, account);
      assert Paced(times) && BoundedBy(times, clock);
      StepTimes(rows, ev, account);
      TimesStayPaced(times, Unresolved(rows', account), clock, ev.at, ev.Ends());
    }
  }

  /** In any sequential run, the failed attempts since the last success or unlock are paced, for every account. */
  lemma {:induction false} RunIsPaced(events: seq<Event>, clock: int)
    requires Sequential(events)
    requires forall i :: 0 <= i < |events| ==> events[i].Ends() <= clock
    ensures RunInvariant(Run(events), clock)
  {
    if events != [] {
      var init, ev := events[..|events| - 1], events[|events| - 1];
      assert forall i :: 0 <= i < |init| ==> init[i] == events[i];
      RunIsPaced(init, ev.at);
      StepKeepsPace(Run(init), ev.at, ev);
      RunInvariantLater(Run(events), ev.Ends(), clock);
    }
  }

  lemma RunInvariantLater(rows: seq<Attempt>, clock: int, later: int)
    requires RunInvariant(rows, clock) && clock <= later
    ensures RunInvariant(rows, later)
  {
  }

  /** Without a success or an unlock every failed attempt stays counted. */
  lemma {:induction false} FailuresStayCounted(events: seq<Event>, account: Account)
    requires forall i :: 0 <= i < |events| && events[i].account == account ==>
      events[i].Attempted? && !events[i].accepted
    ensures Unresolved(Run(events), account) == Failures(events, account)
  {
    if events != [] {
      var init, ev := events[..|events| - 1], events[|events| - 1];
      assert forall i :: 0 <= i < |init| ==> init[i] == events[i];
      FailuresStayCounted(init, account);
      if ev.Unlocked? {
        ResolveKeepsOthers(Run(init), ev.account, ev.at, account);
      } else {
        UnresolvedSnoc(Run(init), Attempt(ev.account, ev.doneAt, None), account);
        if ev.account != account { ResolveKeepsOthers(Run(init), ev.account, ev.doneAt, account); }
      }
    }
  }

  /** Times at which a login of the account was answered with a wrong-credentials error. */
  function Failures(events: seq<Event>, account: Account): seq<int> {
    if events == [] then []
    else
      var init, ev := events[..|events| - 1], events[|events| - 1];
      Failures(init, account)
      + if ev.Attempted? && ev.account == account && Step(Run(init), ev).1 == Denied then [ev.doneAt] else []
  }

  // ---- Rate bound ----

  function CountIn(times: seq<int>, from: int, until: int): nat {
    if times == [] then 0
    else CountIn(times[..|times| - 1], from, until) + if from <= times[|times| - 1] < until then 1 else 0
  }

  lemma {:induction false} CountInPrefix(times: seq<int>, k: nat, from: int, until: int)
    requires k <= |times|
    ensures CountIn(times, from, until) <= CountIn(times[..k], from, until) + |times| - k
  {
    if k < |times| {
      var init := times[..|times| - 1];
      CountInPrefix(init, k, from, until);
      assert init[..k] == times[..k];
    } else {
      assert times[..k] == times;
    }
  }

  lemma {:induction false} CountInNone(times: seq<int>, from: int, until: int)
    requires forall i :: 0 <= i < |times| ==> times[i] < from
    ensures CountIn(times, from, until) == 0
  {
    if times != [] { CountInNone(times[..|times| - 1], from, until); }
  }

  /** At most ten attempts fall in any half-open quarter of an hour. */
  lemma {:induction false} QuarterBound(times: seq<int>, from: int)
    requires Paced(times)
    ensures CountIn(times, from, from + LOCK_MS) <= MAX_ATTEMPTS
  {
    if times != [] {
      var n := |times|;
      var init := times[..n - 1];
      assert Paced(init) by { assert forall i :: 0 <= i < n - 1 ==> init[i] == times[i]; }
      QuarterBound(init, from);
      if from <= times[n - 1] < from + LOCK_MS && n > MAX_ATTEMPTS {
        var k := n - MAX_ATTEMPTS;
        forall i | 0 <= i < k ensures times[..k][i] < from {
          assert times[i] <= times[k - 1];
          assert times[k - 1 + MAX_ATTEMPTS] - times[k - 1] >= LOCK_MS;
        }
        CountInNone(times[..k], from, from + LOCK_MS);
        CountInPrefix(times, k, from, from + LOCK_MS);
      } else if n <= MAX_ATTEMPTS {
        CountInPrefix(times, 0, from, from + LOCK_MS);
        assert times[..0] == [];
      }
    }
  }

  lemma {:induction false} CountInSplit(times: seq<int>, from: int, mid: int, until: int)
    requires from <= mid <= until
    ensures CountIn(times, from, until) == CountIn(times, from, mid) + CountIn(times, mid, until)
  {
    if times != [] { CountInSplit(times[..|times| - 1], from, mid, until); }
  }

  /** At most forty fall in any half-open hour. */
  lemma HourBound(times: seq<int>, from: int)
    requires Paced(times)
    ensures CountIn(times, from, from + 60 * MINUTE_MS) <= 40
  {
    var q := LOCK_MS;
    QuarterBound(times, from);
    QuarterBound(times, from + q);
    QuarterBound(times, from + 2 * q);
    QuarterBound(times, from + 3 * q);
    CountInSplit(times, from, from + q, from + 4 * q);
    CountInSplit(times, from + q, from + 2 * q, from + 4 * q);
    CountInSplit(times, from + 2 * q, from + 3 * q, from + 4 * q);
  }

  /** The bound on the guesses of a run: the wrong-credentials answers an account gets without a success or unlock. */
  lemma GuessingRate(events: seq<Event>, clock: int, account: Account, from: int)
    requires Sequential(events)
    requires forall i :: 0 <= i < |events| ==> events[i].Ends() <= clock
    requires forall i :: 0 <= i < |events| && events[i].account == account ==>
      events[i].Attempted? && !events[i].accepted
    ensures Paced(Failures(events, account))
    ensures CountIn(Failures(events, account), from, from + LOCK_MS) <= 10
    ensures CountIn(Failures(events, account), from, from + 60 * MINUTE_MS) <= 40
  {
    RunIsPaced(events, clock);
    FailuresStayCounted(events, account);
    assert Paced(Unresolved(Run(events), account));
    QuarterBound(Failures(events, account), from);
    HourBound(Failures(events, account), from);
  }

  // ---- How long a lock lasts ----

  /** Without new attempts the account is unlocked at every time from the reported end of the lock on. */
  lemma UnlockedFromReportedEnd(times: seq<int>, now: int, t: int)
    requires Sorted(times) && Locked(times, now)
    requires t >= StateOf(times, now).until.value
    ensures !Locked(times, t)
  {
    LockedIff(times, now);
    LockedIff(times, t);
  }

  /** The reported end is a promise kept only when the last ten attempts fall within one millisecond: otherwise the
      tenth-latest attempt leaves the window first and the account opens early. */
  lemma LockHoldsUntilReportedEnd(times: seq<int>, now: int)
    requires Sorted(times) && Locked(times, now)
    ensures |times| >= MAX_ATTEMPTS
    ensures (forall t :: now <= t < StateOf(times, now).until.value ==> Locked(times, t))
       <==> times[|times| - 1] - times[|times| - MAX_ATTEMPTS] <= 1
  {
    LockedIff(times, now);
    var last, tenth := times[|times| - 1], times[|times| - MAX_ATTEMPTS];
    var end := last + LOCK_MS;
    assert tenth <= last;
    if last - tenth <= 1 {
      forall t | now <= t < end ensures Locked(times, t) {
        LockedIff(times, t);
      }
    } else {
      var t := end - 1;
      LockedIff(times, t);
      assert now <= t < end && !Locked(times, t);
    }
  }

  /** Wrong passwords, one a minute from time 0 on. */
  function OneAMinute(account: Account, n: nat): seq<Event> {
    seq(n, i requires 0 <= i < n => Attempted(account, i * MINUTE_MS, false, i * MINUTE_MS))
  }

  function Minutes(n: nat): seq<int> { seq(n, i requires 0 <= i < n => i * MINUTE_MS) }

  lemma OneMore(account: Account, n: nat)
    ensures OneAMinute(account, n + 1)
         == OneAMinute(account, n) + [Attempted(account, n * MINUTE_MS, false, n * MINUTE_MS)]
    ensures Minutes(n + 1) == Minutes(n) + [n * MINUTE_MS]
  {
  }

  /** A wrong password at an account that is not locked is denied and counted. */
  lemma DeniedIsCounted(events: seq<Event>, account: Account, at: int)
    requires !Locked(Unresolved(Run(events), account), at)
    ensures var all := events + [Attempted(account, at, false, at)];
      && Unresolved(Run(all), account) == Unresolved(Run(events), account) + [at]
      && Failures(all, account) == Failures(events, account) + [at]
  {
    var all := events + [Attempted(account, at, false, at)];
    assert all[..|all| - 1] == events;
    var step := Step(Run(events), all[|events|]);
    assert step == (Run(events) + [Attempt(account, at, None)], Denied);
    UnresolvedSnoc(Run(events), Attempt(account, at, None), account);
  }

  /** The first ten are all answered as denied. */
  lemma {:induction false} TenDenied(account: Account, n: nat)
    requires n <= MAX_ATTEMPTS
    ensures Unresolved(Run(OneAMinute(account, n)), account) == Minutes(n)
    ensures Failures(OneAMinute(account, n), account) == Minutes(n)
  {
    if n > 0 {
      TenDenied(account, n - 1);
      OneMore(account, n - 1);
      FewAreOpen(n - 1);
      DeniedIsCounted(OneAMinute(account, n - 1), account, (n - 1) * MINUTE_MS);
    }
  }

  lemma FewAreOpen(n: nat)
    requires n < MAX_ATTEMPTS
    ensures !Locked(Minutes(n), n * MINUTE_MS)
  {
    LockedIff(Minutes(n), n * MINUTE_MS);
  }

  /** A run of ten denied logins a minute apart: the account is announced as locked until minute 24 and opens a
      millisecond after minute 15. */
  lemma LockOpensEarly(account: Account)
    ensures var events := OneAMinute(account, 10);
      var times := Unresolved(Run(events), account);
      && Sequential(events) && Failures(events, account) == times == Minutes(10)
      && StateOf(times, 9 * MINUTE_MS).until == Some(24 * MINUTE_MS)
      && Locked(times, 15 * MINUTE_MS)
      && !Locked(times, 15 * MINUTE_MS + 1)
  {
    TenDenied(account, 10);
    LockOfTen();
  }

  lemma LockOfTen()
    ensures StateOf(Minutes(10), 9 * MINUTE_MS).until == Some(24 * MINUTE_MS)
    ensures Locked(Minutes(10), 15 * MINUTE_MS) && !Locked(Minutes(10), 15 * MINUTE_MS + 1)
  {
    var times := Minutes(10);
    assert times[0] == 0 && times[9] == 9 * MINUTE_MS;
    LockedIff(times, 9 * MINUTE_MS);
    LockedIff(times, 15 * MINUTE_MS);
    LockedIff(times, 15 * MINUTE_MS + 1);
  }

  // ---- The answer in terms of the rows ----

  /** A failed attempt of the account, not forgiven, from the given time on. */
  predicate CountsFrom(r: Attempt, account: Account, from: int) {
    r.account == account && r.resolvedAt == None && from <= r.createdAt
  }

  ghost function Counting(rows: seq<Attempt>, account: Account, from: int): set<nat> {
    set i: nat | i < |rows| && CountsFrom(rows[i], account, from)
  }

  lemma SinceSnoc(times: seq<int>, t: int, from: int)
    ensures Since(times + [t], from) == if from <= t then Since(times, from) + [t] else Since(times, from)
  {
    assert (times + [t])[..|times|] == times;
  }

  lemma CountingSnoc(rows: seq<Attempt>, r: Attempt, account: Account, from: int)
    ensures Counting(rows + [r], account, from)
         == Counting(rows, account, from) + if CountsFrom(r, account, from) then {|rows|} else {}
  {
  }

  lemma RecentSnoc(rows: seq<Attempt>, r: Attempt, account: Account, from: int)
    ensures var before := Since(Unresolved(rows, account), from);
      Since(Unresolved(rows + [r], account), from)
      == if CountsFrom(r, account, from) then before + [r.createdAt] else before
  {
    UnresolvedSnoc(rows, r, account);
    if r.account == account && r.resolvedAt == None {
      SinceSnoc(Unresolved(rows, account), r.createdAt, from);
    } else {
      assert Unresolved(rows, account) + [] == Unresolved(rows, account);
    }
  }

  lemma {:induction false} RecentIff(rows: seq<Attempt>, account: Account, from: int)
    ensures var recent := Since(Unresolved(rows, account), from);
      && |recent| == |Counting(rows, account, from)|
      && forall t :: t in recent <==>
           exists i :: 0 <= i < |rows| && CountsFrom(rows[i], account, from) && rows[i].createdAt == t
  {
    if rows == [] {
      assert Counting(rows, account, from) == {};
    } else {
      var init, r := rows[..|rows| - 1], rows[|rows| - 1];
      assert rows == init + [r];
      RecentIff(init, account, from);
      CountingSnoc(init, r, account, from);
      RecentSnoc(init, r, account, from);
      var before := Since(Unresolved(init, account), from);
      forall t ensures t in Since(Unresolved(rows, account), from) <==>
        exists i :: 0 <= i < |rows| && CountsFrom(rows[i], account, from) && rows[i].createdAt == t
      {
        RecentMember(init, r, account, from, before, t);
      }
    }
  }

  lemma RecentMember(rows: seq<Attempt>, r: Attempt, account: Account, from: int, before: seq<int>, t: int)
    requires t in before <==>
      exists i :: 0 <= i < |rows| && CountsFrom(rows[i], account, from) && rows[i].createdAt == t
    ensures var all := rows + [r];
      t in (if CountsFrom(r, account, from) then before + [r.createdAt] else before) <==>
      exists i :: 0 <= i < |all| && CountsFrom(all[i], account, from) && all[i].createdAt == t
  {
    var all := rows + [r];
    if i :| 0 <= i < |rows| && CountsFrom(rows[i], account, from) && rows[i].createdAt == t {
      assert all[i] == rows[i];
    }
    if CountsFrom(r, account, from) && r.createdAt == t { assert all[|rows|] == r; }
    if i :| 0 <= i < |all| && CountsFrom(all[i], account, from) && all[i].createdAt == t {
      assert if i < |rows| then rows[i] == all[i] else all[i] == r;
    }
  }

  lemma {:induction false} LatestIsMax(times: seq<int>)
    requires times != []
    ensures Latest(times) in times && forall t :: t in times ==> t <= Latest(times)
  {
    if |times| > 1 {
      LatestIsMax(times[..|times| - 1]);
      assert times == times[..|times| - 1] + [times[|times| - 1]];
    }
  }

  /** The lock of an account at a time, from the rows alone: ten unforgiven failures of the last quarter of an hour, the
      latest less than a quarter ago; the end of the lock is a quarter after the latest, told in seconds rounded up. */
  lemma StateEffect(rows: seq<Attempt>, account: Account, now: int)
    ensures var state := StateOf(Unresolved(rows, account), now);
      var counting := Counting(rows, account, now - 900_000);
      && state.attempts == |counting|
      && (state.locked <==> |counting| >= 10 && exists i :: i in counting && now < rows[i].createdAt + 900_000)
      && (state.locked ==>
            && state.until.Some?
            && (exists i :: i in counting && state.until.value == rows[i].createdAt + 900_000)
            && (forall i :: i in counting ==> rows[i].createdAt + 900_000 <= state.until.value)
            && (state.remainingSeconds - 1) * 1000 < state.until.value - now <= state.remainingSeconds * 1000)
      && (!state.locked ==> state.until == None && state.remainingSeconds == 0)
  {
    var recent := Since(Unresolved(rows, account), now - 900_000);
    RecentIff(rows, account, now - 900_000);
    if recent != [] {
      LatestIsMax(recent);
      var counting := Counting(rows, account, now - 900_000);
      forall i | i in counting ensures rows[i].createdAt in recent {
        assert CountsFrom(rows[i], account, now - 900_000);
      }
      assert Latest(recent) in recent;
      var k :| 0 <= k < |rows| && CountsFrom(rows[k], account, now - 900_000) && rows[k].createdAt == Latest(recent);
      assert k in counting;
    }
  }

  /** The unforgiven failures of the account become forgiven; all other rows stay. */
  ghost predicate Forgiven(rows: seq<Attempt>, rows': seq<Attempt>, account: Account, at: int) {
    && |rows'| == |rows|
    && forall i :: 0 <= i < |rows| ==>
         rows'[i] == if rows[i].account == account && rows[i].resolvedAt == None
                     then Attempt(account, rows[i].createdAt, Some(at)) else rows[i]
  }

  /** A login is answered by the lock if there is one, and then writes nothing; else accepted credentials are granted
      and forgive the failures so far, and others are denied and leave one more failure. */
  lemma LoginEffect(rows: seq<Attempt>, account: Account, at: int, accepted: bool, doneAt: int)
    ensures var (rows', r) := Step(rows, Attempted(account, at, accepted, doneAt));
      var state := StateOf(Unresolved(rows, account), at);
      if state.locked then rows' == rows && r == AccountLocked(state.remainingSeconds, state.until)
      else if accepted then r == Granted && Forgiven(rows, rows', account, doneAt)
      else r == Denied && rows' == rows + [Attempt(account, doneAt, None)]
    ensures Forgiven(rows, Step(rows, Unlocked(account, at)).0, account, at)
  {
  }
}
