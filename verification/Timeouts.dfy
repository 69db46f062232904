/** The timeouts of a job (job.py), over a clock counted in microseconds. */
module JobTimeouts {
  import opened Common

  datatype Timeout = Timeout(timeout: int, retries: int, startedAt: Option<int>, retried: nat) {
    predicate IsStarted() {
      startedAt.Some?
    }

    predicate HasExpired(now: int) {
      startedAt.Some? && now - startedAt.value > timeout
    }

    /** How long a running timeout can go on without expiring. */
    function Left(now: int): int {
      if startedAt.Some? then startedAt.value + timeout - now else 0
    }

    /** Both `start` and `reset(when)`. */
    function StartedAt(when: int): Timeout {
      this.(startedAt := Some(when))
    }

    function Stopped(): Timeout {
      this.(startedAt := None)
    }

    /** The object after `retry`, whose answer is `MayRetry`. */
    function Retried(): Timeout {
      this.(startedAt := None, retried := retried + 1)
    }

    predicate MayRetry() {
      retried + 1 <= retries
    }

    /** How many more times `retry` would say yes. */
    function Unused(): nat {
      if retried < retries then retries - retried else 0
    }
  }

  function Sum(xs: seq<nat>): nat {
    if |xs| == 0 then 0 else Sum(xs[..|xs| - 1]) + xs[|xs| - 1]
  }

  /** The retries a list of timeouts would still grant, all together. */
  function Budget(ts: seq<Timeout>): nat {
    Sum(seq(|ts|, i requires 0 <= i < |ts| => ts[i].Unused()))
  }

  lemma BudgetSnoc(ts: seq<Timeout>, t: Timeout)
    ensures Budget(ts + [t]) == Budget(ts) + t.Unused()
  {
    var us := seq(|ts|, i requires 0 <= i < |ts| => ts[i].Unused());
    var vs := seq(|ts| + 1, i requires 0 <= i < |ts| + 1 => (ts + [t])[i].Unused());
    assert vs == us + [t.Unused()] && vs[..|ts|] == us;
  }

  lemma {:induction false} BudgetConcat(a: seq<Timeout>, b: seq<Timeout>)
    ensures Budget(a + b) == Budget(a) + Budget(b)
  {
    if |b| == 0 {
      assert a + b == a;
    } else {
      var front, last := b[..|b| - 1], b[|b| - 1];
      BudgetConcat(a, front);
      BudgetSnoc(front, last);
      BudgetSnoc(a + front, last);
      assert b == front + [last] && a + b == (a + front) + [last];
    }
  }

  lemma {:induction false} BudgetUpdate(ts: seq<Timeout>, k: nat, t: Timeout)
    requires k < |ts|
    ensures Budget(ts[k := t]) == Budget(ts) - ts[k].Unused() + t.Unused()
  {
    var front, last := ts[..|ts| - 1], ts[|ts| - 1];
    BudgetSnoc(front, last);
    assert ts == front + [last];
    if k == |ts| - 1 {
      BudgetSnoc(front, t);
      assert ts[k := t] == front + [t];
    } else {
      BudgetUpdate(front, k, t);
      BudgetSnoc(front[k := t], last);
      assert ts[k := t] == front[k := t] + [last];
    }
  }

  // Positions in the iteration order of `Timeouts.__iter__`; watchdogs come after these.
  const OVERALL := 0
  const INFRA_SETUP := 1
  const INFRA_TEARDOWN := 2
  const BOOT_CYCLE := 3
  const CONSOLE := 4
  const FIRST_CONSOLE := 5
  const WATCHDOGS := 6

  /** Only start times differ, and only those of watchdogs. */
  predicate WatchdogsMoved(before: seq<Timeout>, after: seq<Timeout>) {
    && |after| == |before| >= WATCHDOGS
    && (forall i :: 0 <= i < WATCHDOGS ==> after[i] == before[i])
    && (forall i :: WATCHDOGS <= i < |after| ==> after[i] == before[i].(startedAt := after[i].startedAt))
  }

  /** Only start times differ: no retry was charged. */
  predicate SameRetries(before: seq<Timeout>, after: seq<Timeout>) {
    && |after| == |before|
    && (forall i :: 0 <= i < |after| ==> after[i] == before[i].(startedAt := after[i].startedAt))
  }

  function BootArmed(ts: seq<Timeout>, now: int): seq<Timeout>
    requires |ts| >= WATCHDOGS
  {
    seq(|ts|, i requires 0 <= i < |ts| =>
      if i == BOOT_CYCLE || i == FIRST_CONSOLE then ts[i].StartedAt(now)
      else if i == CONSOLE || i >= WATCHDOGS then ts[i].Stopped()
      else ts[i])
  }

  lemma SameRetriesBudget(before: seq<Timeout>, after: seq<Timeout>)
    requires SameRetries(before, after)
    ensures Budget(before) == Budget(after)
  {
    assert seq(|before|, i requires 0 <= i < |before| => before[i].Unused())
        == seq(|after|, i requires 0 <= i < |after| => after[i].Unused());
  }

  lemma SameRetriesTransitive(a: seq<Timeout>, b: seq<Timeout>, c: seq<Timeout>)
    requires SameRetries(a, b) && SameRetries(b, c)
    ensures SameRetries(a, c)
  {
  }

  /** The retries that boots can spend: those of every timeout but overall and the infrastructure's. */
  function Spendable(ts: seq<Timeout>): nat
    requires |ts| >= WATCHDOGS
  {
    Budget(ts[BOOT_CYCLE..])
  }

  lemma SpendableIsBudget(ts: seq<Timeout>)
    requires |ts| >= WATCHDOGS && ts[OVERALL].retries == 0 && ts[INFRA_TEARDOWN].retries == 0
    ensures Budget(ts) == ts[INFRA_SETUP].Unused() + Spendable(ts)
  {
    var head := ts[..BOOT_CYCLE];
    assert ts == head + ts[BOOT_CYCLE..];
    BudgetConcat(head, ts[BOOT_CYCLE..]);
    assert head == ([] + [ts[OVERALL]] + [ts[INFRA_SETUP]]) + [ts[INFRA_TEARDOWN]];
    BudgetSnoc([] + [ts[OVERALL]] + [ts[INFRA_SETUP]], ts[INFRA_TEARDOWN]);
    BudgetSnoc([] + [ts[OVERALL]], ts[INFRA_SETUP]);
    BudgetSnoc([], ts[OVERALL]);
  }

  predicate SomeExpired(ts: seq<Timeout>, now: int) {
    exists i :: 0 <= i < |ts| && ts[i].HasExpired(now)
  }

  /** What `execute_job` charges at the end of a boot: every expired timeout, and a requested reboot. */
  function Charged(ts: seq<Timeout>, now: int, rebootAsked: bool): seq<Timeout> {
    seq(|ts|, i requires 0 <= i < |ts| =>
      var t := if ts[i].HasExpired(now) then ts[i].Retried() else ts[i];
      if rebootAsked && i == BOOT_CYCLE then t.Retried() else t)
  }

  /** One of these charges exceeds its limit. */
  ghost predicate Aborts(ts: seq<Timeout>, now: int, rebootAsked: bool) {
    || (exists i :: 0 <= i < |ts| && ts[i].HasExpired(now) && !ts[i].MayRetry())
    || (rebootAsked && |ts| > BOOT_CYCLE && Charged(ts, now, true)[BOOT_CYCLE].retried > ts[BOOT_CYCLE].retries)
  }

  /** No timeout would grant more retries than before. */
  ghost predicate NoneGains(before: seq<Timeout>, after: seq<Timeout>) {
    |after| == |before| && forall i :: 0 <= i < |after| ==> after[i].Unused() <= before[i].Unused()
  }

  lemma {:induction false} BudgetFalls(before: seq<Timeout>, after: seq<Timeout>)
    requires NoneGains(before, after)
    ensures Budget(after) <= Budget(before)
    ensures (exists k :: 0 <= k < |after| && after[k].Unused() < before[k].Unused()) ==> Budget(after) < Budget(before)
  {
    if |before| > 0 {
      var n := |before| - 1;
      BudgetFalls(before[..n], after[..n]);
      BudgetSnoc(before[..n], before[n]);
      BudgetSnoc(after[..n], after[n]);
      assert before == before[..n] + [before[n]] && after == after[..n] + [after[n]];
    }
  }

  lemma SameRetriesSpendable(before: seq<Timeout>, after: seq<Timeout>)
    requires SameRetries(before, after) && |before| >= WATCHDOGS
    ensures Spendable(before) == Spendable(after)
  {
    SameRetriesBudget(before[BOOT_CYCLE..], after[BOOT_CYCLE..]);
  }

  /** During a boot, unless a charge exceeds its limit, the retries that boots can spend pay for it. */
  lemma ChargeIsPaid(ts: seq<Timeout>, now: int, rebootAsked: bool)
    requires |ts| >= WATCHDOGS && ts[OVERALL].retries == 0
    requires !ts[INFRA_SETUP].IsStarted() && !ts[INFRA_TEARDOWN].IsStarted()
    requires !Aborts(ts, now, rebootAsked) && (rebootAsked || SomeExpired(ts, now))
    ensures Spendable(Charged(ts, now, rebootAsked)) < Spendable(ts)
  {
    var us := Charged(ts, now, rebootAsked);
    var k := BOOT_CYCLE;
    if !rebootAsked {
      k :| 0 <= k < |ts| && ts[k].HasExpired(now);
    }
    assert us[k].Unused() < ts[k].Unused();
    var before, after := ts[BOOT_CYCLE..], us[BOOT_CYCLE..];
    assert after[k - BOOT_CYCLE] == us[k] && before[k - BOOT_CYCLE] == ts[k];
    BudgetFalls(before, after);
  }

  /** The timeout after being retried `n` times. */
  function RetriedTimes(t: Timeout, n: nat): Timeout {
    if n == 0 then t else RetriedTimes(t, n - 1).Retried()
  }

  /** A timeout grants exactly as many retries as it was given, however often it is started in between. */
  lemma {:induction false} GrantsItsRetries(t: Timeout, n: nat)
    requires t.retried == 0
    ensures RetriedTimes(t, n).MayRetry() <==> n < t.retries
    ensures !RetriedTimes(t, n + 1).IsStarted()
    ensures RetriedTimes(t, n).retried == n && RetriedTimes(t, n).retries == t.retries
    ensures RetriedTimes(t, n).timeout == t.timeout
  {
    if n > 0 {
      GrantsItsRetries(t, n - 1);
    }
  }

  /** A running timeout expires once more than its length has passed, and not before; one that is not running never. */
  lemma ExpiresWhenDue(t: Timeout, start: int, now: int)
    ensures t.StartedAt(start).HasExpired(now) <==> now > start + t.timeout
    ensures !t.Stopped().HasExpired(now)
    ensures t.StartedAt(start).HasExpired(now) <==> t.StartedAt(start).Left(now) < 0
  {
  }

  /** How often the boot is charged to a timeout. */
  function Charges(ts: seq<Timeout>, now: int, rebootAsked: bool, i: nat): nat
    requires i < |ts|
  {
    (if ts[i].startedAt.Some? && now > ts[i].startedAt.value + ts[i].timeout then 1 else 0)
    + (if rebootAsked && i == BOOT_CYCLE then 1 else 0)
  }

  /**
   What the charges do, by their number: they are added to what was charged before, a charged timeout
   stops and the others are left alone, and the run is given up exactly when a charged timeout is then
   beyond its retries.
   */
  lemma ChargesExactly(ts: seq<Timeout>, now: int, rebootAsked: bool)
    requires |ts| >= WATCHDOGS
    ensures forall i :: 0 <= i < |ts| ==>
              Charged(ts, now, rebootAsked)[i] ==
                if Charges(ts, now, rebootAsked, i) == 0 then ts[i]
                else ts[i].(startedAt := None, retried := ts[i].retried + Charges(ts, now, rebootAsked, i))
    ensures Aborts(ts, now, rebootAsked)
       <==> exists i :: 0 <= i < |ts| && Charges(ts, now, rebootAsked, i) > 0 &&
                        ts[i].retried + Charges(ts, now, rebootAsked, i) > ts[i].retries
  {
    if i :| 0 <= i < |ts| && ts[i].HasExpired(now) && !ts[i].MayRetry() {
      assert Charges(ts, now, rebootAsked, i) > 0;
    }
    if rebootAsked && Charged(ts, now, true)[BOOT_CYCLE].retried > ts[BOOT_CYCLE].retries {
      assert Charges(ts, now, rebootAsked, BOOT_CYCLE) > 0;
    }
    if i :| 0 <= i < |ts| && Charges(ts, now, rebootAsked, i) > 0 &&
            ts[i].retried + Charges(ts, now, rebootAsked, i) > ts[i].retries {
      assert (rebootAsked && i == BOOT_CYCLE) || (ts[i].HasExpired(now) && !ts[i].MayRetry());
    }
  }

  class Timeouts {
    var all: seq<Timeout>

    ghost predicate Valid()
      reads this
    {
      |all| >= WATCHDOGS && all[OVERALL].retries == 0 && all[INFRA_TEARDOWN].retries == 0
    }

    constructor (all: seq<Timeout>)
      requires |all| >= WATCHDOGS && all[OVERALL].retries == 0 && all[INFRA_TEARDOWN].retries == 0
      ensures Valid() && this.all == all
    {
      this.all := all;
    }

    predicate HasExpired(now: int)
      reads this
    {
      SomeExpired(all, now)
    }

    method Start(k: nat, when: int)
      requires Valid() && k < |all|
      modifies this
      ensures Valid() && all == old(all)[k := old(all)[k].StartedAt(when)]
    {
      all := all[k := all[k].StartedAt(when)];
    }

    method Stop(k: nat)
      requires Valid() && k < |all|
      modifies this
      ensures Valid() && all == old(all)[k := old(all)[k].Stopped()]
    {
      all := all[k := all[k].Stopped()];
    }

    /** The console thread may start, reset or stop any watchdog. */
    method ConsoleThread()
      requires Valid()
      modifies this
      ensures Valid() && WatchdogsMoved(old(all), all)
    {
      for i := WATCHDOGS to |all|
        invariant Valid() && WatchdogsMoved(old(all), all)
      {
        var startedAt: Option<int> := *;
        all := all[i := all[i].(startedAt := startedAt)];
      }
    }

    /** Lines 714-720: the timeouts of a boot that starts now. */
    method ArmForBoot(now: int)
      requires Valid()
      modifies this
      ensures Valid() && all == BootArmed(old(all), now)
    {
      Start(BOOT_CYCLE, now);
      Start(FIRST_CONSOLE, now);
      Stop(CONSOLE);
      for i := WATCHDOGS to |all|
        invariant |all| == |old(all)|
        invariant forall k :: 0 <= k < i ==> all[k] == BootArmed(old(all), now)[k]
        invariant forall k :: i <= k < |all| ==> all[k] == old(all)[k]
      {
        Stop(i);
      }
    }

    /**
     The loop of `execute_job` that charges a retry to every expired timeout and decides whether
     the job is over. Unless it aborts, each charge came out of the budget.
     */
    method RetryExpired(now: int) returns (abort: bool)
      requires Valid()
      modifies this
      ensures Valid() && |all| == |old(all)|
      ensures forall i :: 0 <= i < |all| ==>
                all[i] == if old(all)[i].HasExpired(now) then old(all)[i].Retried() else old(all)[i]
      ensures abort <==> exists i :: 0 <= i < |all| && old(all)[i].HasExpired(now) && !old(all)[i].MayRetry()
      ensures !abort ==> Budget(all) <= Budget(old(all)) - (if SomeExpired(old(all), now) then 1 else 0)
    {
      abort := false;
      ghost var was := all;
      ghost var spent := 0;
      for i := 0 to |all|
        invariant |all| == |was|
        invariant forall k :: 0 <= k < i ==> all[k] == if was[k].HasExpired(now) then was[k].Retried() else was[k]
        invariant forall k :: i <= k < |all| ==> all[k] == was[k]
        invariant abort <==> exists k :: 0 <= k < i && was[k].HasExpired(now) && !was[k].MayRetry()
        invariant !abort ==> Budget(all) + spent == Budget(was)
        invariant spent == 0 ==> forall k :: 0 <= k < i ==> !was[k].HasExpired(now)
      {
        if all[i].HasExpired(now) {
          BudgetUpdate(all, i, all[i].Retried());
          abort := abort || !all[i].MayRetry();
          all := all[i := all[i].Retried()];
          spent := spent + 1;
        }
      }
    }

    /** Lines 749-754: a reboot that the machine asked for costs a boot-cycle retry. */
    method RetryBootCycle(aborting: bool) returns (abort: bool)
      requires Valid()
      modifies this
      ensures Valid() && all == old(all)[BOOT_CYCLE := old(all)[BOOT_CYCLE].Retried()]
      ensures abort <==> aborting || !old(all)[BOOT_CYCLE].MayRetry()
      ensures !abort ==> Budget(all) == Budget(old(all)) - 1
    {
      BudgetUpdate(all, BOOT_CYCLE, all[BOOT_CYCLE].Retried());
      abort := aborting || !all[BOOT_CYCLE].MayRetry();
      all := all[BOOT_CYCLE := all[BOOT_CYCLE].Retried()];
    }

    /**
     Lines 739-754: charge the expired timeouts and a requested reboot. Unless one exceeds its limit,
     the budget pays for the charges, and is untouched when there are none.
     */
    method ChargeBoot(now: int, rebootAsked: bool) returns (abort: bool)
      requires Valid()
      modifies this
      ensures Valid() && all == Charged(old(all), now, rebootAsked)
      ensures abort <==> Aborts(old(all), now, rebootAsked)
      ensures !abort && (rebootAsked || SomeExpired(old(all), now)) ==> Budget(all) < Budget(old(all))
      ensures !rebootAsked && !SomeExpired(old(all), now) ==> all == old(all)
    {
      abort := RetryExpired(now);
      if rebootAsked {
        abort := RetryBootCycle(abort);
      }
    }

    /** Lines 761-763. */
    method StopBootTimeouts()
      requires Valid()
      modifies this
      ensures Valid() && SameRetries(old(all), all) && Budget(all) == Budget(old(all))
      ensures forall i :: 0 <= i < |all| ==>
                all[i] == if i in {FIRST_CONSOLE, CONSOLE, BOOT_CYCLE} then old(all)[i].Stopped() else old(all)[i]
    {
      Stop(FIRST_CONSOLE);
      Stop(CONSOLE);
      Stop(BOOT_CYCLE);
      SameRetriesBudget(old(all), all);
    }

    /** Lines 739-763: charge the boot, and stop its timeouts unless a charge exceeds its limit. */
    method SettleBoot(now: int, rebootAsked: bool) returns (abort: bool)
      requires Valid()
      modifies this
      ensures Valid() && SameRetries(Charged(old(all), now, rebootAsked), all)
      ensures abort <==> Aborts(old(all), now, rebootAsked)
      ensures forall i :: INFRA_SETUP <= i <= INFRA_TEARDOWN && !old(all[i].IsStarted()) ==> all[i] == old(all[i])
      ensures !abort ==> forall i :: BOOT_CYCLE <= i <= FIRST_CONSOLE ==> !all[i].IsStarted()
      ensures !abort ==> all[OVERALL] == old(all[OVERALL])
      ensures !abort ==> if rebootAsked || SomeExpired(old(all), now) then Budget(all) < Budget(old(all))
                         else Budget(all) == Budget(old(all))
    {
      abort := ChargeBoot(now, rebootAsked);
      if !abort {
        StopBootTimeouts();
      }
    }
  }
}
