/**
 The boot-on-AC firmware (firmwares/boot_on_AC.ino): debounce the power state of a machine and press
 its power button until it boots. `millis()` counts milliseconds in 32 bits and wraps around; the
 model carries the real time of every call beside it.
 */
module BootOnAc {
  const WRAP := 0x1_0000_0000
  const DEBOUNCE_TIME := 20
  const PRESS_TIME := 100
  const PRESS_TO_STATE_ON_DELAY := 250
  const SUCCESSFUL_BOOT_DELAY := 10000

  datatype Power = UNKNOWN | OFF | ON

  /** What one `loop()` sees: the pin, and the real times at which it reads the pin and the clock. */
  datatype Turn = Turn(sample: Power, sampledAt: nat, readAt: nat, checkedAt: nat, releasedAt: nat, lateAt: nat)

  datatype Board = Board(debounced: Power, last: Power, bootComplete: bool, lastStateChange: nat, lastBootAttempt: nat)

  const RESET := Board(UNKNOWN, UNKNOWN, false, 0, 0)

  function Millis(at: nat): nat {
    at % WRAP
  }

  /** `millis() - then` in unsigned 32-bit arithmetic. */
  function Since(at: nat, then_: nat): nat {
    (Millis(at) - then_) % WRAP
  }

  function Debounce(b: Board, t: Turn): Board {
    if t.sample != b.last then b.(last := t.sample, lastStateChange := Millis(t.readAt))
    else if Since(t.readAt, b.lastStateChange) > DEBOUNCE_TIME then b.(debounced := t.sample)
    else b
  }

  /** Whether the power button is pressed in this turn. */
  predicate Presses(b: Board, t: Turn) {
    var d := Debounce(b, t);
    !d.bootComplete && d.debounced == OFF && Since(t.checkedAt, d.lastBootAttempt) > PRESS_TO_STATE_ON_DELAY
  }

  function Step(b: Board, t: Turn): Board {
    var d := Debounce(b, t);
    if Presses(b, t) then d.(lastBootAttempt := Millis(t.releasedAt))
    else if d.debounced == ON && Since(t.lateAt, d.lastBootAttempt) > SUCCESSFUL_BOOT_DELAY then
      d.(bootComplete := true)
    else d
  }

  class Firmware {
    var debounced: Power
    var last: Power
    var bootComplete: bool
    var lastStateChange: nat
    var lastBootAttempt: nat
    var buttonPresses: nat

    function Globals(): Board
      reads this
    {
      Board(debounced, last, bootComplete, lastStateChange, lastBootAttempt)
    }

    constructor ()
      ensures Globals() == RESET && buttonPresses == 0
    {
      debounced, last, bootComplete := UNKNOWN, UNKNOWN, false;
      lastStateChange, lastBootAttempt, buttonPresses := 0, 0, 0;
    }

    method Loop(t: Turn)
      modifies this
      ensures Globals() == Step(old(Globals()), t)
      ensures buttonPresses == old(buttonPresses) + if Presses(old(Globals()), t) then 1 else 0
    {
      if t.sample != last {
        last := t.sample;
        lastStateChange := Millis(t.readAt);
      } else if Since(t.readAt, lastStateChange) > DEBOUNCE_TIME {
        debounced := t.sample;
      }
      if !bootComplete && debounced == OFF && Since(t.checkedAt, lastBootAttempt) > PRESS_TO_STATE_ON_DELAY {
        buttonPresses := buttonPresses + 1;
        lastBootAttempt := Millis(t.releasedAt);
      } else if debounced == ON && Since(t.lateAt, lastBootAttempt) > SUCCESSFUL_BOOT_DELAY {
        bootComplete := true;
      }
    }
  }

  // ---------------------------------------------------------------------------
  // Whole runs

  /** The board after the first `n` turns. */
  function Run(turns: seq<Turn>, n: nat): Board
    requires n <= |turns|
  {
    if n == 0 then RESET else Step(Run(turns, n - 1), turns[n - 1])
  }

  predicate PressedAt(turns: seq<Turn>, k: nat)
    requires k < |turns|
  {
    Presses(Run(turns, k), turns[k])
  }

  /** The pin reads ON or OFF, and time passes in the order of the calls; a press lasts at least its delay. */
  predicate InOrder(t: Turn) {
    && t.sample != UNKNOWN && t.sampledAt <= t.readAt <= t.checkedAt <= t.lateAt
    && t.checkedAt + PRESS_TIME <= t.releasedAt
  }

  /** Every turn starts after the earlier ones. */
  ghost predicate Timed(turns: seq<Turn>) {
    && (forall k :: 0 <= k < |turns| ==> InOrder(turns[k]))
    && (forall i, k :: 0 <= i < k < |turns| ==> turns[i].lateAt <= turns[k].sampledAt)
  }

  /** A turn that follows a press starts after its release. */
  ghost predicate AfterRelease(turns: seq<Turn>, i: nat)
    requires i < |turns|
  {
    forall k :: i < k < |turns| ==> turns[i].releasedAt <= turns[k].sampledAt
  }

  /** Where the run of equal samples that ends with sample `k` starts. */
  function RunStart(turns: seq<Turn>, k: nat): (c: nat)
    requires k < |turns|
    ensures c <= k && forall j :: c <= j <= k ==> turns[j].sample == turns[k].sample
  {
    if k == 0 || turns[k - 1].sample != turns[k].sample then k else RunStart(turns, k - 1)
  }

  lemma SinceIsReal(at: nat, then_: nat)
    requires then_ <= at
    ensures Since(at, Millis(then_)) == (at - then_) % WRAP <= at - then_
  {
    assert at % WRAP - then_ % WRAP == (at - then_) - WRAP * (at / WRAP - then_ / WRAP);
  }

  lemma SinceAtMostReal(at: nat, then_: nat)
    requires then_ <= at
    ensures Since(at, Millis(then_)) <= at - then_
  {
    SinceIsReal(at, then_);
  }

  /** The debounced state only moves to a sample that has been steady for long enough. */
  lemma DebounceStep(b: Board, t: Turn)
    ensures Step(b, t).debounced != b.debounced ==>
              && Step(b, t).debounced == t.sample == b.last
              && Since(t.readAt, b.lastStateChange) > DEBOUNCE_TIME
  {
  }

  /** The firmware remembers when the current run of samples started, up to wrap-around. */
  lemma {:induction false} RemembersRunStart(turns: seq<Turn>, k: nat)
    requires k < |turns| && Timed(turns)
    ensures Run(turns, k + 1).last == turns[k].sample
    ensures Run(turns, k + 1).lastStateChange == Millis(turns[RunStart(turns, k)].readAt)
  {
    assert InOrder(turns[k]);
    if k > 0 {
      RemembersRunStart(turns, k - 1);
    }
  }

  /**
   The debounced state takes a value in turn `k` only after more than 20 ms of real time during which
   every sample had that value, across any number of clock wrap-arounds.
   */
  lemma DebouncedAfterSteadySamples(turns: seq<Turn>, k: nat)
    requires k < |turns| && Timed(turns) && Run(turns, k + 1).debounced != Run(turns, k).debounced
    ensures var c := RunStart(turns, k);
            && Run(turns, k + 1).debounced == turns[k].sample
            && turns[k].readAt - turns[c].sampledAt > DEBOUNCE_TIME
            && forall j :: c <= j <= k ==> turns[j].sample == turns[k].sample
  {
    assert InOrder(turns[k]);
    DebounceStep(Run(turns, k), turns[k]);
    if k > 0 {
      RemembersRunStart(turns, k - 1);
      var c := RunStart(turns, k - 1);
      assert InOrder(turns[c]);
      assert turns[c].lateAt <= turns[k].sampledAt;
      SinceAtMostReal(turns[k].readAt, turns[c].readAt);
    }
  }

  /** Turn `k` read the pin when every sample of more than 20 ms had been the same as its own. */
  predicate Steady(turns: seq<Turn>, k: nat)
    requires k < |turns|
  {
    RunStart(turns, k) < k && Since(turns[k].readAt, Millis(turns[RunStart(turns, k)].readAt)) > DEBOUNCE_TIME
  }

  /** The power state by the samples alone: that of the latest steady turn, unknown before the first. */
  function Settled(turns: seq<Turn>, n: nat): Power
    requires n <= |turns|
  {
    if n == 0 then UNKNOWN else if Steady(turns, n - 1) then turns[n - 1].sample else Settled(turns, n - 1)
  }

  lemma DebouncedBy(b: Board, t: Turn)
    ensures Step(b, t).debounced ==
              if t.sample == b.last && Since(t.readAt, b.lastStateChange) > DEBOUNCE_TIME then t.sample else b.debounced
  {
  }

  lemma {:induction false} DebouncedIsSettled(turns: seq<Turn>, n: nat)
    requires n <= |turns| && Timed(turns)
    ensures Run(turns, n).debounced == Settled(turns, n)
  {
    if n > 0 {
      DebouncedIsSettled(turns, n - 1);
      assert InOrder(turns[n - 1]);
      DebouncedBy(Run(turns, n - 1), turns[n - 1]);
      if n > 1 {
        RemembersRunStart(turns, n - 2);
      }
    }
  }

  lemma DebounceKeeps(b: Board, t: Turn)
    ensures var d := Debounce(b, t);
            && Step(b, t).debounced == d.debounced
            && d.bootComplete == b.bootComplete && d.lastBootAttempt == b.lastBootAttempt
  {
  }

  /** The button is pressed exactly in the turns in which the machine is off and the boot not complete, in time. */
  lemma PressedExactly(turns: seq<Turn>, k: nat)
    requires k < |turns| && Timed(turns)
    ensures PressedAt(turns, k)
       <==> && !Run(turns, k).bootComplete && Settled(turns, k + 1) == OFF
            && Since(turns[k].checkedAt, Run(turns, k).lastBootAttempt) > PRESS_TO_STATE_ON_DELAY
  {
    DebouncedIsSettled(turns, k + 1);
    DebounceKeeps(Run(turns, k), turns[k]);
  }

  /** The boot becomes complete exactly when the machine is on, ten seconds after the latest attempt. */
  lemma CompletedExactly(turns: seq<Turn>, k: nat)
    requires k < |turns| && Timed(turns) && !Run(turns, k).bootComplete
    ensures Run(turns, k + 1).bootComplete
       <==> && Settled(turns, k + 1) == ON
            && Since(turns[k].lateAt, Run(turns, k).lastBootAttempt) > SUCCESSFUL_BOOT_DELAY
  {
    DebouncedIsSettled(turns, k + 1);
    DebounceKeeps(Run(turns, k), turns[k]);
  }

  /** The time of the latest press before turn `k` is what the firmware remembers, up to wrap-around. */
  lemma {:induction false} RemembersLastPress(turns: seq<Turn>, k: nat, i: nat)
    requires i < k <= |turns| && PressedAt(turns, i) && forall j :: i < j < k ==> !PressedAt(turns, j)
    ensures Run(turns, k).lastBootAttempt == Millis(turns[i].releasedAt)
    decreases k
  {
    if i < k - 1 {
      RemembersLastPress(turns, k - 1, i);
      assert !PressedAt(turns, k - 1);
    }
  }

  /** Before the first press it is as after a reset. */
  lemma {:induction false} NoAttemptYet(turns: seq<Turn>, k: nat)
    requires k <= |turns| && forall j :: 0 <= j < k ==> !PressedAt(turns, j)
    ensures Run(turns, k).lastBootAttempt == 0
  {
    if k > 0 {
      NoAttemptYet(turns, k - 1);
      assert !PressedAt(turns, k - 1);
    }
  }

  lemma {:induction false} LatestPress(turns: seq<Turn>, i: nat, k: nat) returns (m: nat)
    requires i < k <= |turns| && PressedAt(turns, i)
    ensures i <= m < k && PressedAt(turns, m) && forall j :: m < j < k ==> !PressedAt(turns, j)
    decreases k
  {
    if PressedAt(turns, k - 1) {
      m := k - 1;
    } else {
      m := LatestPress(turns, i, k - 1);
    }
  }

  /** Every press starts more than 250 ms after every earlier release. */
  lemma PressesAreSpaced(turns: seq<Turn>, i: nat, k: nat)
    requires i < k < |turns| && Timed(turns) && PressedAt(turns, i) && PressedAt(turns, k)
    requires forall j :: 0 <= j < |turns| && PressedAt(turns, j) ==> AfterRelease(turns, j)
    ensures turns[k].checkedAt - turns[i].releasedAt > PRESS_TO_STATE_ON_DELAY
  {
    var m := LatestPress(turns, i, k);
    assert InOrder(turns[k]) && InOrder(turns[m]) && AfterRelease(turns, m) && AfterRelease(turns, i);
    PressWaits(turns, m, k);
  }

  lemma PressWaits(turns: seq<Turn>, m: nat, k: nat)
    requires m < k < |turns| && PressedAt(turns, m) && PressedAt(turns, k)
    requires forall j :: m < j < k ==> !PressedAt(turns, j)
    requires turns[m].releasedAt <= turns[k].checkedAt
    ensures turns[k].checkedAt - turns[m].releasedAt > PRESS_TO_STATE_ON_DELAY
  {
    RemembersLastPress(turns, k, m);
    SinceAtMostReal(turns[k].checkedAt, turns[m].releasedAt);
  }

  lemma {:induction false} CompleteStays(turns: seq<Turn>, i: nat, k: nat)
    requires i <= k <= |turns| && Run(turns, i).bootComplete
    ensures Run(turns, k).bootComplete
    decreases k
  {
    if i < k {
      CompleteStays(turns, i, k - 1);
    }
  }

  /** Once the boot is complete the button is never pressed again. */
  lemma NoPressAfterComplete(turns: seq<Turn>, i: nat, k: nat)
    requires i <= k < |turns| && Run(turns, i).bootComplete
    ensures !PressedAt(turns, k)
  {
    CompleteStays(turns, i, k);
  }
}
