/**
 The state protocol of `JobConsole` (executor.py): two threads push one console through
 CREATED, ACTIVE, DUT_DONE, TEAR_DOWN and OVER with atomic `set_state` calls.
 */
module JobConsoles {
  import opened Common

  datatype JobConsoleState = CREATED | ACTIVE | DUT_DONE | TEAR_DOWN | OVER {
    function Rank(): nat {
      match this
      case CREATED => 0
      case ACTIVE => 1
      case DUT_DONE => 2
      case TEAR_DOWN => 3
      case OVER => 4
    }
  }

  /** What entering a state does to the outside world. */
  datatype Action = MarkStart | CloseSalad | SessionEnd | ShutClientWrite | CloseClient

  /** Version 0 is falsy in the source, so it counts as having no client. */
  predicate HasClient(client: Option<int>) {
    client.Some? && client.value != 0
  }

  function EntryActions(client: Option<int>, s: JobConsoleState): seq<Action> {
    match s
    case CREATED => []
    case ACTIVE => [MarkStart]
    case DUT_DONE => []
    case TEAR_DOWN =>
      [CloseSalad] + (if client == Some(1) then [SessionEnd] else [])
      + (if HasClient(client) then [ShutClientWrite] else [])
    case OVER => [CloseSalad] + (if HasClient(client) then [CloseClient] else [])
  }

  /** The observable part of a console: its state, the states it entered and what that did, in order. */
  datatype View = View(client: Option<int>, state: JobConsoleState,
                       entered: seq<JobConsoleState>, actions: seq<Action>)

  function Created(client: Option<int>): View {
    View(client, CREATED, [], [])
  }

  function Enter(v: View, s: JobConsoleState): View {
    v.(state := s, entered := v.entered + [s], actions := v.actions + EntryActions(v.client, s))
  }

  /** One `set_state` call; a call that would move backwards raises and changes nothing. */
  function Transition(v: View, target: JobConsoleState): View {
    if target.Rank() <= v.state.Rank() then v
    else if target == DUT_DONE && !HasClient(v.client) then Enter(Enter(v, DUT_DONE), OVER)
    else Enter(v, target)
  }

  /** The console after any interleaving of calls, listed in the order in which they took effect. */
  function Run(client: Option<int>, calls: seq<JobConsoleState>): View {
    if |calls| == 0 then Created(client)
    else Transition(Run(client, calls[..|calls| - 1]), calls[|calls| - 1])
  }

  lemma RunSnoc(client: Option<int>, calls: seq<JobConsoleState>, target: JobConsoleState)
    ensures Run(client, calls + [target]) == Transition(Run(client, calls), target)
  {
    assert (calls + [target])[..|calls|] == calls;
  }

  class JobConsole {
    const client: Option<int>
    var state: JobConsoleState
    var alive: bool
    var needsReboot: bool
    var lastActivity: Option<int>
    ghost var entered: seq<JobConsoleState>
    ghost var actions: seq<Action>
    ghost var resets: nat  // how often a boot started afresh
    ghost var calls: seq<JobConsoleState>  // every `set_state` call by any thread, as they took effect

    /** The console is what its history of calls made it. */
    ghost predicate Valid()
      reads this
    {
      Observed() == Run(client, calls)
    }

    ghost function Observed(): View
      reads this
    {
      View(client, state, entered, actions)
    }

    constructor (client: Option<int>)
      ensures Observed() == Created(client) && Valid()
      ensures !alive && !needsReboot && lastActivity == None
    {
      this.client := client;
      state := CREATED;
      alive, needsReboot, lastActivity := false, false, None;
      entered, actions, calls, resets := [], [], [], 0;
    }

    /** The `state` property: an ACTIVE console whose thread died reads as OVER. */
    function State(): JobConsoleState
      reads this
    {
      if state == ACTIVE && !alive then OVER else state
    }

    /** What a boot must not take over from the one before. */
    method ResetPerBootState()
      modifies this`lastActivity, this`needsReboot, this`resets
      ensures lastActivity == None && !needsReboot && resets == old(resets) + 1
    {
      lastActivity, needsReboot, resets := None, false, resets + 1;
    }

    /** A `set_state` call of a thread. */
    method SetState(target: JobConsoleState) returns (raised: bool)
      modifies this`state, this`entered, this`actions, this`calls
      ensures old(Valid()) ==> Valid()
      ensures calls == old(calls) + [target]
      ensures raised <==> target.Rank() < old(state).Rank()
      ensures Observed() == Transition(old(Observed()), target)
    {
      RunSnoc(client, calls, target);
      raised := Move(target);
      calls := calls + [target];
    }

    /** The body of `set_state`, which calls itself for a console without a client. */
    method Move(target: JobConsoleState) returns (raised: bool)
      modifies this`state, this`entered, this`actions
      ensures raised <==> target.Rank() < old(state).Rank()
      ensures Observed() == Transition(old(Observed()), target)
      decreases 4 - target.Rank()
    {
      if target.Rank() < state.Rank() {
        return true;
      } else if target == state {
        return false;
      }
      state := target;
      entered := entered + [target];
      match target {
        case ACTIVE =>
          actions := actions + [MarkStart];
        case DUT_DONE =>
          assert actions + [] == actions;
          if !HasClient(client) {
            raised := Move(OVER);
          }
        case TEAR_DOWN =>
          ghost var before := actions;
          actions := actions + [CloseSalad];
          if HasClient(client) {
            if client.value == 1 {
              actions := actions + [SessionEnd];
            }
            actions := actions + [ShutClientWrite];
          }
          assert actions == before + EntryActions(client, TEAR_DOWN);
        case OVER =>
          ghost var before := actions;
          actions := actions + [CloseSalad];
          if HasClient(client) {
            actions := actions + [CloseClient];
          }
          assert actions == before + EntryActions(client, OVER);
        case CREATED =>
      }
      raised := false;
    }

    /** A console that reached DUT_DONE, or whose thread died, stays that way. */
    predicate Done()
      reads this
      ensures Done() <==> state in {DUT_DONE, TEAR_DOWN, OVER} || (state == ACTIVE && !alive)
    {
      State().Rank() >= DUT_DONE.Rank()
    }

    /** `set_state(DUT_DONE)`: whether or not it raises, the job is done. */
    method EndJob() returns (raised: bool)
      modifies this`state, this`entered, this`actions, this`calls
      ensures old(Valid()) ==> Valid()
      ensures Done()
    {
      raised := SetState(DUT_DONE);
    }

    /**
     Any behaviour of the console thread and of the client: it moves the state forward (only the
     executor thread asks for TEAR_DOWN), may die, ask for a reboot and note activity.
     */
    method ConsoleThread()
      modifies this
      ensures old(Valid()) ==> Valid()
      ensures old(Done()) ==> Done()
      ensures old(needsReboot) ==> needsReboot
      ensures old(lastActivity.Some?) ==> lastActivity.Some?
      ensures state == TEAR_DOWN ==> old(state) == TEAR_DOWN
      ensures old(entered) <= entered
      ensures resets == old(resets)
    {
      var targets: seq<JobConsoleState> := *;
      for i := 0 to |targets|
        invariant old(Valid()) ==> Valid()
        invariant old(state).Rank() <= state.Rank() && old(entered) <= entered
        invariant state == TEAR_DOWN ==> old(state) == TEAR_DOWN
        invariant alive == old(alive) && needsReboot == old(needsReboot) && lastActivity == old(lastActivity)
        invariant resets == old(resets)
      {
        if targets[i] != TEAR_DOWN {
          var raised := SetState(targets[i]);
        }
      }
      var dies: bool, reboot: bool, activity: Option<int> := *, *, *;
      alive, needsReboot := alive && !dies, needsReboot || reboot;
      if activity.Some? {
        lastActivity := activity;
      }
    }
  }

  // --------------------------------------------------------------------------
  // What every interleaving keeps

  ghost predicate StrictlyForward(entered: seq<JobConsoleState>) {
    forall i, j :: 0 <= i < j < |entered| ==> entered[i].Rank() < entered[j].Rank()
  }

  ghost predicate EndsIn(v: View) {
    if |v.entered| == 0 then v.state == CREATED else v.state == v.entered[|v.entered| - 1] && v.state != CREATED
  }

  function ActionsOf(client: Option<int>, entered: seq<JobConsoleState>): seq<Action> {
    if |entered| == 0 then []
    else ActionsOf(client, entered[..|entered| - 1]) + EntryActions(client, entered[|entered| - 1])
  }

  ghost predicate Consistent(v: View) {
    StrictlyForward(v.entered) && EndsIn(v) && v.actions == ActionsOf(v.client, v.entered)
  }

  lemma EnterConsistent(v: View, s: JobConsoleState)
    requires Consistent(v) && v.state.Rank() < s.Rank()
    ensures Consistent(Enter(v, s))
  {
    var w := Enter(v, s);
    assert w.entered[..|w.entered| - 1] == v.entered;
  }

  /** Every state's entry action ran at most once, in state order, and nothing else ran. */
  lemma {:induction false} RunConsistent(client: Option<int>, calls: seq<JobConsoleState>)
    ensures Consistent(Run(client, calls)) && Run(client, calls).client == client
  {
    if |calls| > 0 {
      var v, target := Run(client, calls[..|calls| - 1]), calls[|calls| - 1];
      RunConsistent(client, calls[..|calls| - 1]);
      if v.state.Rank() < target.Rank() {
        EnterConsistent(v, target);
        if target == DUT_DONE && !HasClient(client) {
          EnterConsistent(Enter(v, DUT_DONE), OVER);
        }
      }
    }
  }

  /** One console is as far as another, or further. */
  ghost predicate Precedes(v: View, w: View) {
    v.state.Rank() <= w.state.Rank() && v.entered <= w.entered && v.actions <= w.actions
  }

  lemma TransitionForward(v: View, target: JobConsoleState)
    ensures Precedes(v, Transition(v, target))
  {
  }

  lemma PrecedesTransitive(u: View, v: View, w: View)
    requires Precedes(u, v) && Precedes(v, w)
    ensures Precedes(u, w)
  {
  }

  lemma {:induction false} RunForward(client: Option<int>, calls: seq<JobConsoleState>, more: seq<JobConsoleState>)
    ensures Precedes(Run(client, calls), Run(client, calls + more))
  {
    if |more| == 0 {
      assert calls + more == calls;
    } else {
      var front, last := more[..|more| - 1], more[|more| - 1];
      RunForward(client, calls, front);
      RunSnoc(client, calls + front, last);
      Associative(calls, front, [last]);
      LastOf(more);
      TransitionForward(Run(client, calls + front), last);
      PrecedesTransitive(Run(client, calls), Run(client, calls + front), Run(client, calls + more));
    }
  }

  /** However the two threads interleave, the state never decreases along a run. */
  lemma StateNeverDecreases(client: Option<int>, calls: seq<JobConsoleState>, i: nat, j: nat)
    requires i <= j <= |calls|
    ensures Precedes(Run(client, calls[..i]), Run(client, calls[..j]))
  {
    RunForward(client, calls[..i], calls[i..j]);
    assert calls[..i] + calls[i..j] == calls[..j];
  }

  ghost predicate AtMostOnce(acts: seq<Action>, a: Action) {
    forall i, j :: 0 <= i < j < |acts| ==> !(acts[i] == a && acts[j] == a)
  }

  ghost predicate OnlyLast(acts: seq<Action>, a: Action) {
    forall i :: 0 <= i < |acts| - 1 ==> acts[i] != a
  }

  lemma EntryActionsShape(client: Option<int>, s: JobConsoleState)
    ensures var b := EntryActions(client, s);
            && (SessionEnd in b <==> client == Some(1) && s == TEAR_DOWN)
            && (CloseClient in b <==> HasClient(client) && s == OVER)
            && AtMostOnce(b, SessionEnd) && OnlyLast(b, CloseClient)
  {
    match s
    case TEAR_DOWN =>
      assert EntryActions(client, s) == if client == Some(1) then [CloseSalad, SessionEnd, ShutClientWrite]
                                        else if HasClient(client) then [CloseSalad, ShutClientWrite]
                                        else [CloseSalad];
    case OVER =>
      assert EntryActions(client, s) == if HasClient(client) then [CloseSalad, CloseClient] else [CloseSalad];
    case _ =>
  }

  lemma AppendShape(a: seq<Action>, b: seq<Action>)
    requires AtMostOnce(a, SessionEnd) && AtMostOnce(b, SessionEnd)
    requires SessionEnd !in a || SessionEnd !in b
    requires CloseClient !in a && OnlyLast(b, CloseClient)
    ensures AtMostOnce(a + b, SessionEnd) && OnlyLast(a + b, CloseClient)
  {
  }

  /** Where the actions of a strictly forward list of states can hold a session end or a client close. */
  lemma {:induction false} ActionsOfForward(client: Option<int>, entered: seq<JobConsoleState>)
    requires StrictlyForward(entered)
    ensures var acts := ActionsOf(client, entered);
            && (SessionEnd in acts <==> client == Some(1) && TEAR_DOWN in entered)
            && (CloseClient in acts <==> HasClient(client) && OVER in entered)
            && AtMostOnce(acts, SessionEnd) && OnlyLast(acts, CloseClient)
  {
    if |entered| > 0 {
      var front, last := entered[..|entered| - 1], entered[|entered| - 1];
      ActionsOfForward(client, front);
      EntryActionsShape(client, last);
      assert entered == front + [last];
      AppendShape(ActionsOf(client, front), EntryActions(client, last));
    }
  }

  /** An action was taken exactly if a state that calls for it was entered. */
  lemma {:induction false} ActionsExactly(client: Option<int>, entered: seq<JobConsoleState>, a: Action)
    ensures a in ActionsOf(client, entered) <==> exists s :: s in entered && a in EntryActions(client, s)
  {
    if |entered| > 0 {
      ActionsExactly(client, entered[..|entered| - 1], a);
      LastOf(entered);
    }
  }

  /** And the states that call for it are these. */
  lemma ActionBelongs(client: Option<int>, s: JobConsoleState)
    ensures var b := EntryActions(client, s);
            && (MarkStart in b <==> s == ACTIVE) && (CloseSalad in b <==> s == TEAR_DOWN || s == OVER)
            && (ShutClientWrite in b <==> HasClient(client) && s == TEAR_DOWN)
            && (CloseClient in b <==> HasClient(client) && s == OVER)
            && (SessionEnd in b <==> client == Some(1) && s == TEAR_DOWN)
  {
    EntryActionsShape(client, s);
    match s
    case TEAR_DOWN =>
      assert EntryActions(client, s) == if client == Some(1) then [CloseSalad, SessionEnd, ShutClientWrite]
                                        else if HasClient(client) then [CloseSalad, ShutClientWrite]
                                        else [CloseSalad];
    case OVER =>
      assert EntryActions(client, s) == if HasClient(client) then [CloseSalad, CloseClient] else [CloseSalad];
    case _ =>
  }

  /**
   The session end went out at most once, exactly if a version-1 client is attached and tear-down was
   entered, never after the client's socket was closed; and no state was entered twice.
   */
  ghost predicate OneSessionEnd(v: View) {
    && (SessionEnd in v.actions <==> v.client == Some(1) && TEAR_DOWN in v.entered)
    && AtMostOnce(v.actions, SessionEnd)
    && (forall i, j :: 0 <= i < j < |v.actions| && v.actions[j] == SessionEnd ==> v.actions[i] != CloseClient)
    && (forall i, j :: 0 <= i < j < |v.entered| ==> v.entered[i] != v.entered[j])
  }

  /** That holds for every interleaving. */
  lemma SessionEndAtMostOnce(client: Option<int>, calls: seq<JobConsoleState>)
    ensures OneSessionEnd(Run(client, calls))
  {
    RunConsistent(client, calls);
    ActionsOfForward(client, Run(client, calls).entered);
  }

  /** A client of version 0 is none: nothing tells the two consoles apart. */
  lemma {:induction false} VersionZeroIsNoClient(calls: seq<JobConsoleState>)
    ensures Run(Some(0), calls) == Run(None, calls).(client := Some(0))
  {
    if |calls| > 0 {
      VersionZeroIsNoClient(calls[..|calls| - 1]);
      RunConsistent(None, calls[..|calls| - 1]);
      assert forall s :: EntryActions(Some(0), s) == EntryActions(None, s);
    }
  }

  // --------------------------------------------------------------------------
  // Which state the calls lead to

  /** The highest state that was asked for. */
  function Highest(calls: seq<JobConsoleState>): JobConsoleState {
    if |calls| == 0 then CREATED
    else
      var before, last := Highest(calls[..|calls| - 1]), calls[|calls| - 1];
      if before.Rank() < last.Rank() then last else before
  }

  /** The first call for DUT_DONE or beyond asked for just that. */
  predicate DoneFirst(calls: seq<JobConsoleState>) {
    |calls| > 0 &&
    (DoneFirst(calls[..|calls| - 1]) ||
     (calls[|calls| - 1] == DUT_DONE && Highest(calls[..|calls| - 1]).Rank() < DUT_DONE.Rank()))
  }

  lemma {:induction false} DoneFirstIsHigh(calls: seq<JobConsoleState>)
    ensures DoneFirst(calls) ==> Highest(calls).Rank() >= DUT_DONE.Rank()
  {
    if |calls| > 0 {
      DoneFirstIsHigh(calls[..|calls| - 1]);
    }
  }

  /**
   Whatever the interleaving, the console is in the highest state asked for. Without a client it is over
   instead as soon as DUT_DONE is asked for, unless more was asked for before.
   */
  lemma {:induction false} StateReached(client: Option<int>, calls: seq<JobConsoleState>)
    ensures Run(client, calls).client == client
    ensures Run(client, calls).state == if !HasClient(client) && DoneFirst(calls) then OVER else Highest(calls)
    ensures Run(client, calls).state == DUT_DONE ==> HasClient(client)
  {
    if |calls| > 0 {
      StateReached(client, calls[..|calls| - 1]);
      DoneFirstIsHigh(calls[..|calls| - 1]);
    }
  }

  /** Call `i` asks for more than every call before it. */
  ghost predicate IsRecord(calls: seq<JobConsoleState>, i: nat)
    requires i < |calls|
  {
    calls[i] != CREATED && forall j :: 0 <= j < i ==> calls[j].Rank() < calls[i].Rank()
  }

  lemma {:induction false} HighestBounds(calls: seq<JobConsoleState>, rank: nat)
    ensures Highest(calls).Rank() < rank <==> rank > 0 && forall j :: 0 <= j < |calls| ==> calls[j].Rank() < rank
  {
    if |calls| > 0 {
      HighestBounds(calls[..|calls| - 1], rank);
      assert calls == calls[..|calls| - 1] + [calls[|calls| - 1]];
    }
  }

  lemma RecordInFront(calls: seq<JobConsoleState>, i: nat)
    requires i < |calls| - 1
    ensures IsRecord(calls, i) <==> IsRecord(calls[..|calls| - 1], i)
  {
  }

  lemma LastRecord(calls: seq<JobConsoleState>)
    requires |calls| > 0
    ensures IsRecord(calls, |calls| - 1) <==> Highest(calls[..|calls| - 1]).Rank() < calls[|calls| - 1].Rank()
  {
    HighestBounds(calls[..|calls| - 1], calls[|calls| - 1].Rank());
  }

  /** Some call asked for this state, and for more than any call before. */
  ghost predicate Recorded(calls: seq<JobConsoleState>, s: JobConsoleState) {
    exists i :: 0 <= i < |calls| && calls[i] == s && IsRecord(calls, i)
  }

  lemma RecordedSnoc(calls: seq<JobConsoleState>, s: JobConsoleState)
    requires |calls| > 0
    ensures Recorded(calls, s)
       <==> Recorded(calls[..|calls| - 1], s) || (calls[|calls| - 1] == s && IsRecord(calls, |calls| - 1))
  {
    var front := calls[..|calls| - 1];
    forall i | 0 <= i < |front|
      ensures front[i] == calls[i] && (IsRecord(calls, i) <==> IsRecord(front, i))
    {
      RecordInFront(calls, i);
    }
  }

  /** With a client, the states entered are exactly those that were asked for when nothing higher had been. */
  lemma {:induction false} EnteredExactly(client: Option<int>, calls: seq<JobConsoleState>, s: JobConsoleState)
    requires HasClient(client)
    ensures s in Run(client, calls).entered <==> Recorded(calls, s)
  {
    if |calls| > 0 {
      EnteredExactly(client, calls[..|calls| - 1], s);
      StateReached(client, calls[..|calls| - 1]);
      LastRecord(calls);
      RecordedSnoc(calls, s);
    }
  }

  /** Without one, DUT_DONE and OVER are entered together, and nothing but OVER that was not asked for. */
  lemma {:induction false} EnteredWithoutClient(client: Option<int>, calls: seq<JobConsoleState>)
    requires !HasClient(client)
    ensures var entered := Run(client, calls).entered;
            && (DUT_DONE in entered <==> DoneFirst(calls)) && (DUT_DONE in entered ==> OVER in entered)
            && forall s :: s in entered && s != OVER ==> s in calls
  {
    if |calls| > 0 {
      var front := calls[..|calls| - 1];
      EnteredWithoutClient(client, front);
      StateReached(client, front);
      LastOf(calls);
    }
  }
}
