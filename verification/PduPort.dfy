/**
 The power of a machine: `PDUPort` (pdu/__init__.py), the clock it is timed by, and the `pdu_port` field
 of `Machine` (mars.py), which other threads replace whenever the machine's configuration is loaded.
 */
module PduPorts {
  import opened Common

  /** Wall-clock time in microseconds; nothing moves it backwards. */
  class Clock {
    var now: int

    constructor (start: int)
      ensures now == start
    {
      now := start;
    }

    /** At least `delay` passes, as with `time.sleep` or I/O. */
    method Sleep(delay: nat)
      modifies this
      ensures now >= old(now) + delay
    {
      var extra: int := *;
      now := now + delay + (if extra > 0 then extra else 0);
    }
  }

  datatype PduState = UNKNOWN | OFF | ON | REBOOT

  function After(command: PduState): PduState {
    if command == REBOOT then ON else command
  }

  // ---------------------------------------------------------------------------
  // The protocol between the executor, which commands the port, and the threads that replace it

  /**
   A command that reached the hardware: when `set` was called, when it was carried out, what the port
   read before, what was asked, the `min_off_time` of the port object that was called, and when the
   machine last got a new port object while the command was on its way to the hardware, if it did.
   */
  datatype Write = Write(asked: int, at: int, was: PduState, to: PduState, rest: int, overtaken: Option<int>)

  predicate IsCut(w: Write) {
    w.was == ON && w.to == OFF
  }

  predicate IsPowerUp(w: Write) {
    w.was == OFF && w.to == ON
  }

  /** A `set` call under way, and `last_shutdown` of the object it is on; `replaced` since the call. */
  datatype Command = Command(asked: int, to: PduState, rest: int, last: int, replaced: Option<int>, wrote: bool)

  /** `last` and `rest` are those of the port object that the machine has now. */
  datatype Power = Power(now: int, last: int, rest: int, reading: PduState, command: Option<Command>,
                         writes: seq<Write>)

  function Initial(now: int, rest: int, reading: PduState): Power {
    Power(now, now, rest, reading, None, [])
  }

  datatype Step =
    | Replaced(at: int, rest: int)    // the machine gets a new port object
    | Asked(at: int, to: PduState)    // the executor calls `set` on the object that the machine has
    | Wrote(at: int)                  // the call commands the hardware
    | Returned(at: int)               // the call ends, after noting a shutdown on its object

  predicate Enabled(p: Power, s: Step) {
    && s.at >= p.now
    && match s
       case Replaced(_, _) => true
       case Asked(_, _) => p.command.None?
       case Wrote(at) => p.command.Some? && MayWrite(p.command.value, p.reading, at)
       case Returned(_) => p.command.Some? && (p.command.value.wrote || p.reading == p.command.value.to)
  }

  predicate MayWrite(c: Command, reading: PduState, at: int) {
    && !c.wrote && reading != c.to
    && (reading == OFF && c.to == ON ==> at - c.last >= c.rest)
  }

  function Next(p: Power, s: Step): Power {
    match s
    case Replaced(at, rest) =>
      p.(now := at, last := at, rest := rest,
         command := if p.command.None? then None else Some(p.command.value.(replaced := Some(at))))
    case Asked(at, to) =>
      p.(now := at, command := Some(Command(at, to, p.rest, p.last, None, false)))
    case Wrote(at) =>
      if p.command.None? then p
      else
        var c := p.command.value;
        p.(now := at, reading := After(c.to), command := Some(c.(wrote := true)),
           writes := p.writes + [Write(c.asked, at, p.reading, c.to, c.rest, c.replaced)])
    case Returned(at) =>
      p.(now := at, command := None, last := if p.command.Some? && Notes(p.command.value) then at else p.last)
  }

  /** The call noted a shutdown on the object that the machine still has. */
  predicate Notes(c: Command) {
    c.wrote && c.to == OFF && c.replaced.None?
  }

  function Run(p: Power, steps: seq<Step>): Power {
    if |steps| == 0 then p else Next(Run(p, steps[..|steps| - 1]), steps[|steps| - 1])
  }

  predicate Legal(p: Power, steps: seq<Step>) {
    |steps| == 0 ||
    (Legal(p, steps[..|steps| - 1]) && Enabled(Run(p, steps[..|steps| - 1]), steps[|steps| - 1]))
  }

  /** A set of states that holds the initial ones and that no step leaves. */
  ghost predicate Closed(states: iset<Power>) {
    && (forall now, rest, reading :: Initial(now, rest, reading) in states)
    && (forall p, s :: p in states && Enabled(p, s) ==> Next(p, s) in states)
  }

  /** Some interleaving leads here: the state is in every such set. */
  ghost predicate Reached(p: Power) {
    forall states :: Closed(states) ==> p in states
  }

  lemma Then(p: Power, steps: seq<Step>, s: Step) returns (more: seq<Step>)
    requires Legal(p, steps) && Enabled(Run(p, steps), s)
    ensures Legal(p, more) && Run(p, more) == Next(Run(p, steps), s)
  {
    more := steps + [s];
    assert more[..|steps|] == steps;
  }

  lemma ReachedNext(p: Power, s: Step)
    requires Reached(p) && Enabled(p, s)
    ensures Reached(Next(p, s))
  {
  }

  lemma {:induction false} RunIsReached(now: int, rest: int, reading: PduState, steps: seq<Step>)
    requires Legal(Initial(now, rest, reading), steps)
    ensures Reached(Run(Initial(now, rest, reading), steps))
  {
    if |steps| > 0 {
      RunIsReached(now, rest, reading, steps[..|steps| - 1]);
      ReachedNext(Run(Initial(now, rest, reading), steps[..|steps| - 1]), steps[|steps| - 1]);
    }
  }

  /** Steps that lead here from an initial state. */
  ghost predicate LeadsTo(now: int, rest: int, reading: PduState, steps: seq<Step>, p: Power) {
    Legal(Initial(now, rest, reading), steps) && Run(Initial(now, rest, reading), steps) == p
  }

  ghost predicate SomeRunLeadsTo(p: Power) {
    exists now, rest, reading, steps :: LeadsTo(now, rest, reading, steps, p)
  }

  lemma LeadsFurther(p: Power, s: Step)
    requires Enabled(p, s) && SomeRunLeadsTo(p)
    ensures SomeRunLeadsTo(Next(p, s))
  {
    var now, rest, reading, steps :| LeadsTo(now, rest, reading, steps, p);
    var more := Then(Initial(now, rest, reading), steps, s);
    assert LeadsTo(now, rest, reading, more, Next(p, s));
  }

  /** The states reached are exactly those that some interleaving of steps leads to. */
  lemma ReachedByRuns(p: Power)
    ensures Reached(p) <==> SomeRunLeadsTo(p)
  {
    if now, rest, reading, steps :| LeadsTo(now, rest, reading, steps, p) {
      RunIsReached(now, rest, reading, steps);
    }
    var led := iset q | SomeRunLeadsTo(q);
    forall now, rest, reading
      ensures Initial(now, rest, reading) in led
    {
      assert LeadsTo(now, rest, reading, [], Initial(now, rest, reading));
    }
    forall q, s | q in led && Enabled(q, s)
      ensures Next(q, s) in led
    {
      LeadsFurther(q, s);
    }
    assert Closed(led);
  }

  // ---------------------------------------------------------------------------
  // What every interleaving keeps

  /** The time from which a power-up after this cut rests: that of the cut, unless the port was replaced before it. */
  function RestsFrom(w: Write): int {
    if w.overtaken.Some? then w.overtaken.value else w.at
  }

  /** Every power-up rests long enough after every earlier power cut, not only the latest. */
  ghost predicate Spaced(writes: seq<Write>) {
    forall i, j :: 0 <= i < j < |writes| && IsCut(writes[i]) && IsPowerUp(writes[j]) ==>
      writes[j].at - RestsFrom(writes[i]) >= writes[j].rest
  }

  /** Every power-up comes at least `min_off_time` after every earlier power cut. */
  ghost predicate FullySpaced(writes: seq<Write>) {
    forall i, j :: 0 <= i < j < |writes| && IsCut(writes[i]) && IsPowerUp(writes[j]) ==>
      writes[j].at - writes[i].at >= writes[j].rest
  }

  /** The machine's port was never replaced while a cut was on its way to the hardware. */
  ghost predicate NoneOvertaken(writes: seq<Write>) {
    forall i :: 0 <= i < |writes| && IsCut(writes[i]) ==> writes[i].overtaken.None?
  }

  /** Every write comes after its call, and so does whatever overtook it. */
  ghost predicate Timed(writes: seq<Write>, now: int) {
    forall i :: 0 <= i < |writes| ==> writes[i].asked <= RestsFrom(writes[i]) <= writes[i].at <= now
  }

  /** A port object that has noted `last` knows of this cut, or was made while the cut was on its way. */
  predicate Knows(last: int, w: Write) {
    w.at <= last || w.overtaken == Some(last)
  }

  ghost predicate KnowsAll(last: int, writes: seq<Write>) {
    forall i :: 0 <= i < |writes| && IsCut(writes[i]) ==> Knows(last, writes[i])
  }

  /** All but the write of a command that has yet to note it. */
  function Past(p: Power): seq<Write> {
    if p.command.Some? && Notes(p.command.value) && |p.writes| > 0 then p.writes[..|p.writes| - 1] else p.writes
  }

  ghost predicate GoodCommand(p: Power, c: Command) {
    && c.last <= c.asked <= p.now
    && (c.replaced.Some? ==> c.asked <= c.replaced.value <= p.now && p.last == c.replaced.value)
    && (if c.wrote then |p.writes| > 0 && p.writes[|p.writes| - 1].at <= p.now else KnowsAll(c.last, p.writes))
  }

  ghost predicate Good(p: Power) {
    && p.last <= p.now && Timed(p.writes, p.now) && Spaced(p.writes) && KnowsAll(p.last, Past(p))
    && (p.command.Some? ==> GoodCommand(p, p.command.value))
  }

  lemma WriteKeeps(p: Power, at: int)
    requires Good(p) && Enabled(p, Wrote(at))
    ensures Good(Next(p, Wrote(at)))
  {
    var q := Next(p, Wrote(at));
    assert q.writes[..|q.writes| - 1] == p.writes;
  }

  lemma StepKeeps(p: Power, s: Step)
    requires Good(p) && Enabled(p, s)
    ensures Good(Next(p, s))
  {
    match s
    case Wrote(at) => WriteKeeps(p, at);
    case _ =>
  }

  /**
   Every run, however replacements and commands interleave: a power-up rests after every earlier cut,
   counted from the cut or from the replacement that overtook it, hence never from before its call.
   */
  lemma ReachedIsSpaced(p: Power)
    requires Reached(p)
    ensures Good(p) && Spaced(p.writes) && Timed(p.writes, p.now)
    ensures NoneOvertaken(p.writes) ==> FullySpaced(p.writes)
  {
    var good := iset q | Good(q);
    forall q, s | q in good && Enabled(q, s)
      ensures Next(q, s) in good
    {
      StepKeeps(q, s);
    }
    assert Closed(good);
  }

  /** The next command is a power-up, called at `asked` and carried out at `at`. */
  predicate PowersUp(p: Power, asked: int, at: int) {
    Enabled(p, Asked(asked, ON)) && Enabled(Next(p, Asked(asked, ON)), Wrote(at))
  }

  /** It comes less than `min_off_time` after the cut. */
  ghost predicate MayComeTooSoon(p: Power, cut: Write) {
    exists asked, at :: PowersUp(p, asked, at) && at - cut.at < p.rest
  }

  /**
   When exactly the next power-up can come too soon after an earlier cut: if the port object that the
   machine has was made while the cut was on its way to the hardware, and the rest is not over anyway.
   */
  lemma TooSoonExactly(p: Power, i: nat)
    requires Reached(p) && p.command.None? && p.reading == OFF && i < |p.writes| && IsCut(p.writes[i])
    ensures var cut := p.writes[i];
            MayComeTooSoon(p, cut) <==> cut.overtaken == Some(p.last) && p.last < cut.at && p.now < cut.at + p.rest
  {
    var cut := p.writes[i];
    ReachedIsSpaced(p);
    assert Past(p) == p.writes;
    if p.last < cut.at && p.now < cut.at + p.rest {
      assert PowersUp(p, p.now, if p.now < p.last + p.rest then p.last + p.rest else p.now);
    }
  }

  /** A cut whose port is replaced between the call and the write. */
  lemma OvertakenCut(asked: int, replaced: int, written: int, rest: int) returns (steps: seq<Step>)
    requires asked <= replaced <= written
    ensures Legal(Initial(asked, rest, ON), steps)
    ensures Run(Initial(asked, rest, ON), steps)
         == Power(written, replaced, rest, OFF, None, [Write(asked, written, ON, OFF, rest, Some(replaced))])
  {
    var init := Initial(asked, rest, ON);
    steps := Then(init, [], Asked(asked, OFF));
    steps := Then(init, steps, Replaced(replaced, rest));
    steps := Then(init, steps, Wrote(written));
    steps := Then(init, steps, Returned(written));
  }

  /** It happens: after such a cut, a machine is powered up too soon. */
  lemma PoweredUpTooSoon(asked: int, replaced: int, written: int, rest: int) returns (steps: seq<Step>)
    requires asked <= replaced < written < replaced + rest
    ensures Legal(Initial(asked, rest, ON), steps)
    ensures var writes := Run(Initial(asked, rest, ON), steps).writes;
            && writes == [Write(asked, written, ON, OFF, rest, Some(replaced)),
                          Write(written, replaced + rest, OFF, ON, rest, None)]
            && !FullySpaced(writes)
  {
    var init := Initial(asked, rest, ON);
    steps := OvertakenCut(asked, replaced, written, rest);
    steps := Then(init, steps, Asked(written, ON));
    steps := Then(init, steps, Wrote(replaced + rest));
    var writes := Run(init, steps).writes;
    assert IsCut(writes[0]) && IsPowerUp(writes[1]);
  }

  // ---------------------------------------------------------------------------
  // The objects

  /** One `PDUPort` object. */
  class PduPort {
    const minOffTime: int
    var lastShutdown: int

    constructor (minOffTime: int, now: int)
      ensures this.minOffTime == minOffTime && lastShutdown == now
    {
      this.minOffTime, lastShutdown := minOffTime, now;
    }
  }

  function CommandsOf(writes: seq<Write>): seq<PduState> {
    if |writes| == 0 then [] else CommandsOf(writes[..|writes| - 1]) + [writes[|writes| - 1].to]
  }

  lemma CommandsSnoc(writes: seq<Write>, w: Write)
    ensures CommandsOf(writes + [w]) == CommandsOf(writes) + [w.to]
  {
    assert (writes + [w])[..|writes|] == writes;
  }

  /** A machine as far as its power goes: its port object, and what the hardware reads. */
  class PoweredMachine {
    const clock: Clock
    var port: PduPort
    var reading: PduState
    ghost var power: Power
    ghost var commands: seq<PduState>  // what each write asked for

    /** The objects are what the protocol says, and it has been kept. */
    ghost predicate InStep()
      reads this, clock, port
    {
      && Reached(power) && power.now <= clock.now && power.reading == reading
      && power.last == port.lastShutdown && power.rest == port.minOffTime
      && commands == CommandsOf(power.writes)
    }

    ghost predicate Valid()
      reads this, clock, port
    {
      InStep() && power.command.None?
    }

    constructor (clock: Clock, minOffTime: int, reading: PduState)
      ensures Valid() && fresh(port) && commands == [] && this.reading == reading && this.clock == clock
    {
      this.clock, this.reading := clock, reading;
      port := new PduPort(minOffTime, clock.now);
      power, commands := Initial(clock.now, minOffTime, reading), [];
    }

    /** The configuration is loaded: a new port object, made now, for the same outlet. */
    method UpdateConfig(minOffTime: int)
      requires InStep()
      modifies this`port, this`power
      ensures InStep() && fresh(port) && power == Next(old(power), Replaced(clock.now, minOffTime))
    {
      ReachedNext(power, Replaced(clock.now, minOffTime));
      port := new PduPort(minOffTime, clock.now);
      power := Next(power, Replaced(clock.now, minOffTime));
    }

    /** At least `delay` passes, while other threads may load the configuration any number of times. */
    method Meanwhile(delay: nat)
      requires InStep()
      modifies this`port, this`power, clock
      ensures InStep() && clock.now >= old(clock.now) + delay
      ensures if port == old(port) then power == old(power)
              else fresh(port) && power == Next(old(power), Replaced(power.now, power.rest))
    {
      var times: int := *;
      for i := 0 to if times > 0 then times else 0
        invariant InStep() && clock.now >= old(clock.now)
        invariant if port == old(port) then power == old(power)
                  else fresh(port) && power == Next(old(power), Replaced(power.now, power.rest))
      {
        clock.Sleep(0);
        var minOffTime: int := *;
        UpdateConfig(minOffTime);
      }
      clock.Sleep(delay);
    }

    /** A `set` call, made at `asked`, is under way on this object, which the machine may no longer have. */
    ghost predicate Underway(commanded: PduPort, asked: int, state: PduState, wrote: bool)
      reads this, clock, port, commanded
    {
      && InStep() && power.command.Some?
      && var c := power.command.value;
         && c.asked == asked && c.to == state && c.wrote == wrote
         && c.last == commanded.lastShutdown && c.rest == commanded.minOffTime
         && (c.replaced.None? <==> port == commanded)
    }

    method Call(state: PduState) returns (commanded: PduPort)
      requires Valid()
      modifies this`power
      ensures commanded == port && Underway(commanded, clock.now, state, false)
      ensures power.writes == old(power.writes)
    {
      ReachedNext(power, Asked(clock.now, state));
      commanded, power := port, Next(power, Asked(clock.now, state));
    }

    method Wait(commanded: PduPort, ghost asked: int, ghost state: PduState, ghost wrote: bool, delay: nat)
      requires Underway(commanded, asked, state, wrote)
      modifies this`port, this`power, clock
      ensures Underway(commanded, asked, state, wrote) && clock.now >= old(clock.now) + delay
      ensures port == old(port) || fresh(port)
      ensures power.writes == old(power.writes)
    {
      Meanwhile(delay);
    }

    /** The command reaches the hardware. */
    method CarryOut(commanded: PduPort, ghost asked: int, state: PduState)
      requires Underway(commanded, asked, state, false) && reading != state
      requires reading == OFF && state == ON ==> clock.now - commanded.lastShutdown >= commanded.minOffTime
      modifies this`power, this`reading, this`commands
      ensures Underway(commanded, asked, state, true) && reading == After(state)
      ensures power.writes != [] && power.writes[..|power.writes| - 1] == old(power.writes)
      ensures var w := power.writes[|power.writes| - 1];
              w.asked == asked && w.at == clock.now && w.was == old(reading) && w.to == state
      ensures commands == old(commands) + [state]
    {
      ReachedNext(power, Wrote(clock.now));
      ghost var next := Next(power, Wrote(clock.now));
      CommandsSnoc(power.writes, next.writes[|power.writes|]);
      reading, commands, power := After(state), commands + [state], next;
    }

    method Return(commanded: PduPort, ghost asked: int, state: PduState, wrote: bool)
      requires Underway(commanded, asked, state, wrote) && (wrote || reading == state)
      modifies this`power, commanded
      ensures Valid() && power.writes == old(power.writes)
      ensures !wrote ==> commanded.lastShutdown == old(commanded.lastShutdown)
    {
      ReachedNext(power, Returned(clock.now));
      if wrote && state == OFF {
        commanded.lastShutdown := clock.now;
      }
      power := Next(power, Returned(clock.now));
    }

    /** Lines 49-53: a power-up rests since the last shutdown that the object knows of. */
    method Rest(commanded: PduPort, ghost asked: int, state: PduState)
      requires Underway(commanded, asked, state, false)
      modifies this`port, this`power, clock
      ensures Underway(commanded, asked, state, false) && clock.now >= old(clock.now)
      ensures port == old(port) || fresh(port)
      ensures power.writes == old(power.writes)
      ensures reading == OFF && state == ON ==> clock.now - commanded.lastShutdown >= commanded.minOffTime
    {
      var rest := 0;
      if reading == OFF && state == ON {
        var spentOff := clock.now - commanded.lastShutdown;
        if spentOff < commanded.minOffTime {
          rest := commanded.minOffTime - spentOff;
        }
      }
      Wait(commanded, asked, state, false, rest);
    }

    /** Lines 55-58: command the hardware and note a shutdown. */
    method Send(commanded: PduPort, ghost asked: int, state: PduState)
      requires Underway(commanded, asked, state, false) && reading != state
      requires reading == OFF && state == ON ==> clock.now - commanded.lastShutdown >= commanded.minOffTime
      modifies this, commanded, clock
      ensures Valid() && clock.now > old(clock.now) && reading == After(state)
      ensures port == old(port) || fresh(port)
      ensures power.writes != [] && power.writes[..|power.writes| - 1] == old(power.writes)
      ensures var w := power.writes[|power.writes| - 1];
              w.asked == asked && old(clock.now) <= w.at <= clock.now && w.was == old(reading) && w.to == state
      ensures commands == old(commands) + [state]
    {
      CarryOut(commanded, asked, state);
      Wait(commanded, asked, state, true, 1);
      Return(commanded, asked, state, true);
    }

    /**
     `pdu_port.set`: commands a state, on the object that the machine has when it is called. A port that
     already reads the state is left alone; a command that reaches the hardware takes at least a
     microsecond, and a shutdown is noted on the object that was called.
     */
    method Set(state: PduState)
      requires Valid()
      modifies this, port, clock
      ensures Valid() && clock.now >= old(clock.now)
      ensures port == old(port) || fresh(port)
      ensures reading == if old(reading) == state then state else After(state)
      ensures commands == old(commands) + if old(reading) == state then [] else [state]
      ensures old(reading) == state ==>
                power.writes == old(power.writes) && (port == old(port) ==> port.lastShutdown == old(port.lastShutdown))
      ensures old(reading) != state ==>
                && clock.now > old(clock.now) && power.writes != []
                && power.writes[..|power.writes| - 1] == old(power.writes)
                && var w := power.writes[|power.writes| - 1];
                   w.asked == old(clock.now) <= w.at <= clock.now && w.was == old(reading) && w.to == state
    {
      ghost var asked := clock.now;
      var commanded := Call(state);
      Wait(commanded, asked, state, false, 0);
      if reading == state {
        Return(commanded, asked, state, false);
      } else {
        Rest(commanded, asked, state);
        Send(commanded, asked, state);
      }
    }
  }
}
