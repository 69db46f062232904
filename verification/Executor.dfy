/**
 `execute_job` (executor.py): boot the machine until the job ends, a retry budget runs out or the
 executor goes down. The console thread and everything else that runs beside the executor thread
 is `OtherThreads`, which is called wherever the executor thread waits.
 */
module Execution {
  import opened Common
  import opened JobConsoles
  import opened JobTimeouts
  import opened PduPorts

  const POLL_DELAY := 100_000
  const CONSOLE_DRAINING_DELAY := 1_000_000

  datatype Deployment = Deployment(kernelUrl: string, initramfsUrl: string, cmdline: string)

  datatype BootConfig = BootConfig(kernel: Option<string>, initrd: Option<string>, cmdline: string)

  /**
   One reading of the polling condition: the console activity that the turn before had seen, the console
   timeouts, and what the condition is about.
   */
  datatype Poll = Poll(seen: Option<int>, first: Option<int>, console: Option<int>,
                       done: bool, rebootAsked: bool, stopped: bool, cancelled: bool, expired: bool) {
    predicate SaysOver() {
      done || rebootAsked || stopped || cancelled || expired
    }

    /** What no reboot undoes: the job is done, or the user wants no more of it. */
    predicate SaysFinal() {
      done || stopped || cancelled
    }
  }

  /**
   What one turn of the boot loop did: the boot configuration served, the timeouts once the machine
   was booting, every reading of the polling condition, the timeouts when polling ended and when the
   expired ones were listed, with the times of these readings, whether the machine had then asked for a
   reboot, whether the job was done, stopped or cancelled by then, and whether a charge exceeded its
   limit; and the timeouts left after the charges, when the boot loop reads its condition.
   */
  datatype Boot = Boot(config: BootConfig, bootedAt: int, armed: seq<Timeout>, polls: seq<Poll>,
                       ended: seq<Timeout>, endedAt: int, listed: seq<Timeout>, listedAt: int,
                       rebootAsked: bool, over: bool, gaveUp: bool, left: seq<Timeout>, leftAt: int)

  datatype Outcome = TornDown | Skipped | Raised

  /**
   The console thread reset or stopped the watchdogs whose expiry ended the polling before the
   expired timeouts were listed, and the machine did not ask for a reboot: nothing is charged.
   */
  ghost predicate Raced(b: Boot) {
    SomeExpired(b.ended, b.endedAt) && !SomeExpired(b.listed, b.listedAt) && !b.rebootAsked
  }

  ghost function Races(boots: seq<Boot>): nat {
    if |boots| == 0 then 0
    else Races(boots[..|boots| - 1]) + if Raced(boots[|boots| - 1]) then 1 else 0
  }

  /** The states commanded by `n` boots of a port that first read `before`. */
  function PowerCycle(before: PduState, n: nat): seq<PduState> {
    if n == 0 then []
    else PowerCycle(before, n - 1) + ((if n == 1 && before != OFF then [OFF] else []) + [ON, OFF])
  }

  lemma PowerCycleNext(earlier: seq<PduState>, before: PduState, n: nat, now: PduState)
    requires now == if n == 0 then before else OFF
    ensures (earlier + PowerCycle(before, n)) + ((if now == OFF then [] else [OFF]) + [ON, OFF])
         == earlier + PowerCycle(before, n + 1)
  {
    assert (if now == OFF then [] else [OFF]) == (if n == 0 && before != OFF then [OFF] else []);
  }

  lemma OnThenOff(earlier: seq<PduState>, first: seq<PduState>)
    ensures earlier + first + [ON] + [OFF] == earlier + (first + [ON, OFF])
  {
  }

  /** Right after power-up: the boot and first-activity timeouts run, the others but overall do not. */
  ghost predicate ArmedForBoot(bootedAt: int, armed: seq<Timeout>) {
    && |armed| >= WATCHDOGS
    && armed[BOOT_CYCLE].startedAt == armed[FIRST_CONSOLE].startedAt == Some(bootedAt)
    && armed[OVERALL].IsStarted() && armed[OVERALL].retries == 0
    && (forall i :: 0 <= i < |armed| && i !in {OVERALL, BOOT_CYCLE, FIRST_CONSOLE} ==> !armed[i].IsStarted())
  }

  /** The boot took over the retries and the overall clock. */
  ghost predicate Takes(before: seq<Timeout>, armed: seq<Timeout>) {
    SameRetries(before, armed) && |armed| > OVERALL && armed[OVERALL] == before[OVERALL]
  }

  /**
   At every head of the polling loop exactly one of the two console timeouts is armed: the first one,
   since the boot, until activity is seen, then the other one, since the activity last seen.
   */
  ghost predicate OneConsoleTimeout(bootedAt: int, polls: seq<Poll>) {
    polls != [] && forall i :: 0 <= i < |polls| ==> GoodPoll(bootedAt, polls[i])
  }

  predicate GoodPoll(bootedAt: int, p: Poll) {
    if p.seen.None? then p.first == Some(bootedAt) && p.console.None? else p.first.None? && p.console == p.seen
  }

  /** What the last reading of the polling condition saw is what the timeouts then were. */
  ghost predicate PolledUntil(polls: seq<Poll>, armed: seq<Timeout>, ended: seq<Timeout>) {
    && polls != [] && |ended| >= WATCHDOGS && SameRetries(armed, ended)
    && polls[|polls| - 1].first == ended[FIRST_CONSOLE].startedAt
    && polls[|polls| - 1].console == ended[CONSOLE].startedAt
    && forall i :: OVERALL <= i <= BOOT_CYCLE ==> ended[i] == armed[i]
  }

  /** Polling went on until the first reading that said so. */
  ghost predicate PolledUntilOver(polls: seq<Poll>) {
    && polls != [] && polls[|polls| - 1].SaysOver()
    && forall i :: 0 <= i < |polls| - 1 ==> !polls[i].SaysOver()
  }

  /** What ended the polling is still so when the expired timeouts are listed, but for an expiry. */
  ghost predicate ReasonKept(b: Boot) {
    && b.polls != []
    && var last := b.polls[|b.polls| - 1];
       && (last.SaysFinal() ==> b.over) && (last.rebootAsked ==> b.rebootAsked)
       && (last.expired <==> SomeExpired(b.ended, b.endedAt))
  }

  ghost predicate GoodBoot(b: Boot, cache: map<string, string>, d: Deployment) {
    && b.config == ConfigFor(cache, d)
    && ArmedForBoot(b.bootedAt, b.armed) && OneConsoleTimeout(b.bootedAt, b.polls)
    && PolledUntil(b.polls, b.armed, b.ended) && PolledUntilOver(b.polls) && ReasonKept(b)
    && WatchdogsMoved(b.ended, b.listed) && b.bootedAt <= b.endedAt <= b.listedAt <= b.leftAt
    && SameRetries(Charged(b.listed, b.listedAt, b.rebootAsked), b.left)
    && (b.gaveUp <==> Aborts(b.listed, b.listedAt, b.rebootAsked))
  }

  /**
   The boot ends the run: the job was done, stopped or cancelled before the charges, a charge exceeds
   its limit, or the overall timeout has expired.
   */
  ghost predicate EndsRun(b: Boot) {
    b.over || b.gaveUp || (|b.left| > OVERALL && b.left[OVERALL].HasExpired(b.leftAt))
  }

  /** A boot that does not end the run was ended by an expiry or by a requested reboot. */
  lemma WhyBootAgain(b: Boot, cache: map<string, string>, d: Deployment)
    requires GoodBoot(b, cache, d) && !b.over
    ensures b.rebootAsked || SomeExpired(b.listed, b.listedAt) || SomeExpired(b.ended, b.endedAt)
  {
    assert b.polls[|b.polls| - 1].SaysOver();
  }

  /** One boot follows another: the retries and the overall clock carry on. */
  ghost predicate Follows(last: Boot, b: Boot) {
    && |last.left| == |b.armed| >= WATCHDOGS
    && !EndsRun(last)
    && SameRetries(last.left, b.armed) && last.left[OVERALL] == b.armed[OVERALL]
    && last.leftAt < b.bootedAt
  }

  /** Boot `i` runs its deployment, the start one if it is the first, and follows the boot before. */
  ghost predicate GoodBootIn(boots: seq<Boot>, i: nat, cache: map<string, string>, start: Deployment, next: Deployment)
    requires i < |boots|
  {
    GoodBoot(boots[i], cache, if i == 0 then start else next) && (i > 0 ==> Follows(boots[i - 1], boots[i]))
  }

  /** The boots of a run. */
  ghost predicate GoodBoots(boots: seq<Boot>, cache: map<string, string>, start: Deployment, next: Deployment) {
    forall i :: 0 <= i < |boots| ==> GoodBootIn(boots, i, cache, start, next)
  }

  lemma GoodBootCopied(boots: seq<Boot>, other: seq<Boot>, i: nat, cache: map<string, string>, start: Deployment,
                       next: Deployment)
    requires i < |boots| && i < |other| && boots[i] == other[i] && (i > 0 ==> boots[i - 1] == other[i - 1])
    requires GoodBootIn(boots, i, cache, start, next)
    ensures GoodBootIn(other, i, cache, start, next)
  {
  }

  lemma GoodFront(boots: seq<Boot>, n: nat, cache: map<string, string>, start: Deployment, next: Deployment)
    requires GoodBoots(boots, cache, start, next) && n <= |boots|
    ensures GoodBoots(boots[..n], cache, start, next)
  {
    forall i | 0 <= i < n {
      GoodBootCopied(boots, boots[..n], i, cache, start, next);
    }
  }

  lemma GoodBootAdded(boots: seq<Boot>, b: Boot, i: nat, cache: map<string, string>, start: Deployment,
                      next: Deployment)
    requires GoodBoots(boots, cache, start, next) && i <= |boots|
    requires GoodBoot(b, cache, if |boots| == 0 then start else next)
    requires |boots| > 0 ==> Follows(boots[|boots| - 1], b)
    ensures GoodBootIn(boots + [b], i, cache, start, next)
  {
    if i < |boots| {
      GoodBootCopied(boots, boots + [b], i, cache, start, next);
    } else {
      NewBoot(boots + [b], i, cache, start, next);
    }
  }

  lemma NewBoot(boots: seq<Boot>, i: nat, cache: map<string, string>, start: Deployment, next: Deployment)
    requires i < |boots| && GoodBoot(boots[i], cache, if i == 0 then start else next)
    requires i > 0 ==> Follows(boots[i - 1], boots[i])
    ensures GoodBootIn(boots, i, cache, start, next)
  {
  }

  lemma BootAppended(boots: seq<Boot>, b: Boot, cache: map<string, string>, start: Deployment, next: Deployment)
    requires GoodBoots(boots, cache, start, next)
    requires GoodBoot(b, cache, if |boots| == 0 then start else next)
    requires |boots| > 0 ==> Follows(boots[|boots| - 1], b)
    ensures GoodBoots(boots + [b], cache, start, next)
    ensures Races(boots + [b]) == Races(boots) + if Raced(b) then 1 else 0
  {
    assert (boots + [b])[..|boots|] == boots;
    forall i: nat | i < |boots + [b]| {
      GoodBootAdded(boots, b, i, cache, start, next);
    }
  }

  /** A boot that takes over from the last one of a run, if there is one, is one more boot of the run. */
  lemma RunGoesOn(boots: seq<Boot>, b: Boot, cache: map<string, string>, start: Deployment, next: Deployment,
                  was: seq<Timeout>)
    requires GoodBoots(boots, cache, start, next)
    requires GoodBoot(b, cache, if |boots| == 0 then start else next)
    requires |was| == |b.armed| >= WATCHDOGS && SameRetries(was, b.armed) && was[OVERALL] == b.armed[OVERALL]
    requires |boots| > 0 ==>
               var last := boots[|boots| - 1]; last.left == was && last.leftAt < b.bootedAt && !EndsRun(last)
    ensures GoodBoots(boots + [b], cache, start, next)
    ensures Races(boots + [b]) == Races(boots) + if Raced(b) then 1 else 0
  {
    BootAppended(boots, b, cache, start, next);
  }

  /** A boot that does not end the run costs a retry, exactly unless it was raced. */
  lemma BootIsPaid(b: Boot, cache: map<string, string>, d: Deployment)
    requires GoodBoot(b, cache, d) && !b.over && !b.gaveUp
    ensures |b.left| == |b.armed|
    ensures if Raced(b) then Spendable(b.left) == Spendable(b.armed) else Spendable(b.left) < Spendable(b.armed)
  {
    var charged := Charged(b.listed, b.listedAt, b.rebootAsked);
    WhyBootAgain(b, cache, d);
    SameRetriesTransitive(b.armed, b.ended, b.listed);
    SameRetriesSpendable(b.armed, b.listed);
    SameRetriesSpendable(charged, b.left);
    if Raced(b) {
      assert charged == b.listed;
    } else {
      ChargeIsPaid(b.listed, b.listedAt, b.rebootAsked);
    }
  }

  /** What the boot configuration holds for a deployment: a URL that was never cached becomes nothing. */
  function ConfigFor(cache: map<string, string>, d: Deployment): BootConfig {
    BootConfig(if d.kernelUrl in cache then Some(cache[d.kernelUrl]) else None,
               if d.initramfsUrl in cache then Some(cache[d.initramfsUrl]) else None,
               d.cmdline)
  }

  /** `is_local_url`. */
  predicate IsLocal(minioUrl: string, url: string) {
    minioUrl + "/" <= url
  }

  /** Where an artifact is served from: its URL if it is local, else its place in the local store. */
  function CopyOf(minioUrl: string, machineId: string, url: string, artifact: string, suffix: string): string {
    if IsLocal(minioUrl, url) then url else minioUrl + "/boot/" + artifact + "-" + machineId + "-" + suffix
  }

  /** The cache once a deployment's kernel and then its initramfs are in it. */
  function CachedFor(minioUrl: string, machineId: string, cache: map<string, string>, d: Deployment)
    : map<string, string>
  {
    cache[d.kernelUrl := CopyOf(minioUrl, machineId, d.kernelUrl, "kernel", "start")]
         [d.initramfsUrl := CopyOf(minioUrl, machineId, d.initramfsUrl, "initramfs", "start")]
  }

  class Executor {
    const clock: Clock
    const console: JobConsole
    const machine: PoweredMachine
    const timeouts: Timeouts
    const start: Deployment
    const continuation: Deployment
    const unfitPatternSet: bool
    const machineId: string
    const minioUrl: string
    var cache: map<string, string>
    var readyForService: bool
    var stopEvent: bool
    var cancelJob: bool
    var bootConfig: Option<BootConfig>

    ghost predicate Valid()
      reads this, clock, console, machine, machine.port, timeouts
    {
      && machine.clock == clock
      && machine.Valid() && timeouts.Valid() && console.Valid()
    }

    constructor (clock: Clock, console: JobConsole, machine: PoweredMachine, timeouts: Timeouts,
                 start: Deployment, continuation: Deployment, unfitPatternSet: bool, readyForService: bool,
                 machineId: string, minioUrl: string)
      requires machine.clock == clock && machine.Valid() && timeouts.Valid() && console.Valid()
      ensures Valid() && cache == map[] && !stopEvent && !cancelJob
    {
      this.clock, this.console, this.machine, this.timeouts := clock, console, machine, timeouts;
      this.start, this.continuation := start, continuation;
      this.unfitPatternSet, this.readyForService := unfitPatternSet, readyForService;
      this.machineId, this.minioUrl := machineId, minioUrl;
      cache, stopEvent, cancelJob, bootConfig := map[], false, false, None;
    }

    /**
     Whatever runs beside the executor thread while it waits: time passes, the user may stop the
     executor or cancel the job, and the console thread does as it likes.
     */
    method OtherThreads(delay: nat)
      requires Valid()
      modifies this`stopEvent, this`cancelJob, clock, console, machine`port, machine`power, timeouts
      ensures Valid()
      ensures machine.port == old(machine.port) || fresh(machine.port)
      ensures clock.now >= old(clock.now) + delay
      ensures old(stopEvent) ==> stopEvent
      ensures old(cancelJob) ==> cancelJob
      ensures old(console.Done()) ==> console.Done()
      ensures old(console.needsReboot) ==> console.needsReboot
      ensures old(console.lastActivity.Some?) ==> console.lastActivity.Some?
      ensures console.state == TEAR_DOWN ==> old(console.state) == TEAR_DOWN
      ensures old(console.entered) <= console.entered
      ensures WatchdogsMoved(old(timeouts.all), timeouts.all)
      ensures console.resets == old(console.resets)
    {
      machine.Meanwhile(delay);
      var stop: bool, cancel: bool := *, *;
      stopEvent, cancelJob := stopEvent || stop, cancelJob || cancel;
      console.ConsoleThread();
      timeouts.ConsoleThread();
    }

    /** A command to the power port, and whatever happens meanwhile. */
    method Power(state: PduState)
      requires Valid() && (state == OFF || state == ON)
      modifies this`stopEvent, this`cancelJob, clock, console, machine, machine.port, timeouts
      ensures Valid() && machine.reading == state
      ensures machine.port == old(machine.port) || fresh(machine.port)
      ensures clock.now >= old(clock.now) + (if old(machine.reading) == state then 0 else 1)
      ensures old(stopEvent) ==> stopEvent
      ensures old(cancelJob) ==> cancelJob
      ensures old(console.Done()) ==> console.Done()
      ensures old(console.needsReboot) ==> console.needsReboot
      ensures WatchdogsMoved(old(timeouts.all), timeouts.all)
      ensures machine.commands == old(machine.commands) + (if old(machine.reading) == state then [] else [state])
      ensures console.resets == old(console.resets)
    {
      machine.Set(state);
      OtherThreads(0);
    }

    /** Where the machine will fetch an artifact from once it is cached. */
    function LocalCopy(url: string, artifact: string, suffix: string): string {
      CopyOf(minioUrl, machineId, url, artifact, suffix)
    }

    /** The cache once the start deployment's kernel is in it. */
    function WithKernel(cache: map<string, string>): map<string, string> {
      cache[start.kernelUrl := LocalCopy(start.kernelUrl, "kernel", "start")]
    }

    function WithArtifacts(cache: map<string, string>): map<string, string> {
      CachedFor(minioUrl, machineId, cache, start)
    }

    /** `_cache_remote_artifacts`, which only ever looks at the start deployment; it may raise. */
    method CacheRemoteArtifacts() returns (raised: bool)
      modifies this`cache
      ensures !raised ==> cache == WithArtifacts(old(cache))
      ensures raised ==> cache == WithKernel(old(cache)) || cache == WithArtifacts(old(cache))
    {
      raised := CacheRemoteArtifact("kernel", start.kernelUrl, start.kernelUrl);
      if !raised {
        raised := CacheRemoteArtifact("initramfs", start.initramfsUrl, start.initramfsUrl);
      }
    }

    /** `_cache_remote_artifact`: a URL that cannot be cached is mapped to itself, or to where it would have been. */
    method CacheRemoteArtifact(artifact: string, startUrl: string, continueUrl: string) returns (raised: bool)
      modifies this`cache
      ensures startUrl == continueUrl ==> cache == old(cache)[startUrl := LocalCopy(startUrl, artifact, "start")]
      ensures startUrl != continueUrl ==>
                cache == old(cache)[startUrl := LocalCopy(startUrl, artifact, "start")]
                                   [continueUrl := LocalCopy(continueUrl, artifact, "continue")]
                || (raised && cache == old(cache)[startUrl := LocalCopy(startUrl, artifact, "start")]
                                                 [continueUrl := continueUrl])
    {
      cache := cache[startUrl := startUrl][continueUrl := continueUrl];
      raised := CacheIt(startUrl, artifact, "start");
      if !raised && startUrl != continueUrl {
        raised := CacheIt(continueUrl, artifact, "continue");
      }
    }

    method CacheIt(url: string, artifact: string, suffix: string) returns (raised: bool)
      requires url in cache && cache[url] == url
      modifies this`cache
      ensures cache == old(cache)[url := LocalCopy(url, artifact, suffix)]
    {
      raised := false;
      if !IsLocal(minioUrl, url) {
        cache := cache[url := minioUrl + "/boot/" + artifact + "-" + machineId + "-" + suffix];
        raised := *;
      }
    }

    /** Lines 697-710: cut the power, publish the boot configuration and power up. */
    method PowerUp(deployment: Deployment)
      requires Valid()
      modifies this`bootConfig, this`stopEvent, this`cancelJob, clock, console, machine, machine.port, timeouts
      ensures Valid() && machine.reading == ON
      ensures machine.port == old(machine.port) || fresh(machine.port)
      ensures clock.now > old(clock.now)
      ensures old(stopEvent) ==> stopEvent
      ensures old(cancelJob) ==> cancelJob
      ensures old(console.Done()) ==> console.Done()
      ensures machine.commands == old(machine.commands) + (if old(machine.reading) == OFF then [] else [OFF]) + [ON]
      ensures WatchdogsMoved(old(timeouts.all), timeouts.all)
      ensures bootConfig == Some(ConfigFor(cache, deployment))
      ensures console.resets == old(console.resets) + 1
    {
      console.ResetPerBootState();
      Power(OFF);
      bootConfig := Some(ConfigFor(cache, deployment));
      PowerOn(ConfigFor(cache, deployment));
    }

    /** The machine is only powered up once its boot configuration is there for it to fetch. */
    method PowerOn(ghost config: BootConfig)
      requires Valid() && bootConfig == Some(config)
      modifies this`stopEvent, this`cancelJob, clock, console, machine, machine.port, timeouts
      ensures Valid() && machine.reading == ON
      ensures machine.port == old(machine.port) || fresh(machine.port)
      ensures clock.now >= old(clock.now) + (if old(machine.reading) == ON then 0 else 1)
      ensures old(stopEvent) ==> stopEvent
      ensures old(cancelJob) ==> cancelJob
      ensures old(console.Done()) ==> console.Done()
      ensures console.resets == old(console.resets)
      ensures WatchdogsMoved(old(timeouts.all), timeouts.all)
      ensures machine.commands == old(machine.commands) + (if old(machine.reading) == ON then [] else [ON])
    {
      Power(ON);
    }

    /** The condition of the polling loop, negated. */
    predicate BootIsOver()
      reads this, console, timeouts, clock
    {
      console.Done() || console.needsReboot || stopEvent || cancelJob || timeouts.HasExpired(clock.now)
    }

    /** Lines 722-734: poll until the boot is over; each turn waits, so the overall deadline bounds it. */
    method PollBoot(ghost bootedAt: int) returns (ghost polls: seq<Poll>)
      requires Valid() && timeouts.all[OVERALL].IsStarted()
      requires timeouts.all[FIRST_CONSOLE].startedAt == Some(bootedAt) && !timeouts.all[CONSOLE].IsStarted()
      modifies this`stopEvent, this`cancelJob, clock, console, machine`port, machine`power, timeouts
      ensures Valid() && BootIsOver()
      ensures machine.port == old(machine.port) || fresh(machine.port)
      ensures clock.now >= old(clock.now)
      ensures old(stopEvent) ==> stopEvent
      ensures old(cancelJob) ==> cancelJob
      ensures old(console.Done()) ==> console.Done()
      ensures SameRetries(old(timeouts.all), timeouts.all)
      ensures forall i :: OVERALL <= i <= BOOT_CYCLE ==> timeouts.all[i] == old(timeouts.all[i])
      ensures OneConsoleTimeout(bootedAt, polls) && PolledUntil(polls, old(timeouts.all), timeouts.all)
      ensures PolledUntilOver(polls) && LastPoll(polls)
      ensures console.resets == old(console.resets)
    {
      ghost var seen: Option<int> := None;
      polls := [PollNow(seen)];
      while !BootIsOver()
        invariant Valid() && clock.now >= old(clock.now)
        invariant machine.port == old(machine.port) || fresh(machine.port)
        invariant old(stopEvent) ==> stopEvent
        invariant old(cancelJob) ==> cancelJob
        invariant old(console.Done()) ==> console.Done()
        invariant SameRetries(old(timeouts.all), timeouts.all)
        invariant forall i :: OVERALL <= i <= BOOT_CYCLE ==> timeouts.all[i] == old(timeouts.all[i])
        invariant GoodPoll(bootedAt, PollNow(seen)) && (seen.Some? ==> console.lastActivity.Some?)
        invariant OneConsoleTimeout(bootedAt, polls) && polls[|polls| - 1] == PollNow(seen)
        invariant forall i :: 0 <= i < |polls| - 1 ==> !polls[i].SaysOver()
        invariant console.resets == old(console.resets)
        decreases timeouts.all[OVERALL].Left(clock.now)
      {
        seen := PollOnce(bootedAt, seen);
        polls := polls + [PollNow(seen)];
      }
    }

    /** Lines 727-734: one turn of the polling loop, and the activity that it has seen. */
    method PollOnce(ghost bootedAt: int, ghost before: Option<int>) returns (ghost seen: Option<int>)
      requires Valid() && GoodPoll(bootedAt, PollNow(before)) && (before.Some? ==> console.lastActivity.Some?)
      modifies this`stopEvent, this`cancelJob, clock, console, machine`port, machine`power, timeouts
      ensures Valid() && clock.now >= old(clock.now) + POLL_DELAY
      ensures machine.port == old(machine.port) || fresh(machine.port)
      ensures old(stopEvent) ==> stopEvent
      ensures old(cancelJob) ==> cancelJob
      ensures old(console.Done()) ==> console.Done()
      ensures SameRetries(old(timeouts.all), timeouts.all)
      ensures forall i :: OVERALL <= i <= BOOT_CYCLE ==> timeouts.all[i] == old(timeouts.all[i])
      ensures GoodPoll(bootedAt, PollNow(seen)) && (seen.Some? ==> console.lastActivity.Some?)
      ensures seen == if old(console.lastActivity.Some?) then old(console.lastActivity) else before
      ensures console.resets == old(console.resets)
    {
      seen := before;
      if console.lastActivity.Some? {
        timeouts.Stop(FIRST_CONSOLE);
        timeouts.Start(CONSOLE, console.lastActivity.value);
        seen := console.lastActivity;
      }
      OtherThreads(POLL_DELAY);
    }

    ghost function PollNow(seen: Option<int>): Poll
      requires Valid()
      reads this, clock, console, machine, machine.port, timeouts
    {
      Poll(seen, timeouts.all[FIRST_CONSOLE].startedAt, timeouts.all[CONSOLE].startedAt,
           console.Done(), console.needsReboot, stopEvent, cancelJob, SomeExpired(timeouts.all, clock.now))
    }

    /** The last of these readings was made now. */
    ghost predicate LastPoll(polls: seq<Poll>)
      requires Valid()
      reads this, clock, console, machine, machine.port, timeouts
    {
      polls != [] && polls[|polls| - 1] == PollNow(polls[|polls| - 1].seen)
    }

    /** Nothing will make the boot loop go round again. */
    predicate Final()
      reads this, console
    {
      console.Done() || stopEvent || cancelJob
    }

    /** Lines 736-766: cut the power and charge whatever ended the boot. */
    method FinishBoot()
      returns (raised: bool, ghost listed: seq<Timeout>, ghost listedAt: int, ghost rebootAsked: bool, ghost over: bool)
      requires Valid() && BootIsOver()
      requires !timeouts.all[INFRA_SETUP].IsStarted() && !timeouts.all[INFRA_TEARDOWN].IsStarted()
      modifies this`stopEvent, this`cancelJob, clock, console, machine, machine.port, timeouts
      ensures Valid() && machine.reading == OFF
      ensures machine.port == old(machine.port) || fresh(machine.port)
      ensures clock.now >= old(clock.now)
      ensures (old(Final()) ==> over) && (old(console.needsReboot) ==> rebootAsked)
      ensures Final() <==> over || Aborts(listed, listedAt, rebootAsked)
      ensures raised ==> Aborts(listed, listedAt, rebootAsked)
      ensures console.resets == old(console.resets)
      ensures machine.commands == old(machine.commands) + (if old(machine.reading) == OFF then [] else [OFF])
      ensures WatchdogsMoved(old(timeouts.all), listed) && old(clock.now) <= listedAt <= clock.now
      ensures SameRetries(Charged(listed, listedAt, rebootAsked), timeouts.all)
      ensures |timeouts.all| == |old(timeouts.all)|
      ensures timeouts.all[INFRA_SETUP] == old(timeouts.all[INFRA_SETUP])
      ensures timeouts.all[INFRA_TEARDOWN] == old(timeouts.all[INFRA_TEARDOWN])
      ensures !Final() ==> timeouts.all[OVERALL] == old(timeouts.all[OVERALL])
      ensures !Final() ==> forall i :: BOOT_CYCLE <= i <= FIRST_CONSOLE ==> !timeouts.all[i].IsStarted()
      ensures !Final() && (rebootAsked || SomeExpired(listed, listedAt)) ==>
                Budget(timeouts.all) < Budget(old(timeouts.all))
      ensures !Final() && !rebootAsked && !SomeExpired(listed, listedAt) ==>
                SomeExpired(old(timeouts.all), old(clock.now)) && Budget(timeouts.all) == Budget(old(timeouts.all))
    {
      Power(OFF);
      listed, listedAt, rebootAsked, over := timeouts.all, clock.now, console.needsReboot, Final();
      SameRetriesBudget(old(timeouts.all), listed);
      raised := ChargeOrEnd();
    }

    /** Lines 739-763: charge the boot, and end the run if a charge exceeds its limit. */
    method ChargeOrEnd() returns (raised: bool)
      requires Valid()
      modifies console`state, console`entered, console`actions, console`calls, timeouts
      ensures Valid()
      ensures Final() <==> old(Final()) || Aborts(old(timeouts.all), clock.now, console.needsReboot)
      ensures raised ==> Aborts(old(timeouts.all), clock.now, console.needsReboot)
      ensures SameRetries(Charged(old(timeouts.all), clock.now, console.needsReboot), timeouts.all)
      ensures forall i :: INFRA_SETUP <= i <= INFRA_TEARDOWN && !old(timeouts.all[i].IsStarted()) ==>
                timeouts.all[i] == old(timeouts.all[i])
      ensures !Final() ==> timeouts.all[OVERALL] == old(timeouts.all[OVERALL])
      ensures !Final() ==> forall i :: BOOT_CYCLE <= i <= FIRST_CONSOLE ==> !timeouts.all[i].IsStarted()
      ensures !Final() ==>
                if console.needsReboot || SomeExpired(old(timeouts.all), clock.now)
                then Budget(timeouts.all) < Budget(old(timeouts.all))
                else Budget(timeouts.all) == Budget(old(timeouts.all))
    {
      var abort := timeouts.SettleBoot(clock.now, console.needsReboot);
      raised := false;
      if abort {
        raised := console.EndJob();
      }
    }

    /** Lines 697-734: power up, arm the timeouts and poll until the boot is over. */
    method RunBoot(deployment: Deployment)
      returns (ghost bootedAt: int, ghost armed: seq<Timeout>, ghost polls: seq<Poll>)
      requires Valid() && timeouts.all[OVERALL].IsStarted()
      requires !timeouts.all[INFRA_SETUP].IsStarted() && !timeouts.all[INFRA_TEARDOWN].IsStarted()
      modifies this`bootConfig, this`stopEvent, this`cancelJob, clock, console, machine, machine.port, timeouts
      ensures Valid() && BootIsOver() && machine.reading == ON
      ensures machine.port == old(machine.port) || fresh(machine.port)
      ensures old(clock.now) < bootedAt <= clock.now
      ensures machine.commands == old(machine.commands) + (if old(machine.reading) == OFF then [] else [OFF]) + [ON]
      ensures SameRetries(old(timeouts.all), timeouts.all)
      ensures forall i :: OVERALL <= i <= INFRA_TEARDOWN ==> timeouts.all[i] == old(timeouts.all[i])
      ensures ArmedForBoot(bootedAt, armed) && OneConsoleTimeout(bootedAt, polls)
      ensures SameRetries(old(timeouts.all), armed) && armed[OVERALL] == old(timeouts.all[OVERALL])
      ensures PolledUntil(polls, armed, timeouts.all) && PolledUntilOver(polls) && LastPoll(polls)
      ensures bootConfig == Some(ConfigFor(cache, deployment))
      ensures console.resets == old(console.resets) + 1
    {
      bootedAt, armed := StartBoot(deployment);
      polls := PollBoot(bootedAt);
    }

    /** Lines 697-720: power up and arm the timeouts. */
    method StartBoot(deployment: Deployment) returns (ghost bootedAt: int, ghost armed: seq<Timeout>)
      requires Valid() && timeouts.all[OVERALL].IsStarted()
      requires !timeouts.all[INFRA_SETUP].IsStarted() && !timeouts.all[INFRA_TEARDOWN].IsStarted()
      modifies this`bootConfig, this`stopEvent, this`cancelJob, clock, console, machine, machine.port, timeouts
      ensures Valid() && machine.reading == ON
      ensures machine.port == old(machine.port) || fresh(machine.port)
      ensures old(clock.now) < bootedAt <= clock.now
      ensures machine.commands == old(machine.commands) + (if old(machine.reading) == OFF then [] else [OFF]) + [ON]
      ensures ArmedForBoot(bootedAt, armed) && WatchdogsMoved(armed, timeouts.all)
      ensures SameRetries(old(timeouts.all), armed)
      ensures forall i :: OVERALL <= i <= INFRA_TEARDOWN ==> armed[i] == old(timeouts.all[i])
      ensures bootConfig == Some(ConfigFor(cache, deployment))
      ensures console.resets == old(console.resets) + 1
    {
      PowerUp(deployment);
      timeouts.ArmForBoot(clock.now);
      bootedAt, armed := clock.now, timeouts.all;
      OtherThreads(0);
    }

    /** One turn of the boot loop, lines 697-766. */
    method BootOnce(deployment: Deployment) returns (raised: bool, ghost boot: Boot)
      requires Valid() && timeouts.all[OVERALL].IsStarted()
      requires !timeouts.all[INFRA_SETUP].IsStarted() && !timeouts.all[INFRA_TEARDOWN].IsStarted()
      modifies this`bootConfig, this`stopEvent, this`cancelJob, clock, console, machine, machine.port, timeouts
      ensures Valid() && machine.reading == OFF
      ensures machine.port == old(machine.port) || fresh(machine.port)
      ensures clock.now > old(clock.now)
      ensures Final() <==> boot.over || boot.gaveUp
      ensures raised ==> boot.gaveUp
      ensures console.resets == old(console.resets) + 1
      ensures machine.commands ==
              old(machine.commands) + ((if old(machine.reading) == OFF then [] else [OFF]) + [ON, OFF])
      ensures !timeouts.all[INFRA_SETUP].IsStarted() && !timeouts.all[INFRA_TEARDOWN].IsStarted()
      ensures !Final() ==> timeouts.all[OVERALL] == old(timeouts.all[OVERALL])
      ensures !Final() ==> if Raced(boot) then Spendable(timeouts.all) == Spendable(old(timeouts.all))
                           else Spendable(timeouts.all) < Spendable(old(timeouts.all))
      ensures GoodBoot(boot, cache, deployment) && boot.left == timeouts.all
      ensures SameRetries(old(timeouts.all), boot.armed) && boot.armed[OVERALL] == old(timeouts.all[OVERALL])
      ensures old(clock.now) < boot.bootedAt && boot.leftAt == clock.now
    {
      OnThenOff(machine.commands, if machine.reading == OFF then [] else [OFF]);
      ghost var bootedAt, armed, polls := RunBoot(deployment);
      ghost var ended, endedAt := timeouts.all, clock.now;
      ghost var listed, listedAt, rebootAsked, over;
      raised, listed, listedAt, rebootAsked, over := FinishBoot();
      boot := Boot(bootConfig.value, bootedAt, armed, polls, ended, endedAt, listed, listedAt,
                   rebootAsked, over, Aborts(listed, listedAt, rebootAsked), timeouts.all, clock.now);
      SameRetriesSpendable(old(timeouts.all), armed);
      if !Final() {
        BootIsPaid(boot, cache, deployment);
      }
    }

    /** The boot loop would not go round again. */
    predicate RunIsOver()
      requires |timeouts.all| > OVERALL
      reads this, clock, console, timeouts
    {
      Final() || timeouts.all[OVERALL].HasExpired(clock.now)
    }

    /** The last boot of a run left things as they are, and says whether the run is over. */
    ghost predicate After(boots: seq<Boot>)
      reads this, clock, console, timeouts
    {
      boots != [] ==>
        var last := boots[|boots| - 1];
        && last.left == timeouts.all && last.leftAt == clock.now && |timeouts.all| > OVERALL
        && (EndsRun(last) <==> RunIsOver())
    }

    /** One more boot of a run that booted like `before`, and found the port with these commands and reading. */
    method BootAgain(deployment: Deployment, ghost before: seq<Boot>,
                     ghost earlier: seq<PduState>, ghost reading: PduState)
      returns (raised: bool, ghost boots: seq<Boot>)
      requires Valid() && timeouts.all[OVERALL].IsStarted()
      requires !timeouts.all[INFRA_SETUP].IsStarted() && !timeouts.all[INFRA_TEARDOWN].IsStarted()
      requires deployment == (if |before| == 0 then start else continuation)
      requires GoodBoots(before, cache, start, continuation) && After(before)
      requires !RunIsOver()
      requires machine.reading == if before == [] then reading else OFF
      requires machine.commands == earlier + PowerCycle(reading, |before|)
      modifies this`bootConfig, this`stopEvent, this`cancelJob, clock, console, machine, machine.port, timeouts
      ensures Valid() && machine.reading == OFF
      ensures machine.port == old(machine.port) || fresh(machine.port)
      ensures |boots| == |before| + 1 && Races(boots) >= Races(before)
      ensures clock.now > old(clock.now)
      ensures raised ==> boots[|boots| - 1].gaveUp && RunIsOver()
      ensures console.resets == old(console.resets) + 1
      ensures machine.commands == earlier + PowerCycle(reading, |boots|)
      ensures !timeouts.all[INFRA_SETUP].IsStarted() && !timeouts.all[INFRA_TEARDOWN].IsStarted()
      ensures !Final() ==> timeouts.all[OVERALL] == old(timeouts.all[OVERALL])
      ensures !Final() ==> Spendable(timeouts.all) + 1 + Races(before) <= Spendable(old(timeouts.all)) + Races(boots)
      ensures GoodBoots(boots, cache, start, continuation) && After(boots)
      ensures if before == [] then Takes(old(timeouts.all), boots[0].armed) else boots[0] == before[0]
    {
      PowerCycleNext(earlier, reading, |before|, machine.reading);
      ghost var was := timeouts.all;
      ghost var boot;
      raised, boot := BootOnce(deployment);
      RunGoesOn(before, boot, cache, start, continuation, was);
      boots := before + [boot];
    }

    /**
     Lines 768-799: share the results with the client, unless the job was cancelled or the console
     is already over. The machine loses its service mark whenever a pattern for that is configured,
     matched or not.
     */
    method TearDown() returns (outcome: Outcome)
      requires Valid()
      modifies this`readyForService, this`stopEvent, this`cancelJob
      modifies clock, console, machine`port, machine`power, timeouts
      ensures Valid()
      ensures machine.port == old(machine.port) || fresh(machine.port)
      ensures outcome == TornDown ==> TEAR_DOWN in console.entered && !timeouts.all[INFRA_TEARDOWN].IsStarted()
      ensures outcome == Skipped <==> old(console.state != DUT_DONE || cancelJob)
      ensures KeptSince(old(timeouts.all), old(clock.now)) && (old(Final()) ==> Final())
      ensures console.resets == old(console.resets)
      ensures readyForService == (old(readyForService) && !(unfitPatternSet && outcome != Skipped))
    {
      if console.State() != DUT_DONE || cancelJob {
        return Skipped;
      }
      if unfitPatternSet && readyForService {
        readyForService := false;
        var minOffTime: int := *;
        machine.UpdateConfig(minOffTime);
      }
      var raised := EnterTearDown();
      if raised {
        return Raised;
      }
      WaitForClient();
      timeouts.Stop(INFRA_TEARDOWN);
      outcome := TornDown;
    }

    /** Time has passed, and the overall clock runs as it did. */
    ghost predicate KeptSince(ts: seq<Timeout>, then_: int)
      reads clock, timeouts
    {
      clock.now >= then_ && |timeouts.all| == |ts| >= WATCHDOGS && timeouts.all[OVERALL] == ts[OVERALL]
    }

    /** Lines 776-785: let the client read the last messages, then tear down. */
    method EnterTearDown() returns (raised: bool)
      requires Valid() && console.state == DUT_DONE
      modifies this`stopEvent, this`cancelJob, clock, console, machine`port, machine`power, timeouts
      ensures Valid() && timeouts.all[INFRA_TEARDOWN].IsStarted()
      ensures machine.port == old(machine.port) || fresh(machine.port)
      ensures !raised ==> TEAR_DOWN in console.entered
      ensures clock.now >= old(clock.now) + CONSOLE_DRAINING_DELAY
      ensures KeptSince(old(timeouts.all), old(clock.now)) && (old(Final()) ==> Final())
      ensures console.resets == old(console.resets)
    {
      timeouts.Start(INFRA_TEARDOWN, clock.now);
      OtherThreads(CONSOLE_DRAINING_DELAY);
      raised := console.SetState(TEAR_DOWN);
    }

    /** Lines 787-794: until the client closes the connection, or the tear-down deadline. */
    method WaitForClient()
      requires Valid() && timeouts.all[INFRA_TEARDOWN].IsStarted()
      modifies this`stopEvent, this`cancelJob, clock, console, machine`port, machine`power, timeouts
      ensures Valid()
      ensures machine.port == old(machine.port) || fresh(machine.port)
      ensures TEAR_DOWN in old(console.entered) ==> TEAR_DOWN in console.entered
      ensures KeptSince(old(timeouts.all), old(clock.now)) && (old(Final()) ==> Final())
      ensures console.resets == old(console.resets)
      ensures console.State() == OVER || cancelJob || stopEvent || timeouts.all[INFRA_TEARDOWN].HasExpired(clock.now)
    {
      while console.State() != OVER && !cancelJob && !stopEvent &&
            !timeouts.all[INFRA_TEARDOWN].HasExpired(clock.now)
        invariant Valid() && timeouts.all[INFRA_TEARDOWN].IsStarted()
        invariant TEAR_DOWN in old(console.entered) ==> TEAR_DOWN in console.entered
        invariant KeptSince(old(timeouts.all), old(clock.now)) && (old(Final()) ==> Final())
        invariant console.resets == old(console.resets)
        invariant machine.port == old(machine.port) || fresh(machine.port)
        decreases timeouts.all[INFRA_TEARDOWN].Left(clock.now)
      {
        OtherThreads(POLL_DELAY);
      }
    }

    /** Lines 692-766. */
    method BootLoop() returns (raised: bool, ghost boots: seq<Boot>)
      requires Valid() && timeouts.all[OVERALL].IsStarted()
      requires !timeouts.all[INFRA_SETUP].IsStarted() && !timeouts.all[INFRA_TEARDOWN].IsStarted()
      modifies this`bootConfig, this`stopEvent, this`cancelJob, clock, console, machine, machine.port, timeouts
      ensures Valid()
      ensures machine.port == old(machine.port) || fresh(machine.port)
      ensures |boots| <= 1 + Spendable(old(timeouts.all)) + Races(boots)
      ensures if boots == [] then machine.reading == old(machine.reading) else machine.reading == OFF
      ensures machine.commands == old(machine.commands) + PowerCycle(old(machine.reading), |boots|)
      ensures GoodBoots(boots, cache, start, continuation)
      ensures boots != [] ==> Takes(old(timeouts.all), boots[0].armed)
      ensures boots != [] ==> EndsRun(boots[|boots| - 1])
      ensures boots == [] ==> !raised && old(RunIsOver())
      ensures !raised ==> RunIsOver()
      ensures console.resets == old(console.resets) + |boots|
    {
      raised, boots := BootWhile();
      if boots != [] {
        BootsWithinRetries(boots, cache, start, continuation);
        SameRetriesSpendable(old(timeouts.all), boots[0].armed);
      }
    }

    /** The loop itself. */
    method BootWhile() returns (raised: bool, ghost boots: seq<Boot>)
      requires Valid() && timeouts.all[OVERALL].IsStarted()
      requires !timeouts.all[INFRA_SETUP].IsStarted() && !timeouts.all[INFRA_TEARDOWN].IsStarted()
      modifies this`bootConfig, this`stopEvent, this`cancelJob, clock, console, machine, machine.port, timeouts
      ensures Valid()
      ensures machine.port == old(machine.port) || fresh(machine.port)
      ensures if boots == [] then machine.reading == old(machine.reading) else machine.reading == OFF
      ensures machine.commands == old(machine.commands) + PowerCycle(old(machine.reading), |boots|)
      ensures GoodBoots(boots, cache, start, continuation)
      ensures boots != [] ==> Takes(old(timeouts.all), boots[0].armed)
      ensures boots != [] ==> EndsRun(boots[|boots| - 1])
      ensures boots == [] ==> !raised && old(RunIsOver())
      ensures !raised ==> RunIsOver()
      ensures console.resets == old(console.resets) + |boots|
    {
      var deployment := start;
      raised, boots := false, [];
      while !raised && !stopEvent && !cancelJob && !timeouts.all[OVERALL].HasExpired(clock.now) && !console.Done()
        invariant Valid()
        invariant machine.port == old(machine.port) || fresh(machine.port)
        invariant raised ==> boots != [] && RunIsOver()
        invariant console.resets == old(console.resets) + |boots|
        invariant !Final() ==> timeouts.all[OVERALL].IsStarted()
        invariant !timeouts.all[INFRA_SETUP].IsStarted() && !timeouts.all[INFRA_TEARDOWN].IsStarted()
        invariant deployment == if |boots| == 0 then start else continuation
        invariant if boots == [] then machine.reading == old(machine.reading) else machine.reading == OFF
        invariant machine.commands == old(machine.commands) + PowerCycle(old(machine.reading), |boots|)
        invariant GoodBoots(boots, cache, start, continuation) && After(boots)
        invariant boots == [] ==> RunIsOver() == old(RunIsOver())
        invariant if boots == [] then timeouts.all == old(timeouts.all)
                  else Takes(old(timeouts.all), boots[0].armed)
        decreases !Final(), timeouts.all[OVERALL].Left(clock.now)
      {
        raised, boots := BootAgain(deployment, boots, old(machine.commands), old(machine.reading));
        deployment := continuation;
      }
    }

    /** Lines 680-689: start the job's clock and cache what its first boot needs. */
    method SetUp() returns (raised: bool)
      requires Valid()
      requires forall i :: 0 <= i < |timeouts.all| ==> !timeouts.all[i].IsStarted()
      modifies this`cache, this`stopEvent, this`cancelJob, clock, console, machine`port, machine`power, timeouts
      ensures Valid()
      ensures machine.port == old(machine.port) || fresh(machine.port)
      ensures timeouts.all[OVERALL].startedAt == Some(old(clock.now))
      ensures !raised ==> !timeouts.all[INFRA_SETUP].IsStarted() && !timeouts.all[INFRA_TEARDOWN].IsStarted()
      ensures Spendable(timeouts.all) == Spendable(old(timeouts.all)) && SameRetries(old(timeouts.all), timeouts.all)
      ensures !raised ==> cache == WithArtifacts(old(cache))
      ensures console.resets == old(console.resets)
    {
      timeouts.Start(OVERALL, clock.now);
      timeouts.Start(INFRA_SETUP, clock.now);
      raised := CacheRemoteArtifacts();
      if !raised {
        OtherThreads(0);
        timeouts.Stop(INFRA_SETUP);
      }
      SameRetriesBudget(old(timeouts.all)[BOOT_CYCLE..], timeouts.all[BOOT_CYCLE..]);
    }

    /** The three phases of `execute_job`; a phase that raises ends it. */
    method RunPhases() returns (outcome: Outcome, ghost boots: seq<Boot>)
      requires Valid()
      requires forall i :: 0 <= i < |timeouts.all| ==> !timeouts.all[i].IsStarted()
      modifies this`cache, this`readyForService, this`bootConfig, this`stopEvent, this`cancelJob
      modifies clock, console, machine, machine.port, timeouts
      ensures Valid()
      ensures machine.port == old(machine.port) || fresh(machine.port)
      ensures |boots| <= 1 + Spendable(old(timeouts.all)) + Races(boots)
      ensures if boots == [] then machine.reading == old(machine.reading) else machine.reading == OFF
      ensures machine.commands == old(machine.commands) + PowerCycle(old(machine.reading), |boots|)
      ensures Spaced(machine.power.writes)
      ensures GoodBoots(boots, cache, start, continuation)
      ensures boots != [] ==> SameRetries(old(timeouts.all), boots[0].armed)
      ensures boots != [] ==> |boots[0].armed| > OVERALL && boots[0].armed[OVERALL].startedAt == Some(old(clock.now))
      ensures boots != [] ==> cache == WithArtifacts(old(cache))
      ensures boots != [] ==> EndsRun(boots[|boots| - 1])
      ensures boots == [] && outcome != Raised ==> RunIsOver()
      ensures console.resets == old(console.resets) + |boots|
      ensures outcome == TornDown ==> TEAR_DOWN in console.entered
      ensures outcome == TornDown ==> readyForService == (old(readyForService) && !unfitPatternSet)
      ensures outcome == Skipped ==> readyForService == old(readyForService)
    {
      var raised;
      raised, boots := SetUpAndBoot();
      outcome := Raised;
      if !raised {
        outcome := TearDown();
      }
      assert Spaced(machine.power.writes) by {
        ReachedIsSpaced(machine.power);
      }
    }

    /** Lines 680-766. */
    method SetUpAndBoot() returns (raised: bool, ghost boots: seq<Boot>)
      requires Valid()
      requires forall i :: 0 <= i < |timeouts.all| ==> !timeouts.all[i].IsStarted()
      modifies this`cache, this`bootConfig, this`stopEvent, this`cancelJob
      modifies clock, console, machine, machine.port, timeouts
      ensures Valid()
      ensures machine.port == old(machine.port) || fresh(machine.port)
      ensures |boots| <= 1 + Spendable(old(timeouts.all)) + Races(boots)
      ensures if boots == [] then machine.reading == old(machine.reading) else machine.reading == OFF
      ensures machine.commands == old(machine.commands) + PowerCycle(old(machine.reading), |boots|)
      ensures GoodBoots(boots, cache, start, continuation)
      ensures boots != [] ==> SameRetries(old(timeouts.all), boots[0].armed)
      ensures boots != [] ==> |boots[0].armed| > OVERALL && boots[0].armed[OVERALL].startedAt == Some(old(clock.now))
      ensures boots != [] ==> cache == WithArtifacts(old(cache))
      ensures boots != [] ==> EndsRun(boots[|boots| - 1])
      ensures boots == [] && !raised ==> RunIsOver()
      ensures console.resets == old(console.resets) + |boots|
    {
      boots := [];
      raised := SetUp();
      if !raised {
        ghost var ready := timeouts.all;
        raised, boots := BootLoop();
        if boots != [] {
          SameRetriesTransitive(old(timeouts.all), ready, boots[0].armed);
        }
      }
    }

    /**
     The whole of `execute_job`. Whatever the other threads do, it ends; it boots at most once more
     than the retries it was given, not counting boots whose watchdog expiry vanished; the machine
     is powered exactly during its boots, and rests before each of them, as long as nobody replaces its
     port during a cut; and it is off at the end.
     */
    method ExecuteJob() returns (outcome: Outcome, ghost boots: seq<Boot>)
      requires Valid()
      requires forall i :: 0 <= i < |timeouts.all| ==> !timeouts.all[i].IsStarted()
      modifies this`cache, this`readyForService, this`bootConfig, this`stopEvent, this`cancelJob
      modifies clock, console, machine, machine.port, timeouts
      ensures Valid()
      ensures machine.port == old(machine.port) || fresh(machine.port)
      ensures |boots| <= 1 + Spendable(old(timeouts.all)) + Races(boots)
      ensures if boots == [] then machine.reading == old(machine.reading) else machine.reading == OFF
      ensures machine.commands == old(machine.commands) + PowerCycle(old(machine.reading), |boots|)
      ensures Spaced(machine.power.writes)
      ensures NoneOvertaken(machine.power.writes) ==> FullySpaced(machine.power.writes)
      ensures GoodBoots(boots, cache, start, continuation)
      ensures boots != [] ==> SameRetries(old(timeouts.all), boots[0].armed)
      ensures boots != [] ==> |boots[0].armed| > OVERALL && boots[0].armed[OVERALL].startedAt == Some(old(clock.now))
      ensures OneSessionEnd(console.Observed())
      ensures outcome == TornDown && console.client == Some(1) ==> SessionEnd in console.actions
      ensures boots != [] ==> cache == WithArtifacts(old(cache))
      ensures boots != [] ==> EndsRun(boots[|boots| - 1])
      ensures boots == [] && outcome != Raised ==> RunIsOver()
      ensures console.resets == old(console.resets) + |boots|
      ensures outcome == TornDown ==> TEAR_DOWN in console.entered
      ensures outcome == TornDown ==> readyForService == (old(readyForService) && !unfitPatternSet)
      ensures outcome == Skipped ==> readyForService == old(readyForService)
    {
      outcome, boots := RunPhases();
      SessionEndAtMostOnce(console.client, console.calls);
      assert NoneOvertaken(machine.power.writes) ==> FullySpaced(machine.power.writes) by {
        ReachedIsSpaced(machine.power);
      }
    }

    /** A job that was picked up: the end of `session_init`, then `execute_job`. */
    method RunJob() returns (outcome: Outcome, ghost boots: seq<Boot>)
      requires Valid()
      requires forall i :: 0 <= i < |timeouts.all| ==> !timeouts.all[i].IsStarted()
      modifies this`cache, this`readyForService, this`bootConfig, this`stopEvent, this`cancelJob
      modifies clock, console, machine, machine.port, timeouts
      ensures Valid() && Spaced(machine.power.writes)
      ensures NoneOvertaken(machine.power.writes) ==> FullySpaced(machine.power.writes)
      ensures machine.port == old(machine.port) || fresh(machine.port)
      ensures machine.reading == OFF
      ensures machine.commands == old(machine.commands) + (if old(machine.reading) == OFF then [] else [OFF])
                                                  + PowerCycle(OFF, |boots|)
      ensures |boots| <= 1 + Spendable(old(timeouts.all)) + Races(boots)
      ensures GoodBoots(boots, cache, start, continuation)
    {
      machine.Set(OFF);
      console.alive := true;
      outcome, boots := ExecuteJob();
    }
  }

  // ---------------------------------------------------------------------------
  // What every boot of a run is like

  lemma GoodBootAt(boots: seq<Boot>, cache: map<string, string>, start: Deployment, next: Deployment, i: nat)
    requires GoodBoots(boots, cache, start, next) && i < |boots|
    ensures GoodBoot(boots[i], cache, if i == 0 then start else next)
    ensures EndsRun(boots[i]) ==> i == |boots| - 1
  {
    assert GoodBootIn(boots, i, cache, start, next);
    if i < |boots| - 1 {
      assert GoodBootIn(boots, i + 1, cache, start, next);
    }
  }

  /** Whatever the job caches is served from the local store. */
  lemma CopiesAreLocal(minioUrl: string, machineId: string, url: string, artifact: string, suffix: string)
    ensures IsLocal(minioUrl, CopyOf(minioUrl, machineId, url, artifact, suffix))
  {
    if !IsLocal(minioUrl, url) {
      var rest := "boot/" + artifact + "-" + machineId + "-" + suffix;
      Associative(minioUrl, "/", rest);
      assert CopyOf(minioUrl, machineId, url, artifact, suffix) == minioUrl + ("/" + rest);
    }
  }

  /**
   What each boot of a run is served, when `execute_job` has cached what it caches. The first boot gets
   the copies of its own kernel and initramfs. A later one gets each artifact exactly when it is one that
   the first boot used or that an earlier job cached; else it gets nothing.
   */
  lemma ArtifactsServed(boots: seq<Boot>, minioUrl: string, machineId: string, before: map<string, string>,
                        start: Deployment, next: Deployment, i: nat)
    requires GoodBoots(boots, CachedFor(minioUrl, machineId, before, start), start, next) && i < |boots|
    ensures var kernel, initrd := CopyOf(minioUrl, machineId, start.kernelUrl, "kernel", "start"),
                                  CopyOf(minioUrl, machineId, start.initramfsUrl, "initramfs", "start");
            var d, config := if i == 0 then start else next, boots[i].config;
            && config.cmdline == d.cmdline
            && config.kernel == (if d.kernelUrl == start.initramfsUrl then Some(initrd)
                                 else if d.kernelUrl == start.kernelUrl then Some(kernel)
                                 else if d.kernelUrl in before then Some(before[d.kernelUrl]) else None)
            && config.initrd == (if d.initramfsUrl == start.initramfsUrl then Some(initrd)
                                 else if d.initramfsUrl == start.kernelUrl then Some(kernel)
                                 else if d.initramfsUrl in before then Some(before[d.initramfsUrl]) else None)
  {
    GoodBootAt(boots, CachedFor(minioUrl, machineId, before, start), start, next, i);
  }

  // ---------------------------------------------------------------------------
  // When a boot goes uncharged

  /** Only a watchdog's expiry can vanish: the other timeouts belong to the executor thread. */
  lemma OnlyWatchdogsRace(b: Boot, i: nat)
    requires WatchdogsMoved(b.ended, b.listed) && b.endedAt <= b.listedAt
    requires i < WATCHDOGS && b.ended[i].HasExpired(b.endedAt)
    ensures !Raced(b)
  {
    assert b.listed[i].HasExpired(b.listedAt);
  }

  lemma SnapshotNotRaced(b: Boot)
    requires b.ended == b.listed && b.endedAt <= b.listedAt
    ensures !Raced(b)
  {
    if SomeExpired(b.ended, b.endedAt) {
      var i :| 0 <= i < |b.ended| && b.ended[i].HasExpired(b.endedAt);
      assert b.listed[i].HasExpired(b.listedAt);
    }
  }

  /** What a run of boots can still spend after its last one. */
  lemma {:induction false} SpentByBoots(boots: seq<Boot>, cache: map<string, string>, start: Deployment,
                                        next: Deployment)
    requires GoodBoots(boots, cache, start, next) && boots != []
    ensures var first, last := boots[0].armed, boots[|boots| - 1].armed;
            && |first| >= WATCHDOGS && |last| >= WATCHDOGS
            && |boots| - 1 + Spendable(last) <= Spendable(first) + Races(boots[..|boots| - 1])
  {
    assert GoodBootIn(boots, 0, cache, start, next);
    if |boots| > 1 {
      var front, last := boots[..|boots| - 1], boots[|boots| - 1];
      var before := front[|front| - 1];
      GoodFront(boots, |front|, cache, start, next);
      SpentByBoots(front, cache, start, next);
      assert GoodBootIn(boots, |front|, cache, start, next) && GoodBootIn(boots, |front| - 1, cache, start, next);
      BootIsPaid(before, cache, if |front| == 1 then start else next);
      SameRetriesSpendable(before.left, last.armed);
    }
  }

  lemma {:induction false} NoneRaced(boots: seq<Boot>, cache: map<string, string>, start: Deployment, next: Deployment)
    requires GoodBoots(boots, cache, start, next) && forall b :: b in boots ==> b.ended == b.listed
    ensures Races(boots) == 0
  {
    if |boots| > 0 {
      assert GoodBootIn(boots, |boots| - 1, cache, start, next);
      SnapshotNotRaced(boots[|boots| - 1]);
      GoodFront(boots, |boots| - 1, cache, start, next);
      NoneRaced(boots[..|boots| - 1], cache, start, next);
    }
  }

  /**
   The retries of the first boot bound the boots of every run that boots as `execute_job` does, not
   counting the raced ones; when no watchdog moves between the end of polling and the listing, none is.
   */
  lemma BootsWithinRetries(boots: seq<Boot>, cache: map<string, string>, start: Deployment, next: Deployment)
    requires GoodBoots(boots, cache, start, next) && boots != []
    ensures |boots[0].armed| >= WATCHDOGS && |boots| <= 1 + Spendable(boots[0].armed) + Races(boots)
    ensures (forall b :: b in boots ==> b.ended == b.listed) ==> |boots| <= 1 + Spendable(boots[0].armed)
  {
    SpentByBoots(boots, cache, start, next);
    if forall b :: b in boots ==> b.ended == b.listed {
      NoneRaced(boots, cache, start, next);
    }
  }

  // A run that has no retries to spend, and yet goes on booting.

  const IDLE := Timeout(10, 0, None, 0)

  /** During a boot at `at`: the overall, boot and first-activity timeouts run; so does the watchdog, or not. */
  function Clocks(overall: Timeout, at: int, watchdog: Timeout): seq<Timeout> {
    [overall, IDLE, IDLE, Timeout(100, 0, Some(at), 0), IDLE, Timeout(100, 0, Some(at), 0), watchdog]
  }

  /** A boot whose watchdog starts at once, expires, and is stopped by a late line before the listing. */
  function LuckyBoot(config: BootConfig, overall: Timeout, at: int): Boot {
    Boot(config, at, Clocks(overall, at, IDLE), [Poll(None, Some(at), None, false, false, false, false, true)],
         Clocks(overall, at, IDLE.StartedAt(at)), at + 20, Clocks(overall, at, IDLE), at + 30,
         false, false, false, Clocks(overall, at, IDLE), at + 40)
  }

  ghost predicate IsLucky(b: Boot, overall: Timeout, at: int) {
    && b.armed == b.listed == b.left == Clocks(overall, at, IDLE)
    && b.bootedAt == at && b.listedAt == at + 30 && b.leftAt == at + 40 && !b.over && !b.gaveUp && Raced(b)
  }

  lemma SomeLuckyBoot(cache: map<string, string>, d: Deployment, overall: Timeout, at: int) returns (b: Boot)
    requires overall.IsStarted() && overall.retries == 0 && !overall.HasExpired(at + 40)
    ensures GoodBoot(b, cache, d) && IsLucky(b, overall, at)
  {
    b := LuckyBoot(ConfigFor(cache, d), overall, at);
    assert b.ended[WATCHDOGS].HasExpired(b.endedAt);
    assert Charged(b.listed, b.listedAt, false) == b.listed;
  }

  lemma LuckyFollows(last: Boot, b: Boot, overall: Timeout, at: int)
    requires overall.IsStarted() && !overall.HasExpired(at + 40)
    requires IsLucky(last, overall, at) && IsLucky(b, overall, at + 100)
    ensures Follows(last, b)
  {
  }

  lemma NothingToSpend(overall: Timeout, at: int)
    ensures Spendable(Clocks(overall, at, IDLE)) == 0
  {
    var ts := Clocks(overall, at, IDLE)[BOOT_CYCLE..];
    assert ts == ([] + [ts[0]] + [ts[1]] + [ts[2]]) + [ts[3]];
    BudgetSnoc([] + [ts[0]] + [ts[1]] + [ts[2]], ts[3]);
    BudgetSnoc([] + [ts[0]] + [ts[1]], ts[2]);
    BudgetSnoc([] + [ts[0]], ts[1]);
    BudgetSnoc([], ts[0]);
  }

  /** Every boot is raced, and one comes 100 microseconds after the other. */
  ghost predicate LuckyRun(boots: seq<Boot>, cache: map<string, string>, start: Deployment, next: Deployment,
                           overall: Timeout) {
    && |boots| > 0 && GoodBoots(boots, cache, start, next) && Races(boots) == |boots|
    && IsLucky(boots[0], overall, 0) && IsLucky(boots[|boots| - 1], overall, 100 * (|boots| - 1))
  }

  lemma LuckyOnce(b: Boot, cache: map<string, string>, start: Deployment, next: Deployment, overall: Timeout)
    requires GoodBoot(b, cache, start) && IsLucky(b, overall, 0)
    ensures LuckyRun([b], cache, start, next, overall)
  {
    BootAppended([], b, cache, start, next);
    assert [] + [b] == [b];
  }

  lemma LuckyAgain(boots: seq<Boot>, b: Boot, cache: map<string, string>, start: Deployment, next: Deployment,
                   overall: Timeout)
    requires LuckyRun(boots, cache, start, next, overall)
    requires GoodBoot(b, cache, next) && IsLucky(b, overall, 100 * |boots|)
    requires overall.IsStarted() && !overall.HasExpired(100 * |boots|)
    ensures LuckyRun(boots + [b], cache, start, next, overall)
  {
    LuckyFollows(boots[|boots| - 1], b, overall, 100 * (|boots| - 1));
    BootAppended(boots, b, cache, start, next);
  }

  /** However many boots: all of them can be raced, without a single retry to spend. */
  lemma {:induction false} RaceHappens(cache: map<string, string>, start: Deployment, next: Deployment,
                                       overall: Timeout, n: nat) returns (boots: seq<Boot>)
    requires n > 0 && overall.IsStarted() && overall.retries == 0 && !overall.HasExpired(100 * n)
    ensures |boots| == n && LuckyRun(boots, cache, start, next, overall)
    ensures |boots[0].armed| >= WATCHDOGS && Spendable(boots[0].armed) == 0
  {
    var b := SomeLuckyBoot(cache, if n == 1 then start else next, overall, 100 * (n - 1));
    if n == 1 {
      boots := [b];
      LuckyOnce(b, cache, start, next, overall);
      NothingToSpend(overall, 0);
    } else {
      boots := RaceHappens(cache, start, next, overall, n - 1);
      LuckyAgain(boots, b, cache, start, next, overall);
      boots := boots + [b];
    }
  }

  /**
   A continue boot can be served nothing at all: whenever neither of its artifacts is one that the job
   or an earlier one cached, there is a run whose second boot has neither kernel nor initramfs.
   */
  lemma NothingServed(cache: map<string, string>, start: Deployment, next: Deployment) returns (boots: seq<Boot>)
    requires next.kernelUrl !in cache && next.initramfsUrl !in cache
    ensures |boots| == 2 && GoodBoots(boots, cache, start, next)
    ensures boots[1].config == BootConfig(None, None, next.cmdline)
  {
    boots := RaceHappens(cache, start, next, Timeout(1000, 0, Some(0), 0), 2);
    GoodBootAt(boots, cache, start, next, 1);
  }
}
