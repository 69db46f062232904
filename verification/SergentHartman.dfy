/**
 The qualification of a machine by `SergentHartman` (executor.py): one registration job, then a
 fixed number of boot-loop jobs, after which the machine is declared ready for service or not.
 */
module Qualification {
  import opened Common

  datatype Job = RegistrationJob | BootLoopJob

  datatype Failure = NotReported | TemplateBroken

  /** How many boots make a campaign, and how many of them must pass. */
  datatype Rules = Rules(loops: int, rate: int)

  /** How often each status was reported; `sum(statuses.values())` is the size of the multiset. */
  type Statuses = multiset<JobStatus>

  /** The trainer's fields and the machine's service mark. */
  datatype Trainer = Trainer(isActive: bool, curLoop: nat, statuses: Statuses, ready: bool)

  function Reset(t: Trainer): Trainer {
    Trainer(false, 0, multiset{}, t.ready)
  }

  datatype Tasked = Tasked(task: Result<Job, Failure>, trainer: Trainer)

  /** `next_task`: the job, and the trainer even when loading the job's template raised. */
  function NextTask(t: Trainer, templateLoads: bool): Tasked {
    if !t.isActive then
      Tasked(if templateLoads then Ok(RegistrationJob) else Err(TemplateBroken), Reset(t).(isActive := true))
    else if t.curLoop != |t.statuses| then
      Tasked(Err(NotReported), t)
    else
      Tasked(if templateLoads then Ok(BootLoopJob) else Err(TemplateBroken), t.(curLoop := t.curLoop + 1))
  }

  function Report(rules: Rules, t: Trainer, s: JobStatus): Trainer {
    if t.curLoop == 0 then
      if s != PASS then Reset(t) else t
    else
      var statuses := t.statuses + multiset{s};
      if t.curLoop == rules.loops then
        Trainer(false, t.curLoop, statuses, statuses[PASS] >= rules.rate)
      else
        t.(statuses := statuses)
  }

  class SergentHartman {
    const rules: Rules
    var isActive: bool
    var curLoop: nat
    var statuses: Statuses
    var ready: bool  // the machine's mark

    function Now(): Trainer
      reads this
    {
      Trainer(isActive, curLoop, statuses, ready)
    }

    constructor (rules: Rules, ready: bool)
      ensures this.rules == rules && Now() == Trainer(false, 0, multiset{}, ready)
    {
      this.rules, this.ready := rules, ready;
      isActive, curLoop, statuses := false, 0, multiset{};
    }

    method ResetState()
      modifies this
      ensures Now() == Reset(old(Now()))
    {
      isActive, curLoop, statuses := false, 0, multiset{};
    }

    method GetNextTask(templateLoads: bool) returns (r: Result<Job, Failure>)
      modifies this
      ensures Tasked(r, Now()) == NextTask(old(Now()), templateLoads)
    {
      if !isActive {
        ResetState();
        isActive := true;
        r := if templateLoads then Ok(RegistrationJob) else Err(TemplateBroken);
      } else {
        if curLoop != |statuses| {
          return Err(NotReported);
        }
        curLoop := curLoop + 1;
        r := if templateLoads then Ok(BootLoopJob) else Err(TemplateBroken);
      }
    }

    /** Says whether the next session should wait for the registration retrial delay. */
    method DoReport(s: JobStatus) returns (delay: bool)
      modifies this
      ensures Now() == Report(rules, old(Now()), s)
      ensures delay <==> old(curLoop) == 0 && s != PASS
    {
      if curLoop == 0 {
        if s != PASS {
          ResetState();
          return true;
        }
      } else {
        statuses := statuses + multiset{s};
        if curLoop == rules.loops {
          isActive := false;
          ready := statuses[PASS] >= rules.rate;
        }
      }
      delay := false;
    }

    /**
     One turn of the executor's loop as far as training goes: `session_init`, the job, `session_end`.
     `job` is the status the job would end with, or nothing when its template cannot be loaded.
     */
    method RunSession(job: Option<JobStatus>)
      modifies this
      ensures Now() == Step(rules, old(Now()), Session(job))
    {
      if ready {
        ResetState();
      } else {
        var task := GetNextTask(job.Some?);
        if task.Ok? {
          var _ := DoReport(job.value);
        }
      }
    }
  }

  // ---------------------------------------------------------------------------
  // Histories

  datatype Event =
    | Session(job: Option<JobStatus>)
    | Marked(ready: bool)  // somebody else changes the machine's mark

  function Step(rules: Rules, t: Trainer, e: Event): Trainer {
    match e
    case Marked(ready) => t.(ready := ready)
    case Session(job) =>
      if t.ready then Reset(t)
      else
        var next := NextTask(t, job.Some?);
        if next.task.Ok? && job.Some? then Report(rules, next.trainer, job.value) else next.trainer
  }

  function Run(rules: Rules, h: seq<Event>): Trainer {
    if |h| == 0 then Trainer(false, 0, multiset{}, false)
    else Step(rules, Run(rules, h[..|h| - 1]), h[|h| - 1])
  }

  /** A job as the trainer sees it: the status it ended with, or nothing when its template cannot be loaded. */
  type Outcome = Option<JobStatus>

  /** The simple account of training: the jobs of the campaign under way, registration first. */
  datatype Account = Account(campaign: seq<Outcome>, ready: bool)

  function Passes(jobs: seq<Outcome>): nat {
    if |jobs| == 0 then 0 else Passes(jobs[..|jobs| - 1]) + if jobs[|jobs| - 1] == Some(PASS) then 1 else 0
  }

  /** What starts a campaign: a passed registration, or one whose template cannot be loaded. */
  predicate Opens(job: Outcome) {
    job.None? || job.value == PASS
  }

  /** The latest boot of the campaign had no template, so that its report never comes. */
  predicate Blocked(campaign: seq<Outcome>) {
    |campaign| > 1 && campaign[|campaign| - 1].None?
  }

  /** A campaign is its opening and exactly `loops` reported boots, which alone decide the mark. */
  function Tell(rules: Rules, a: Account, e: Event): Account {
    match e
    case Marked(ready) => a.(ready := ready)
    case Session(job) =>
      if a.ready then a.(campaign := [])
      else if Blocked(a.campaign) then a
      else
        var campaign := a.campaign + [job];
        if !Opens(campaign[0]) then Account([], a.ready)
        else if |campaign| == 1 + rules.loops && job.Some? then Account([], Passes(campaign[1..]) >= rules.rate)
        else Account(campaign, a.ready)
  }

  function Story(rules: Rules, h: seq<Event>): Account {
    if |h| == 0 then Account([], false)
    else Tell(rules, Story(rules, h[..|h| - 1]), h[|h| - 1])
  }

  /** The trainer's counters say the same as the account. */
  ghost predicate Agrees(rules: Rules, t: Trainer, a: Account) {
    && t.ready == a.ready
    && t.isActive == (a.campaign != [])
    && t.curLoop <= rules.loops
    && (t.isActive ==> CountsAgree(rules, t, a.campaign))
  }

  ghost predicate CountsAgree(rules: Rules, t: Trainer, campaign: seq<Outcome>) {
    && |campaign| > 0 && Opens(campaign[0])
    && t.curLoop == |campaign| - 1
    && (!Blocked(campaign) ==> t.curLoop < rules.loops)
    && |t.statuses| == t.curLoop - (if Blocked(campaign) then 1 else 0)
    && t.statuses[PASS] == Passes(campaign[1..])
  }

  lemma PassesSnoc(jobs: seq<Outcome>, job: Outcome)
    ensures Passes(jobs + [job]) == Passes(jobs) + if job == Some(PASS) then 1 else 0
  {
    assert (jobs + [job])[..|jobs|] == jobs;
  }

  lemma CampaignSnoc(campaign: seq<Outcome>, job: Outcome)
    requires |campaign| > 0
    ensures var c := campaign + [job];
            && c[0] == campaign[0] && Blocked(c) == job.None?
            && Passes(c[1..]) == Passes(campaign[1..]) + if job == Some(PASS) then 1 else 0
  {
    PassesSnoc(campaign[1..], job);
    assert (campaign + [job])[1..] == campaign[1..] + [job];
  }

  /** One more boot of a campaign under way. */
  lemma BootAgrees(rules: Rules, t: Trainer, a: Account, job: Outcome)
    requires rules.loops >= 1 && Agrees(rules, t, a) && t.isActive && !t.ready && !Blocked(a.campaign)
    ensures Agrees(rules, Step(rules, t, Session(job)), Tell(rules, a, Session(job)))
  {
    CampaignSnoc(a.campaign, job);
    if job.Some? {
      assert Step(rules, t, Session(job)) == Report(rules, t.(curLoop := t.curLoop + 1), job.value);
    }
  }

  lemma StepAgrees(rules: Rules, t: Trainer, a: Account, e: Event)
    requires rules.loops >= 1 && Agrees(rules, t, a)
    ensures Agrees(rules, Step(rules, t, e), Tell(rules, a, e))
  {
    if e.Session? && !t.ready {
      if !t.isActive {
        assert a.campaign + [e.job] == [e.job];
      } else if !Blocked(a.campaign) {
        BootAgrees(rules, t, a, e.job);
      }
    }
  }

  /** After any history at all, broken templates included. */
  lemma {:induction false} TrainerTellsTheStory(rules: Rules, h: seq<Event>)
    requires rules.loops >= 1
    ensures Agrees(rules, Run(rules, h), Story(rules, h))
  {
    if |h| > 0 {
      TrainerTellsTheStory(rules, h[..|h| - 1]);
      StepAgrees(rules, Run(rules, h[..|h| - 1]), Story(rules, h[..|h| - 1]), h[|h| - 1]);
    }
  }

  // ---------------------------------------------------------------------------
  // Missing reports

  /** Every job's template loads, so that every job is reported. */
  ghost predicate AllReported(h: seq<Event>) {
    forall i :: 0 <= i < |h| && h[i].Session? ==> h[i].job.Some?
  }

  lemma {:induction false} ReportedNotBlocked(rules: Rules, h: seq<Event>)
    requires AllReported(h)
    ensures !Blocked(Story(rules, h).campaign)
  {
    if |h| > 0 {
      ReportedNotBlocked(rules, h[..|h| - 1]);
    }
  }

  /**
   The loop count never exceeds its limit. The error about a missing report comes exactly when a
   boot-loop template could not be loaded, so never when every job was reported.
   */
  lemma {:induction false} NeverUnreported(rules: Rules, h: seq<Event>, templateLoads: bool)
    requires rules.loops >= 1
    ensures Run(rules, h).curLoop <= rules.loops
    ensures NextTask(Run(rules, h), templateLoads).task == Err(NotReported) <==> Blocked(Story(rules, h).campaign)
    ensures AllReported(h) ==> NextTask(Run(rules, h), templateLoads).task != Err(NotReported)
  {
    TrainerTellsTheStory(rules, h);
    if AllReported(h) {
      ReportedNotBlocked(rules, h);
    }
  }

  /**
   Which job comes next, after any history: the registration exactly when no campaign is under way, a boot
   of the loop exactly when one is and every boot of it was reported.
   */
  lemma {:induction false} TaskExactly(rules: Rules, h: seq<Event>)
    requires rules.loops >= 1
    ensures var task, campaign := NextTask(Run(rules, h), true).task, Story(rules, h).campaign;
            && (task == Ok(RegistrationJob) <==> campaign == [])
            && (task == Ok(BootLoopJob) <==> campaign != [] && !Blocked(campaign))
            && (task == Err(NotReported) <==> Blocked(campaign))
    ensures var task, campaign := NextTask(Run(rules, h), false).task, Story(rules, h).campaign;
            task == Err(if Blocked(campaign) then NotReported else TemplateBroken)
  {
    TrainerTellsTheStory(rules, h);
  }

  /** The next task will be refused for a report that can no longer come. */
  predicate Stuck(t: Trainer) {
    t.isActive && !t.ready && t.curLoop != |t.statuses|
  }

  function Sessions(rules: Rules, t: Trainer, jobs: seq<Outcome>): Trainer
    decreases |jobs|
  {
    if |jobs| == 0 then t else Sessions(rules, Step(rules, t, Session(jobs[0])), jobs[1..])
  }

  /** One broken boot-loop template stops the training for good: only a new mark from outside ends it. */
  lemma {:induction false} StuckForGood(rules: Rules, t: Trainer, jobs: seq<Outcome>)
    requires Stuck(t)
    ensures Sessions(rules, t, jobs) == t
    ensures NextTask(t, true) == Tasked(Err(NotReported), t)
    decreases |jobs|
  {
    if |jobs| > 0 {
      StuckForGood(rules, t, jobs[1..]);
    }
  }

  /** After any history, a session gets the trainer stuck exactly by a broken template during a boot loop. */
  lemma {:induction false} StuckByBrokenTemplate(rules: Rules, h: seq<Event>, job: Outcome)
    requires rules.loops >= 1
    ensures Stuck(Step(rules, Run(rules, h), Session(job)))
       <==> Run(rules, h).isActive && !Run(rules, h).ready && (job.None? || Stuck(Run(rules, h)))
  {
    TrainerTellsTheStory(rules, h);
    StepAgrees(rules, Run(rules, h), Story(rules, h), Session(job));
  }

  // ---------------------------------------------------------------------------
  // When a machine is marked

  /** The jobs of the sessions of a history, in order. */
  function Jobs(h: seq<Event>): seq<Outcome> {
    if |h| == 0 then []
    else Jobs(h[..|h| - 1]) + JobOf(h[|h| - 1])
  }

  /** Event `i` opened a campaign on an idle trainer, and all the sessions since, too few to end it, were boots. */
  ghost predicate Underway(rules: Rules, h: seq<Event>, i: nat)
    requires i < |h|
  {
    var front, last := h[..|h| - 1], h[|h| - 1];
    h[i].Session? && Opens(h[i].job) &&
    if i == |h| - 1 then
      !Run(rules, front).isActive && !Run(rules, front).ready
    else
      && Underway(rules, front, i) && |Jobs(h[i + 1..])| < rules.loops
      && (last.Session? ==> last.job.Some? && !Run(rules, front).ready)
  }

  lemma TailSnoc(h: seq<Event>, i: nat)
    requires i < |h| - 1
    ensures h[..|h| - 1][i + 1..] == h[i + 1..][..|h[i + 1..]| - 1]
    ensures h[i + 1..][|h[i + 1..]| - 1] == h[|h| - 1]
  {
  }

  /** What an event adds to the jobs of a history. */
  function JobOf(e: Event): seq<Outcome> {
    match e case Session(job) => [job] case Marked(_) => []
  }

  lemma OpeningIsTold(rules: Rules, a: Account, job: Outcome)
    requires rules.loops >= 1 && a.campaign == [] && !a.ready && Opens(job)
    ensures Tell(rules, a, Session(job)) == Account([job], false)
  {
    assert a.campaign + [job] == [job];
  }

  lemma BootIsTold(rules: Rules, a: Account, opening: Outcome, jobs: seq<Outcome>, e: Event)
    requires a.campaign == [opening] + jobs && !Blocked(a.campaign) && Opens(opening)
    requires e.Session? ==> e.job.Some? && !a.ready && |jobs| + 1 < rules.loops
    ensures Tell(rules, a, e).campaign == [opening] + (jobs + JobOf(e)) && !Blocked([opening] + (jobs + JobOf(e)))
  {
    assert a.campaign + JobOf(e) == [opening] + (jobs + JobOf(e));
  }

  lemma JobsSnoc(h: seq<Event>, i: nat)
    requires i < |h| - 1
    ensures Jobs(h[i + 1..]) == Jobs(h[..|h| - 1][i + 1..]) + JobOf(h[|h| - 1])
  {
    TailSnoc(h, i);
  }

  /** Such a campaign is the account's: its opening and the jobs since. */
  lemma {:induction false} UnderwayIsTold(rules: Rules, h: seq<Event>, i: nat)
    requires rules.loops >= 1 && i < |h| && Underway(rules, h, i)
    ensures Story(rules, h).campaign == [h[i].job] + Jobs(h[i + 1..])
    ensures !Blocked(Story(rules, h).campaign)
  {
    var front, last := h[..|h| - 1], h[|h| - 1];
    var a := Story(rules, front);
    TrainerTellsTheStory(rules, front);
    if i == |h| - 1 {
      OpeningIsTold(rules, a, h[i].job);
      assert h[i + 1..] == [];
    } else {
      UnderwayIsTold(rules, front, i);
      JobsSnoc(h, i);
      BootIsTold(rules, a, h[i].job, Jobs(front[i + 1..]), last);
    }
  }

  /** And every campaign of the account that is not blocked was opened like that. */
  lemma {:induction false} ToldIsUnderway(rules: Rules, h: seq<Event>) returns (i: nat)
    requires rules.loops >= 1 && Story(rules, h).campaign != [] && !Blocked(Story(rules, h).campaign)
    ensures i < |h| && Underway(rules, h, i)
  {
    var front := h[..|h| - 1];
    TrainerTellsTheStory(rules, front);
    if Story(rules, front).campaign == [] {
      i := |h| - 1;
      assert Story(rules, front).campaign + [h[i].job] == [h[i].job];
    } else {
      i := ToldIsUnderway(rules, front);
      UnderwayIsTold(rules, front, i);
      JobsSnoc(h, i);
    }
  }

  /** With `job`, the campaign that event `i` opened has all its boots, and enough of them passed. */
  ghost predicate Completes(rules: Rules, h: seq<Event>, i: nat, job: Outcome)
    requires i < |h|
  {
    && Underway(rules, h, i) && job.Some?
    && |Jobs(h[i + 1..])| == rules.loops - 1
    && Passes(Jobs(h[i + 1..]) + [job]) >= rules.rate
  }

  lemma MarkIsTold(rules: Rules, a: Account, job: Outcome)
    requires rules.loops >= 1 && !a.ready && (a.campaign != [] ==> Opens(a.campaign[0]))
    ensures Tell(rules, a, Session(job)).ready
       <==> && |a.campaign| == rules.loops && !Blocked(a.campaign) && job.Some?
            && Passes(a.campaign[1..] + [job]) >= rules.rate
  {
    if |a.campaign| > 0 {
      assert (a.campaign + [job])[1..] == a.campaign[1..] + [job];
    }
  }

  /** The mark that the account gives, told by the event that opened the campaign. */
  lemma CompletesIsTold(rules: Rules, h: seq<Event>, i: nat, job: Outcome)
    requires rules.loops >= 1 && i < |h| && Underway(rules, h, i) && !Story(rules, h).ready
    ensures Tell(rules, Story(rules, h), Session(job)).ready <==> Completes(rules, h, i, job)
  {
    var c := Story(rules, h).campaign;
    UnderwayIsTold(rules, h, i);
    MarkIsTold(rules, Story(rules, h), job);
    assert c[1..] == Jobs(h[i + 1..]);
  }

  lemma RunSnoc(rules: Rules, h: seq<Event>, e: Event)
    ensures Run(rules, h + [e]) == Step(rules, Run(rules, h), e)
    ensures Story(rules, h + [e]) == Tell(rules, Story(rules, h), e)
  {
    assert (h + [e])[..|h|] == h;
  }

  /**
   Any history, any next session: the session leaves the machine marked exactly if it was, or if it
   completes a campaign of a passed registration, or of a registration whose template could not be
   loaded, and exactly `loops` boots with enough passes, without a break.
   */
  lemma {:induction false} MarkedOnlyAfterCampaign(rules: Rules, h: seq<Event>, job: Outcome)
    requires rules.loops >= 1
    ensures Run(rules, h + [Session(job)]).ready
       <==> Run(rules, h).ready || exists i :: 0 <= i < |h| && Completes(rules, h, i, job)
  {
    TrainerTellsTheStory(rules, h);
    TrainerTellsTheStory(rules, h + [Session(job)]);
    RunSnoc(rules, h, Session(job));
    var a := Story(rules, h);
    if !a.ready {
      if Tell(rules, a, Session(job)).ready {
        MarkIsTold(rules, a, job);
        var i := ToldIsUnderway(rules, h);
        CompletesIsTold(rules, h, i, job);
      }
      if i :| 0 <= i < |h| && Completes(rules, h, i, job) {
        CompletesIsTold(rules, h, i, job);
      }
    }
  }

  // ---------------------------------------------------------------------------
  // Machines that were never registered

  /** A broken registration template passes for a passed registration, exactly when none is under way. */
  lemma {:induction false} BrokenPassesForPassed(rules: Rules, t: Trainer)
    requires rules.loops >= 1
    ensures Step(rules, t, Session(None)) == Step(rules, t, Session(Some(PASS)))
       <==> t.ready || !t.isActive || Stuck(t)
  {
  }

  /** From then on, whatever happens, nothing tells the two histories apart. */
  lemma {:induction false} NeverToldApart(rules: Rules, h: seq<Event>, rest: seq<Event>)
    requires rules.loops >= 1 && !Run(rules, h).isActive
    ensures Run(rules, h + [Session(None)] + rest) == Run(rules, h + [Session(Some(PASS))] + rest)
    decreases |rest|
  {
    var broken, passed := h + [Session(None)], h + [Session(Some(PASS))];
    if |rest| == 0 {
      RunSnoc(rules, h, Session(None));
      RunSnoc(rules, h, Session(Some(PASS)));
      BrokenPassesForPassed(rules, Run(rules, h));
      assert broken + rest == broken && passed + rest == passed;
    } else {
      NeverToldApart(rules, h, rest[..|rest| - 1]);
      RunConcat(rules, broken, rest);
      RunConcat(rules, passed, rest);
    }
  }

  lemma RunConcat(rules: Rules, h: seq<Event>, rest: seq<Event>)
    requires |rest| > 0
    ensures Run(rules, h + rest) == Step(rules, Run(rules, h + rest[..|rest| - 1]), rest[|rest| - 1])
  {
    assert (h + rest)[..|h + rest| - 1] == h + rest[..|rest| - 1];
  }

  /** A campaign has one opening. */
  lemma OneOpening(rules: Rules, h: seq<Event>, i: nat, j: nat)
    requires rules.loops >= 1 && i < |h| && j < |h| && Underway(rules, h, i) && Underway(rules, h, j)
    ensures i == j
  {
    UnderwayIsTold(rules, h, i);
    UnderwayIsTold(rules, h, j);
    if i < j {
      JobsFewer(h, i, j);
    } else if j < i {
      JobsFewer(h, j, i);
    }
  }

  lemma {:induction false} JobsFewer(h: seq<Event>, i: nat, j: nat)
    requires i < j < |h| && h[j].Session?
    ensures |Jobs(h[j + 1..])| < |Jobs(h[i + 1..])|
  {
    TailSnoc(h, i);
    if j == |h| - 1 {
      assert h[j + 1..] == [];
    } else {
      TailSnoc(h, j);
      JobsFewer(h[..|h| - 1], i, j);
    }
  }

  /** The session completes a campaign that opened with this job. */
  ghost predicate CompletesFrom(rules: Rules, h: seq<Event>, job: Outcome, opening: Outcome) {
    exists i :: 0 <= i < |h| && Completes(rules, h, i, job) && h[i].job == opening
  }

  /**
   When exactly a session marks a machine that no registration preceded: a registration template was
   broken when the trainer was idle and the machine unmarked, and the sessions since made a campaign.
   Every other machine that a session marks had its registration passed.
   */
  lemma {:induction false} RegistrationSkipped(rules: Rules, h: seq<Event>, job: Outcome)
    requires rules.loops >= 1 && !Run(rules, h).ready
    ensures Run(rules, h + [Session(job)]).ready
       <==> CompletesFrom(rules, h, job, None) || CompletesFrom(rules, h, job, Some(PASS))
    ensures !(CompletesFrom(rules, h, job, None) && CompletesFrom(rules, h, job, Some(PASS)))
  {
    MarkedOnlyAfterCampaign(rules, h, job);
    if CompletesFrom(rules, h, job, None) && CompletesFrom(rules, h, job, Some(PASS)) {
      var i :| 0 <= i < |h| && Completes(rules, h, i, job) && h[i].job == None;
      var j :| 0 <= j < |h| && Completes(rules, h, j, job) && h[j].job == Some(PASS);
      OneOpening(rules, h, i, j);
    }
  }

  /** The sessions of jobs that all have these statuses. */
  function Played(boots: seq<JobStatus>): seq<Event> {
    if |boots| == 0 then [] else Played(boots[..|boots| - 1]) + [Session(Some(boots[|boots| - 1]))]
  }

  function Outcomes(boots: seq<JobStatus>): (jobs: seq<Outcome>)
    ensures |jobs| == |boots|
  {
    if |boots| == 0 then [] else Outcomes(boots[..|boots| - 1]) + [Some(boots[|boots| - 1])]
  }

  lemma PlayedSnoc(h: seq<Event>, boots: seq<JobStatus>)
    requires |boots| > 0
    ensures h + Played(boots) == (h + Played(boots[..|boots| - 1])) + [Session(Some(boots[|boots| - 1]))]
  {
    Associative(h, Played(boots[..|boots| - 1]), [Session(Some(boots[|boots| - 1]))]);
  }

  lemma OutcomesSnoc(opening: Outcome, boots: seq<JobStatus>)
    requires |boots| > 0
    ensures [opening] + Outcomes(boots) == ([opening] + Outcomes(boots[..|boots| - 1])) + [Some(boots[|boots| - 1])]
  {
    Associative([opening], Outcomes(boots[..|boots| - 1]), [Some(boots[|boots| - 1])]);
  }

  lemma CampaignOpens(rules: Rules, h: seq<Event>, opening: Outcome)
    requires rules.loops >= 1 && !Run(rules, h).isActive && !Run(rules, h).ready && Opens(opening)
    ensures Story(rules, h + [Session(opening)]) == Account([opening], false)
  {
    TrainerTellsTheStory(rules, h);
    RunSnoc(rules, h, Session(opening));
    OpeningIsTold(rules, Story(rules, h), opening);
  }

  lemma CampaignGoesOn(rules: Rules, campaign: seq<Outcome>, status: JobStatus)
    requires 0 < |campaign| < rules.loops && Opens(campaign[0]) && !Blocked(campaign)
    ensures Tell(rules, Account(campaign, false), Session(Some(status))) == Account(campaign + [Some(status)], false)
    ensures !Blocked(campaign + [Some(status)])
  {
  }

  lemma {:induction false} CampaignPlays(rules: Rules, h: seq<Event>, opening: Outcome, boots: seq<JobStatus>)
    requires rules.loops > |boots| && !Run(rules, h).isActive && !Run(rules, h).ready && Opens(opening)
    ensures Story(rules, h + [Session(opening)] + Played(boots)) == Account([opening] + Outcomes(boots), false)
    ensures !Blocked([opening] + Outcomes(boots))
  {
    var begun := h + [Session(opening)];
    if |boots| == 0 {
      CampaignOpens(rules, h, opening);
      assert begun + Played(boots) == begun && [opening] + Outcomes(boots) == [opening];
    } else {
      var front, last := boots[..|boots| - 1], boots[|boots| - 1];
      CampaignPlays(rules, h, opening, front);
      RunSnoc(rules, begun + Played(front), Session(Some(last)));
      PlayedSnoc(begun, boots);
      CampaignGoesOn(rules, [opening] + Outcomes(front), last);
      OutcomesSnoc(opening, boots);
    }
  }

  /**
   From any history that leaves the trainer idle and the machine unmarked, a broken or a passed
   registration and `loops` boots mark the machine exactly if enough of these boots passed.
   */
  lemma {:induction false} AnyOpeningQualifies(rules: Rules, h: seq<Event>, opening: Outcome, boots: seq<JobStatus>)
    requires rules.loops >= 1 && |boots| == rules.loops && Opens(opening)
    requires !Run(rules, h).isActive && !Run(rules, h).ready
    ensures Run(rules, h + [Session(opening)] + Played(boots)).ready <==> Passes(Outcomes(boots)) >= rules.rate
  {
    var begun, front, last := h + [Session(opening)], boots[..|boots| - 1], boots[|boots| - 1];
    CampaignPlays(rules, h, opening, front);
    RunSnoc(rules, begun + Played(front), Session(Some(last)));
    PlayedSnoc(begun, boots);
    OutcomesSnoc(opening, boots);
    assert ([opening] + Outcomes(boots))[1..] == Outcomes(boots);
    TrainerTellsTheStory(rules, begun + Played(boots));
  }
}
