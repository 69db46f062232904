/**
 What the console makes of the machine's output: the pattern set, the job status and the watchdogs
 of `ConsoleState` (job.py), fed line by line by `JobConsole.match_console_patterns` (executor.py).
 Regular expressions stay uninterpreted: a configuration says which patterns a line matches.
 */
module ConsolePatterns {
  import opened Common
  import opened LineCutting
  import opened Watchdogs

  datatype Pattern = SessionEnd | SessionReboot | JobSuccess | JobWarn | MachineUnfit

  datatype Config = Config(search: Bytes -> set<Pattern>, hasSuccess: bool, watchdogs: seq<WatchdogPatterns>)

  function Status(c: Config, matched: set<Pattern>): JobStatus {
    if SessionEnd !in matched then INCOMPLETE
    else if !c.hasSuccess then COMPLETE
    else if JobSuccess !in matched then FAIL
    else if JobWarn in matched then WARN
    else PASS
  }

  /** The patterns and watchdogs of a job; `log` is what the watchdogs have seen. */
  class ConsoleState {
    const config: Config
    var matched: set<Pattern>
    var startedAt: seq<Option<int>>
    ghost var log: seq<Signal>

    /** Every watchdog started when the whole history says so. */
    ghost predicate Valid()
      reads this
    {
      && |startedAt| == |config.watchdogs|
      && forall i :: 0 <= i < |startedAt| ==> startedAt[i] == StartedAt(config.watchdogs[i], log)
    }

    constructor (config: Config)
      ensures Valid() && this.config == config && matched == {} && log == []
    {
      this.config, matched, log := config, {}, [];
      startedAt := seq(|config.watchdogs|, _ => None);
    }

    method ProcessLine(line: Bytes, now: int)
      requires Valid()
      modifies this
      ensures Valid() && matched == old(matched) + config.search(line)
      ensures log == old(log) + [Line(now, line)]
    {
      matched := matched + config.search(line);
      for i := 0 to |config.watchdogs|
        invariant |startedAt| == |config.watchdogs| && matched == old(matched) + config.search(line)
        invariant log == old(log)
        invariant forall k :: 0 <= k < i ==>
                    startedAt[k] == WatchdogStep(config.watchdogs[k], StartedAt(config.watchdogs[k], log), line, now)
        invariant forall k :: i <= k < |startedAt| ==> startedAt[k] == StartedAt(config.watchdogs[k], log)
      {
        startedAt := startedAt[i := WatchdogStep(config.watchdogs[i], startedAt[i], line, now)];
      }
      forall k | 0 <= k < |startedAt|
        ensures startedAt[k] == StartedAt(config.watchdogs[k], log + [Line(now, line)])
      {
        StartedSnoc(config.watchdogs[k], log, now, line);
      }
      log := log + [Line(now, line)];
    }

    /** What `execute_job` does to the watchdogs before every boot. */
    method StopWatchdogs()
      requires Valid()
      modifies this`startedAt, this`log
      ensures Valid() && log == old(log) + [BootStop]
    {
      for i := 0 to |startedAt|
        invariant |startedAt| == |config.watchdogs| && log == old(log)
        invariant forall k :: 0 <= k < i ==> startedAt[k] == None
      {
        startedAt := startedAt[i := None];
      }
      log := log + [BootStop];
    }

    method ResetPerBootState()
      modifies this`matched
      ensures matched == old(matched) - {SessionReboot} && JobStatus() == old(JobStatus())
    {
      matched := matched - {SessionReboot};
    }

    function JobStatus(): JobStatus
      reads this
    {
      Status(config, matched)
    }
  }

  /** Everything that a list of lines matches. */
  function Hits(c: Config, lines: seq<Bytes>): set<Pattern> {
    if |lines| == 0 then {} else Hits(c, lines[..|lines| - 1]) + c.search(lines[|lines| - 1])
  }

  lemma HitsSnoc(c: Config, lines: seq<Bytes>, l: Bytes)
    ensures Hits(c, lines + [l]) == Hits(c, lines) + c.search(l)
  {
    assert (lines + [l])[..|lines|] == lines;
  }

  lemma HitsAlso(c: Config, matched: set<Pattern>, lines: seq<Bytes>, l: Bytes)
    ensures (matched + Hits(c, lines)) + c.search(l) == matched + Hits(c, lines + [l])
  {
    HitsSnoc(c, lines, l);
  }

  lemma {:induction false} HitsConcat(c: Config, a: seq<Bytes>, b: seq<Bytes>)
    ensures Hits(c, a + b) == Hits(c, a) + Hits(c, b)
  {
    if |b| == 0 {
      assert a + b == a;
    } else {
      HitsConcat(c, a, b[..|b| - 1]);
      assert (a + b)[..|a + b| - 1] == a + b[..|b| - 1];
    }
  }

  /** What the console remembers of its input, as buffers and boots change it, and the lines it has processed. */
  datatype Memory = Memory(matched: set<Pattern>, buffer: Bytes, lines: seq<Bytes>)

  datatype Event = Received(buf: Bytes) | BootStarts

  function Remember(c: Config, m: Memory, e: Event): Memory {
    match e
    case Received(buf) =>
      var cut := Cut(m.buffer + buf);
      Memory(m.matched + Hits(c, cut.lines), cut.rest, m.lines + cut.lines)
    case BootStarts => m.(matched := m.matched - {SessionReboot})
  }

  /** The lines among the signals to the watchdogs. */
  function Texts(log: seq<Signal>): seq<Bytes> {
    if |log| == 0 then []
    else Texts(log[..|log| - 1]) + match log[|log| - 1] case Line(_, text) => [text] case BootStop => []
  }

  lemma TextsSnoc(log: seq<Signal>, at: int, text: Bytes)
    ensures Texts(log + [Line(at, text)]) == Texts(log) + [text]
  {
    assert (log + [Line(at, text)])[..|log|] == log;
  }

  /** `find(b'\n', from)`: the first newline at or after `from`, or `|s|` when there is none. */
  method FindNewline(s: Bytes, from: nat) returns (i: nat)
    requires from <= |s|
    ensures from <= i <= |s| && LF !in s[from..i]
    ensures i < |s| ==> s[i] == LF
  {
    i := from;
    while i < |s| && s[i] != LF
      invariant from <= i <= |s| && LF !in s[from..i]
    {
      i := i + 1;
    }
  }

  /** The part of `JobConsole` that turns received buffers into lines. */
  class ConsoleReader {
    const patterns: ConsoleState
    var lineBuffer: Bytes
    var needsReboot: bool

    constructor (patterns: ConsoleState)
      ensures this.patterns == patterns && lineBuffer == [] && !needsReboot
    {
      this.patterns, lineBuffer, needsReboot := patterns, [], false;
    }

    ghost function Recalls(): Memory
      reads this, patterns
    {
      Memory(patterns.matched, lineBuffer, Texts(patterns.log))
    }

    /** Each line is processed when it is found, whatever the time is by then; no signal but these lines is added. */
    method MatchConsolePatterns(buf: Bytes)
      requires patterns.Valid()
      modifies this, patterns
      ensures patterns.Valid()
      ensures Recalls() == Remember(patterns.config, old(Recalls()), Received(buf))
      ensures |patterns.log| == |old(patterns.log)| + |Cut(old(lineBuffer) + buf).lines|
      ensures old(patterns.log) <= patterns.log
      ensures needsReboot <==> SessionReboot in patterns.matched
    {
      var toProcess := lineBuffer + buf;
      ghost var lines: seq<Bytes> := [];
      var cur: nat := 0;
      assert toProcess[..0] == [];
      while true
        invariant patterns.Valid() && cur <= |toProcess|
        invariant ReadTo(toProcess, cur, lines)
        invariant patterns.matched == old(patterns.matched) + Hits(patterns.config, lines)
        invariant Texts(patterns.log) == old(Texts(patterns.log)) + lines
        invariant |patterns.log| == |old(patterns.log)| + |lines| && old(patterns.log) <= patterns.log
        decreases |toProcess| - cur
      {
        var idx := FindNewline(toProcess, cur);
        ReadOn(toProcess, cur, idx, lines);
        if idx == |toProcess| {
          break;
        }
        var line := toProcess[cur..idx + 1];
        HitsAlso(patterns.config, old(patterns.matched), lines, line);
        Associative(old(Texts(patterns.log)), lines, [line]);
        ProcessLineNow(line);
        lines := lines + [line];
        cur := idx + 1;
      }
      assert toProcess[..|toProcess|] == toProcess;
      lineBuffer := toProcess[cur..];
      needsReboot := SessionReboot in patterns.matched;
    }

    /** One line is processed, whatever the time is. */
    method ProcessLineNow(line: Bytes)
      requires patterns.Valid()
      modifies patterns
      ensures patterns.Valid() && patterns.matched == old(patterns.matched) + patterns.config.search(line)
      ensures Texts(patterns.log) == old(Texts(patterns.log)) + [line]
      ensures |patterns.log| == |old(patterns.log)| + 1 && old(patterns.log) <= patterns.log
    {
      var now: int := *;
      TextsSnoc(patterns.log, now, line);
      patterns.ProcessLine(line, now);
    }

    /** A boot forgets the reboot request and nothing else: not the unfinished line, the status or a watchdog. */
    method ResetPerBootState()
      requires patterns.Valid()
      modifies this`needsReboot, patterns`matched
      ensures patterns.Valid() && !needsReboot
      ensures Recalls() == Remember(patterns.config, old(Recalls()), BootStarts)
      ensures patterns.JobStatus() == old(patterns.JobStatus())
    {
      patterns.ResetPerBootState();
      needsReboot := SessionReboot in patterns.matched;
    }
  }

  /** These lines end where the stream has been read to. */
  ghost predicate ReadTo(s: Bytes, cur: nat, lines: seq<Bytes>)
    requires cur <= |s|
  {
    Cut(s[..cur]) == Cutting(lines, [])
  }

  /** The stream up to the next newline, and past it. */
  lemma ReadOn(s: Bytes, cur: nat, idx: nat, lines: seq<Bytes>)
    requires cur <= idx <= |s| && LF !in s[cur..idx] && ReadTo(s, cur, lines)
    ensures Cut(s[..idx]) == Cutting(lines, s[cur..idx])
    ensures idx < |s| && s[idx] == LF ==> ReadTo(s, idx + 1, lines + [s[cur..idx + 1]])
  {
    CutMore(s[..cur], s[cur..idx]);
    assert s[..idx] == s[..cur] + s[cur..idx];
    if idx < |s| {
      CutByte(s[..idx], s[idx]);
      assert s[..idx + 1] == s[..idx] + [s[idx]];
      assert s[cur..idx + 1] == s[cur..idx] + [s[idx]];
    }
  }

  // ---------------------------------------------------------------------------
  // Whole runs of the console

  function RunEvents(c: Config, events: seq<Event>): Memory {
    if |events| == 0 then Memory({}, [], [])
    else Remember(c, RunEvents(c, events[..|events| - 1]), events[|events| - 1])
  }

  /** The machine's output, however it was cut into buffers. */
  function Stream(events: seq<Event>): Bytes {
    if |events| == 0 then []
    else Stream(events[..|events| - 1]) + match events[|events| - 1] case Received(buf) => buf case BootStarts => []
  }

  /**
   The console keeps the unfinished line of the whole stream and has processed all its finished lines:
   neither the cutting into buffers nor the boots in between matter, except to a pending reboot request.
   */
  lemma {:induction false} OnlyTheStreamMatters(c: Config, events: seq<Event>)
    ensures var m := RunEvents(c, events);
            && m.buffer == Cut(Stream(events)).rest && m.lines == Cut(Stream(events)).lines
            && m.matched - {SessionReboot} == Hits(c, Cut(Stream(events)).lines) - {SessionReboot}
            && m.matched <= Hits(c, Cut(Stream(events)).lines)
  {
    if |events| > 0 {
      var front := events[..|events| - 1];
      OnlyTheStreamMatters(c, front);
      var s := Stream(front);
      match events[|events| - 1]
      case Received(buf) =>
        CutAppend(s, buf);
        var more := Hits(c, Cut(Cut(s).rest + buf).lines);
        HitsConcat(c, Cut(s).lines, Cut(Cut(s).rest + buf).lines);
        var m, all := RunEvents(c, front).matched, Hits(c, Cut(s).lines);
        calc {
          (m + more) - {SessionReboot};
          (m - {SessionReboot}) + (more - {SessionReboot});
          (all - {SessionReboot}) + (more - {SessionReboot});
          (all + more) - {SessionReboot};
        }
      case BootStarts =>
        assert s + [] == s;
    }
  }

  lemma StatusIgnoresReboot(c: Config, a: set<Pattern>, b: set<Pattern>)
    requires a - {SessionReboot} == b - {SessionReboot}
    ensures Status(c, a) == Status(c, b)
  {
    assert forall p: Pattern :: p != SessionReboot ==> (p in a <==> p in a - {SessionReboot});
    assert forall p: Pattern :: p != SessionReboot ==> (p in b <==> p in b - {SessionReboot});
  }

  /** Two runs over the same output processed the same lines, and have the same status and unfinished line. */
  lemma ChunkInvariance(c: Config, one: seq<Event>, other: seq<Event>)
    requires Stream(one) == Stream(other)
    ensures Status(c, RunEvents(c, one).matched) == Status(c, RunEvents(c, other).matched)
    ensures RunEvents(c, one).buffer == RunEvents(c, other).buffer
    ensures RunEvents(c, one).lines == RunEvents(c, other).lines
  {
    OnlyTheStreamMatters(c, one);
    OnlyTheStreamMatters(c, other);
    StatusIgnoresReboot(c, RunEvents(c, one).matched, RunEvents(c, other).matched);
  }

  /** Some finished line of the output matches the pattern. */
  ghost predicate Seen(c: Config, s: Bytes, p: Pattern) {
    exists i :: 0 <= i < |Cut(s).lines| && p in c.search(Cut(s).lines[i])
  }

  lemma {:induction false} HitsExactly(c: Config, lines: seq<Bytes>, p: Pattern)
    ensures p in Hits(c, lines) <==> exists i :: 0 <= i < |lines| && p in c.search(lines[i])
  {
    if |lines| > 0 {
      var front, last := lines[..|lines| - 1], lines[|lines| - 1];
      HitsExactly(c, front, p);
      if i :| 0 <= i < |front| && p in c.search(front[i]) {
        assert lines[i] == front[i];
      }
      if i :| 0 <= i < |lines| && p in c.search(lines[i]) {
        assert i < |front| ==> front[i] == lines[i];
      }
    }
  }

  lemma MatchedIsSeen(c: Config, events: seq<Event>, p: Pattern)
    requires p != SessionReboot
    ensures p in RunEvents(c, events).matched <==> Seen(c, Stream(events), p)
  {
    var m, all := RunEvents(c, events).matched, Hits(c, Cut(Stream(events)).lines);
    OnlyTheStreamMatters(c, events);
    assert p in m - {SessionReboot} <==> p in all - {SessionReboot};
    HitsExactly(c, Cut(Stream(events)).lines, p);
  }

  /**
   What the status says about the output: incomplete until a line ends the session; then complete when
   the job has no success pattern, failed when no line matched it, and else passed, with a warning when a
   line matched that pattern.
   */
  lemma StatusExactly(c: Config, events: seq<Event>)
    ensures var status, s := Status(c, RunEvents(c, events).matched), Stream(events);
            && (status == INCOMPLETE <==> !Seen(c, s, SessionEnd))
            && (status == COMPLETE <==> Seen(c, s, SessionEnd) && !c.hasSuccess)
            && (status == FAIL <==> Seen(c, s, SessionEnd) && c.hasSuccess && !Seen(c, s, JobSuccess))
            && (status == PASS <==> Seen(c, s, SessionEnd) && c.hasSuccess && Seen(c, s, JobSuccess)
                                    && !Seen(c, s, JobWarn))
            && (status == WARN <==> Seen(c, s, SessionEnd) && c.hasSuccess && Seen(c, s, JobSuccess)
                                    && Seen(c, s, JobWarn))
  {
    MatchedIsSeen(c, events, SessionEnd);
    MatchedIsSeen(c, events, JobSuccess);
    MatchedIsSeen(c, events, JobWarn);
  }

  /** INCOMPLETE first, then either COMPLETE or FAIL, PASS, WARN in this order. */
  function Progress(s: JobStatus): nat {
    match s
    case INCOMPLETE => 0
    case COMPLETE => 1
    case FAIL => 1
    case PASS => 2
    case WARN => 3
    case _ => 4
  }

  /** Along any run, boots included, the status never goes back. */
  lemma {:induction false} StatusNeverGoesBack(c: Config, events: seq<Event>, i: nat, j: nat)
    requires i <= j <= |events|
    ensures Progress(Status(c, RunEvents(c, events[..i]).matched))
         <= Progress(Status(c, RunEvents(c, events[..j]).matched))
    decreases j
  {
    if i < j {
      StatusNeverGoesBack(c, events, i, j - 1);
      assert events[..j][..j - 1] == events[..j - 1];
    }
  }

  // ---------------------------------------------------------------------------
  // Watchdogs over whole runs

  /** After how many lines each boot stopped the watchdogs. */
  function Boots(log: seq<Signal>): seq<nat> {
    if |log| == 0 then []
    else Boots(log[..|log| - 1]) + if log[|log| - 1].BootStop? then [|Texts(log)|] else []
  }

  lemma {:induction false} BootsWithin(log: seq<Signal>)
    ensures |log| == |Texts(log)| + |Boots(log)|
    ensures forall i :: 0 <= i < |Boots(log)| ==> Boots(log)[i] <= |Texts(log)|
  {
    if |log| > 0 {
      BootsWithin(log[..|log| - 1]);
    }
  }

  /** A log that ends with a line after its latest boot differs from one that ends with a boot. */
  lemma SameEnd(log: seq<Signal>, other: seq<Signal>)
    requires |log| > 0 && |other| > 0 && Texts(log) == Texts(other) && Boots(log) == Boots(other)
    ensures log[|log| - 1].BootStop? ==> other[|other| - 1].BootStop?
  {
    BootsWithin(log);
    BootsWithin(other[..|other| - 1]);
  }

  /** The lines and the places of the boots among them are all there is to a log but its times. */
  lemma {:induction false} UntimedIsTexts(log: seq<Signal>, other: seq<Signal>)
    requires Texts(log) == Texts(other) && Boots(log) == Boots(other)
    ensures Untimed(log) == Untimed(other)
  {
    BootsWithin(log);
    BootsWithin(other);
    if |log| > 0 {
      var front, otherFront := log[..|log| - 1], other[..|other| - 1];
      SameEnd(log, other);
      SameEnd(other, log);
      assert Texts(front) == Texts(log)[..|Texts(front)|] && Boots(front) == Boots(log)[..|Boots(front)|];
      assert Texts(otherFront) == Texts(other)[..|Texts(otherFront)|];
      assert Boots(otherFront) == Boots(other)[..|Boots(otherFront)|];
      UntimedIsTexts(front, otherFront);
      assert Untimed(log)[..|log| - 1] == Untimed(front) && Untimed(other)[..|other| - 1] == Untimed(otherFront);
    }
  }

  /**
   However the output was cut into buffers, and whenever they came: if the boots stopped the watchdogs
   after the same lines, the same line started the watchdog, or none did.
   */
  lemma WatchdogChunkInvariance(c: Config, w: WatchdogPatterns, one: seq<Event>, other: seq<Event>,
                                log: seq<Signal>, log': seq<Signal>)
    requires Stream(one) == Stream(other) && Boots(log) == Boots(log')
    requires Texts(log) == RunEvents(c, one).lines && Texts(log') == RunEvents(c, other).lines
    ensures StartedBy(w, Untimed(log)) == StartedBy(w, Untimed(log'))
    ensures StartedAt(w, log).Some? <==> StartedAt(w, log').Some?
  {
    ChunkInvariance(c, one, other);
    UntimedIsTexts(log, log');
    OnlyTheLinesMatter(w, log);
    OnlyTheLinesMatter(w, log');
  }
}
