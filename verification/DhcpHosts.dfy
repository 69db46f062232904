/**
 The static DHCP leases of boots.py: a hosts file that every `add_static_address` parses, changes
 and renders again.
 */
module DhcpHosts {
  import opened Common
  import opened MacAddresses

  datatype Host = Host(mac: string, ip: string, hostname: string)

  // ---------------------------------------------------------------------------
  // Text

  /** The characters at which `str.splitlines` cuts. */
  predicate IsLineBreak(c: char) {
    '\n' <= c <= '\r' || '\U{1c}' <= c <= '\U{1e}' || c == '\U{85}' || c == '\U{2028}' || c == '\U{2029}'
  }

  /** The characters that `str.strip` removes. */
  predicate IsSpace(c: char) {
    '\t' <= c <= '\r' || '\U{1c}' <= c <= ' ' || c == '\U{85}' || c == '\U{a0}' || c == '\U{1680}'
    || '\U{2000}' <= c <= '\U{200a}' || c == '\U{2028}' || c == '\U{2029}' || c == '\U{202f}' || c == '\U{205f}'
    || c == '\U{3000}'
  }

  function FirstBreak(s: string, i: nat): (k: nat)
    requires i <= |s|
    ensures i <= k <= |s| && (k < |s| ==> IsLineBreak(s[k]))
    ensures forall j :: i <= j < k ==> !IsLineBreak(s[j])
    decreases |s| - i
  {
    if i == |s| || IsLineBreak(s[i]) then i else FirstBreak(s, i + 1)
  }

  function SplitLines(s: string): seq<string>
    decreases |s|
  {
    if |s| == 0 then []
    else
      var k := FirstBreak(s, 0);
      if k == |s| then [s]
      else if s[k] == '\r' && k + 1 < |s| && s[k + 1] == '\n' then [s[..k]] + SplitLines(s[k + 2..])
      else [s[..k]] + SplitLines(s[k + 1..])
  }

  function StripLeft(s: string): string {
    if |s| > 0 && IsSpace(s[0]) then StripLeft(s[1..]) else s
  }

  function StripRight(s: string): string {
    if |s| > 0 && IsSpace(s[|s| - 1]) then StripRight(s[..|s| - 1]) else s
  }

  function Strip(s: string): string {
    StripRight(StripLeft(s))
  }

  function IndexOf(s: string, c: char, i: nat): (k: nat)
    requires i <= |s|
    ensures i <= k <= |s| && (k < |s| ==> s[k] == c)
    ensures forall j :: i <= j < k ==> s[j] != c
    decreases |s| - i
  {
    if i == |s| || s[i] == c then i else IndexOf(s, c, i + 1)
  }

  // ---------------------------------------------------------------------------
  // The hosts file

  const SET := "set:"

  /** `mac,ip,set:hostname`, none of them empty and only the last with commas. */
  function ParseEntry(s: string): Option<Host> {
    var i := IndexOf(s, ',', 0);
    if i == 0 || i == |s| then None
    else
      var j := IndexOf(s, ',', i + 1);
      if j == i + 1 || |s| <= j + 1 + |SET| || s[j + 1..j + 1 + |SET|] != SET then None
      else Some(Host(s[..i], s[i + 1..j], s[j + 1 + |SET|..]))
  }

  datatype Reading = Ignored | Malformed | Entry(host: Host)

  function ReadLine(line: string): Reading {
    var s := Strip(line);
    if |s| == 0 || s[0] == '#' then Ignored
    else match ParseEntry(s) case None => Malformed case Some(h) => Entry(h)
  }

  function ParseLines(lines: seq<string>): Option<seq<Host>> {
    if |lines| == 0 then Some([])
    else Consider(ReadLine(lines[0]), ParseLines(lines[1..]))
  }

  function Consider(first: Reading, rest: Option<seq<Host>>): Option<seq<Host>> {
    if first.Malformed? || rest.None? then None
    else if first.Ignored? then rest
    else Some([first.host] + rest.value)
  }

  function Parse(text: string): Option<seq<Host>> {
    ParseLines(SplitLines(text))
  }

  /** `parse_dhcp_hosts`; nothing stands for the exception about a malformed file. */
  method ParseDhcpHosts(text: string) returns (r: Option<seq<Host>>)
    ensures r == Parse(text)
  {
    var lines := SplitLines(text);
    var hosts: seq<Host> := [];
    assert lines[0..] == lines;
    assert ParseLines(lines).Some? ==> [] + ParseLines(lines).value == ParseLines(lines).value;
    for i := 0 to |lines|
      invariant ParseLines(lines) == Append(hosts, ParseLines(lines[i..]))
    {
      ghost var rest := ParseLines(lines[i + 1..]);
      assert lines[i..][1..] == lines[i + 1..];
      var line := ReadLine(lines[i]);
      AppendConsider(hosts, line, rest);
      match line
      case Ignored =>
      case Malformed => return None;
      case Entry(h) => hosts := hosts + [h];
    }
    assert hosts + [] == hosts;
    r := Some(hosts);
  }

  function Append(hosts: seq<Host>, rest: Option<seq<Host>>): Option<seq<Host>> {
    if rest.None? then None else Some(hosts + rest.value)
  }

  lemma AppendConsider(hosts: seq<Host>, line: Reading, rest: Option<seq<Host>>)
    ensures Append(hosts, Consider(line, rest)) == match line
              case Ignored => Append(hosts, rest)
              case Malformed => None
              case Entry(h) => Append(hosts + [h], rest)
  {
    if line.Entry? && rest.Some? {
      assert hosts + ([line.host] + rest.value) == (hosts + [line.host]) + rest.value;
    }
  }

  function Line(h: Host): string {
    h.mac + "," + h.ip + "," + SET + h.hostname
  }

  /** The `dnsmasq-dhcp-host.jinja` template. */
  function Render(hosts: seq<Host>): string {
    if |hosts| == 0 then "" else Line(hosts[0]) + "\n" + Render(hosts[1..])
  }

  // ---------------------------------------------------------------------------
  // Parsing undoes rendering

  ghost predicate NoLineBreak(s: string) {
    forall i :: 0 <= i < |s| ==> !IsLineBreak(s[i])
  }

  /** What a host needs so that it survives the file. */
  ghost predicate WellFormed(h: Host) {
    && NoLineBreak(h.mac) && NoLineBreak(h.ip) && NoLineBreak(h.hostname)
    && |h.mac| > 0 && ',' !in h.mac && !IsSpace(h.mac[0]) && h.mac[0] != '#'
    && |h.ip| > 0 && ',' !in h.ip
    && |h.hostname| > 0 && !IsSpace(h.hostname[|h.hostname| - 1])
  }

  lemma SplitFirstLine(line: string, rest: string)
    requires NoLineBreak(line)
    ensures SplitLines(line + "\n" + rest) == [line] + SplitLines(rest)
  {
    var s := line + "\n" + rest;
    var k := FirstBreak(s, 0);
    assert s[|line|] == '\n' && IsLineBreak(s[|line|]);
    assert forall j :: 0 <= j < |line| ==> s[j] == line[j];
    assert k == |line|;
    assert s[..k] == line && s[k + 1..] == rest;
  }

  lemma CommaAfter(before: string, field: string, rest: string)
    requires ',' !in field
    ensures IndexOf(before + field + "," + rest, ',', |before|) == |before| + |field|
  {
    var s := before + field + "," + rest;
    assert s[|before| + |field|] == ',';
    assert forall k :: |before| <= k < |before| + |field| ==> s[k] == field[k - |before|];
  }

  lemma LineCommas(h: Host)
    requires ',' !in h.mac && ',' !in h.ip
    ensures IndexOf(Line(h), ',', 0) == |h.mac|
    ensures IndexOf(Line(h), ',', |h.mac| + 1) == |h.mac| + 1 + |h.ip|
  {
    assert Line(h) == "" + h.mac + "," + (h.ip + "," + SET + h.hostname);
    CommaAfter("", h.mac, h.ip + "," + SET + h.hostname);
    assert Line(h) == (h.mac + ",") + h.ip + "," + (SET + h.hostname);
    CommaAfter(h.mac + ",", h.ip, SET + h.hostname);
  }

  /** The line `s` holds the fields of `h`, with commas at `i` and `j`. */
  ghost predicate Fields(s: string, i: nat, j: nat, h: Host) {
    && i < j && j + 1 + |SET| + |h.hostname| == |s|
    && s[..i] == h.mac && s[i + 1..j] == h.ip
    && s[j + 1..j + 1 + |SET|] == SET && s[j + 1 + |SET|..] == h.hostname
  }

  lemma LineFields(h: Host)
    ensures Fields(Line(h), |h.mac|, |h.mac| + 1 + |h.ip|, h)
  {
  }

  lemma ParseEntryAt(s: string, i: nat, j: nat, h: Host)
    requires Fields(s, i, j, h) && |h.mac| > 0 && |h.ip| > 0 && |h.hostname| > 0
    requires i == IndexOf(s, ',', 0) && j == IndexOf(s, ',', i + 1)
    ensures ParseEntry(s) == Some(h)
  {
  }

  lemma ParseLineOf(h: Host)
    requires WellFormed(h)
    ensures ParseEntry(Line(h)) == Some(h)
  {
    LineCommas(h);
    LineFields(h);
    ParseEntryAt(Line(h), |h.mac|, |h.mac| + 1 + |h.ip|, h);
  }

  lemma LineReads(h: Host)
    requires WellFormed(h)
    ensures ReadLine(Line(h)) == Entry(h) && NoLineBreak(Line(h))
  {
    var s := Line(h);
    assert s[0] == h.mac[0] && s[|s| - 1] == h.hostname[|h.hostname| - 1];
    assert Strip(s) == s;
    ParseLineOf(h);
  }

  lemma ParseFirst(h: Host, text: string)
    requires WellFormed(h)
    ensures Parse(Line(h) + "\n" + text) == Consider(Entry(h), Parse(text))
  {
    LineReads(h);
    SplitFirstLine(Line(h), text);
    assert ([Line(h)] + SplitLines(text))[1..] == SplitLines(text);
  }

  ghost predicate AllWellFormed(hosts: seq<Host>) {
    forall i :: 0 <= i < |hosts| ==> WellFormed(hosts[i])
  }

  /** Reading the file back gives the hosts it was rendered from, in the same order. */
  lemma {:induction false} ParseUndoesRender(hosts: seq<Host>)
    requires AllWellFormed(hosts)
    ensures Parse(Render(hosts)) == Some(hosts)
  {
    if |hosts| > 0 {
      ParseUndoesRender(hosts[1..]);
      ParseFirst(hosts[0], Render(hosts[1..]));
      assert hosts == [hosts[0]] + hosts[1..];
    }
  }

  // Conversely, whatever the parser accepts is well formed.

  lemma {:induction false} StripLeftShape(s: string)
    requires NoLineBreak(s)
    ensures NoLineBreak(StripLeft(s)) && (|StripLeft(s)| > 0 ==> !IsSpace(StripLeft(s)[0]))
  {
    if |s| > 0 && IsSpace(s[0]) {
      StripLeftShape(s[1..]);
    }
  }

  lemma {:induction false} StripRightShape(s: string)
    requires NoLineBreak(s)
    ensures var r := StripRight(s);
            NoLineBreak(r) && r <= s && (|r| > 0 ==> !IsSpace(r[|r| - 1]))
  {
    if |s| > 0 && IsSpace(s[|s| - 1]) {
      StripRightShape(s[..|s| - 1]);
    }
  }

  lemma EntryIsWellFormed(s: string)
    requires NoLineBreak(s) && |s| > 0 && !IsSpace(s[0]) && s[0] != '#' && !IsSpace(s[|s| - 1])
    ensures ParseEntry(s).Some? ==> WellFormed(ParseEntry(s).value)
  {
  }

  lemma ReadIsWellFormed(line: string)
    requires NoLineBreak(line)
    ensures ReadLine(line).Entry? ==> WellFormed(ReadLine(line).host)
  {
    StripLeftShape(line);
    StripRightShape(StripLeft(line));
    if |Strip(line)| > 0 && Strip(line)[0] != '#' {
      EntryIsWellFormed(Strip(line));
    }
  }

  lemma {:induction false} LinesHaveNoBreak(s: string)
    ensures forall i :: 0 <= i < |SplitLines(s)| ==> NoLineBreak(SplitLines(s)[i])
    decreases |s|
  {
    if |s| > 0 {
      var k := FirstBreak(s, 0);
      if k < |s| {
        LinesHaveNoBreak(s[k + 1..]);
        if k + 1 < |s| {
          LinesHaveNoBreak(s[k + 2..]);
        }
      }
    }
  }

  lemma {:induction false} ParsedIsWellFormed(lines: seq<string>)
    requires forall i :: 0 <= i < |lines| ==> NoLineBreak(lines[i])
    ensures ParseLines(lines).Some? ==> AllWellFormed(ParseLines(lines).value)
  {
    if |lines| > 0 {
      ParsedIsWellFormed(lines[1..]);
      ReadIsWellFormed(lines[0]);
    }
  }

  /** The file gives back the hosts it was rendered from exactly when they are all well formed. */
  lemma RoundTripExactly(hosts: seq<Host>)
    ensures Parse(Render(hosts)) == Some(hosts) <==> AllWellFormed(hosts)
  {
    if AllWellFormed(hosts) {
      ParseUndoesRender(hosts);
    }
    LinesHaveNoBreak(Render(hosts));
    ParsedIsWellFormed(SplitLines(Render(hosts)));
  }

  // ---------------------------------------------------------------------------
  // What each line of a file means

  /** Nothing but spaces before position `k`, which is the end of the line or a `#`. */
  predicate NoText(line: string, k: nat) {
    k <= |line| && (forall j :: 0 <= j < k ==> IsSpace(line[j])) && (k == |line| || line[k] == '#')
  }

  ghost predicate BlankOrComment(line: string) {
    exists k :: NoText(line, k)
  }

  /** Where the text of a line starts. */
  lemma {:induction false} StripLeftAt(s: string) returns (k: nat)
    ensures k <= |s| && StripLeft(s) == s[k..] && forall j :: 0 <= j < k ==> IsSpace(s[j])
    ensures k < |s| ==> !IsSpace(s[k])
  {
    if |s| > 0 && IsSpace(s[0]) {
      k := StripLeftAt(s[1..]);
      forall j | 0 <= j < k + 1
        ensures IsSpace(s[j])
      {
        assert j > 0 ==> s[j] == s[1..][j - 1];
      }
      k := k + 1;
    } else {
      k := 0;
    }
  }

  lemma {:induction false} StripRightKeepsFirst(s: string)
    requires |s| > 0 && !IsSpace(s[0])
    ensures |StripRight(s)| > 0 && StripRight(s)[0] == s[0]
  {
    if IsSpace(s[|s| - 1]) {
      StripRightKeepsFirst(s[..|s| - 1]);
    }
  }

  /** A line is skipped exactly when it is blank or a comment. */
  lemma IgnoredExactly(line: string)
    ensures ReadLine(line) == Ignored <==> BlankOrComment(line)
  {
    var k := StripLeftAt(line);
    if k < |line| {
      StripRightKeepsFirst(line[k..]);
      if i: nat :| NoText(line, i) {
        assert i == k;
      }
      assert line[k] == '#' ==> NoText(line, k);
    } else {
      assert NoText(line, k);
    }
  }

  /** A line holds an entry exactly when, without the spaces around it, it is that entry as it is rendered. */
  lemma EntryExactly(line: string, h: Host)
    requires NoLineBreak(line)
    ensures ReadLine(line) == Entry(h) <==> WellFormed(h) && Strip(line) == Line(h)
  {
    if WellFormed(h) && Strip(line) == Line(h) {
      ParseLineOf(h);
      assert Line(h)[0] == h.mac[0];
    }
    if ReadLine(line) == Entry(h) {
      ReadIsWellFormed(line);
      EntryIsLine(Strip(line), h);
    }
  }

  lemma EntryIsLine(s: string, h: Host)
    requires ParseEntry(s) == Some(h)
    ensures s == Line(h)
  {
    var i := IndexOf(s, ',', 0);
    var j := IndexOf(s, ',', i + 1);
    assert s == s[..i] + "," + s[i + 1..j] + "," + SET + s[j + 1 + |SET|..];
  }

  /**
   So a file is read line by line: blank lines and comments do not matter, an entry counts, and any other
   line makes the file malformed.
   */
  lemma ReadsLineByLine(line: string, rest: string)
    requires NoLineBreak(line)
    ensures Parse(line + "\n" + rest) ==
              if BlankOrComment(line) then Parse(rest)
              else if exists h :: WellFormed(h) && Strip(line) == Line(h) then Consider(ReadLine(line), Parse(rest))
              else None
  {
    SplitFirstLine(line, rest);
    assert ([line] + SplitLines(rest))[1..] == SplitLines(rest);
    IgnoredExactly(line);
    if ReadLine(line).Entry? {
      EntryExactly(line, ReadLine(line).host);
    }
    if h :| WellFormed(h) && Strip(line) == Line(h) {
      EntryExactly(line, h);
    }
  }

  // ---------------------------------------------------------------------------
  // Sorting by MAC

  /** Python's order on strings. */
  predicate Less(a: string, b: string) {
    |b| > 0 && (|a| == 0 || a[0] < b[0] || (a[0] == b[0] && Less(a[1..], b[1..])))
  }

  lemma {:induction false} LessTotal(a: string, b: string)
    ensures !(Less(a, b) && Less(b, a)) && (Less(a, b) || Less(b, a) <==> a != b)
  {
    if |a| > 0 && |b| > 0 && a[0] == b[0] {
      LessTotal(a[1..], b[1..]);
      assert a == [a[0]] + a[1..] && b == [b[0]] + b[1..];
    }
  }

  lemma {:induction false} LessTransitive(a: string, b: string, c: string)
    requires Less(a, b) && Less(b, c)
    ensures Less(a, c)
  {
    if |a| > 0 && a[0] == b[0] == c[0] {
      LessTransitive(a[1..], b[1..], c[1..]);
    }
  }

  /** Strictly sorted, hence one entry per MAC. */
  ghost predicate Sorted(hosts: seq<Host>) {
    forall i, j :: 0 <= i < j < |hosts| ==> Less(hosts[i].mac, hosts[j].mac)
  }

  /** Inserts after the entries with the same MAC, as a stable sort does. */
  function Insert(h: Host, hosts: seq<Host>): seq<Host> {
    if |hosts| == 0 then [h]
    else if !Less(h.mac, hosts[|hosts| - 1].mac) then hosts + [h]
    else Insert(h, hosts[..|hosts| - 1]) + [hosts[|hosts| - 1]]
  }

  /** `sorted(hosts, key=lambda m: m[0])`. */
  function Sort(hosts: seq<Host>): seq<Host> {
    if |hosts| == 0 then [] else Insert(hosts[|hosts| - 1], Sort(hosts[..|hosts| - 1]))
  }

  function Without(hosts: seq<Host>, mac: string): seq<Host> {
    if |hosts| == 0 then []
    else if hosts[|hosts| - 1].mac == mac then Without(hosts[..|hosts| - 1], mac)
    else Without(hosts[..|hosts| - 1], mac) + [hosts[|hosts| - 1]]
  }

  function Lookup(hosts: seq<Host>, mac: string): Option<Host> {
    if |hosts| == 0 then None
    else if hosts[|hosts| - 1].mac == mac then Some(hosts[|hosts| - 1])
    else Lookup(hosts[..|hosts| - 1], mac)
  }

  /** The new file, or nothing when the MAC or the old file is refused. */
  function AddStatic(text: string, spelling: string, ip: string, hostname: string): Option<string> {
    var mac, hosts := Canonical(spelling), Parse(text);
    if mac.None? || hosts.None? then None
    else Some(Render(Sort(Without(hosts.value, mac.value) + [Host(mac.value, ip, hostname)])))
  }

  class Dnsmasq {
    var hostsFile: string

    constructor ()
      ensures hostsFile == ""
    {
      hostsFile := "";
    }

    method AddStaticAddress(spelling: string, ip: string, hostname: string) returns (raised: bool)
      modifies this
      ensures raised <==> AddStatic(old(hostsFile), spelling, ip, hostname).None?
      ensures hostsFile == if raised then old(hostsFile) else AddStatic(old(hostsFile), spelling, ip, hostname).value
    {
      var mac := Canonical(spelling);
      if mac.None? {
        return true;
      }
      var machines := ParseDhcpHosts(hostsFile);
      if machines.None? {
        return true;
      }
      var others: seq<Host> := [];
      for i := 0 to |machines.value|
        invariant others == Without(machines.value[..i], mac.value) && hostsFile == old(hostsFile)
      {
        assert machines.value[..i + 1][..i] == machines.value[..i];
        if machines.value[i].mac != mac.value {
          others := others + [machines.value[i]];
        }
      }
      assert machines.value[..|machines.value|] == machines.value;
      hostsFile := Render(Sort(others + [Host(mac.value, ip, hostname)]));
      raised := false;
    }
  }

  // ---------------------------------------------------------------------------
  // The file is a map from MACs to hosts

  lemma {:induction false} SortOfSorted(hosts: seq<Host>)
    requires Sorted(hosts)
    ensures Sort(hosts) == hosts
  {
    if |hosts| > 0 {
      var front, last := hosts[..|hosts| - 1], hosts[|hosts| - 1];
      SortOfSorted(front);
      if |front| > 0 {
        LessTotal(last.mac, front[|front| - 1].mac);
      }
      assert hosts == front + [last];
    }
  }

  ghost predicate AllBefore(hosts: seq<Host>, mac: string) {
    forall k :: 0 <= k < |hosts| ==> Less(hosts[k].mac, mac)
  }

  ghost predicate Lacks(hosts: seq<Host>, mac: string) {
    forall k :: 0 <= k < |hosts| ==> hosts[k].mac != mac
  }

  lemma BeforeLater(hosts: seq<Host>, a: string, b: string)
    requires AllBefore(hosts, a) && Less(a, b)
    ensures AllBefore(hosts, b)
  {
    forall k | 0 <= k < |hosts|
      ensures Less(hosts[k].mac, b)
    {
      LessTransitive(hosts[k].mac, a, b);
    }
  }

  lemma SnocKeeps(hosts: seq<Host>, h: Host, bound: string)
    requires Sorted(hosts) && AllWellFormed(hosts) && AllBefore(hosts, h.mac)
    requires WellFormed(h) && Less(h.mac, bound)
    ensures Sorted(hosts + [h]) && AllWellFormed(hosts + [h]) && AllBefore(hosts + [h], bound)
  {
    BeforeLater(hosts, h.mac, bound);
  }

  lemma {:induction false} WithoutKeeps(hosts: seq<Host>, mac: string, bound: string)
    requires Sorted(hosts) && AllWellFormed(hosts) && AllBefore(hosts, bound)
    ensures var w := Without(hosts, mac); AllWellFormed(w) && Sorted(w) && AllBefore(w, bound)
  {
    if |hosts| > 0 {
      var front, last := hosts[..|hosts| - 1], hosts[|hosts| - 1];
      WithoutKeeps(front, mac, last.mac);
      if last.mac == mac {
        BeforeLater(Without(front, mac), last.mac, bound);
      } else {
        SnocKeeps(Without(front, mac), last, bound);
      }
    }
  }

  lemma {:induction false} WithoutLacks(hosts: seq<Host>, mac: string)
    ensures Lacks(Without(hosts, mac), mac)
  {
    if |hosts| > 0 {
      WithoutLacks(hosts[..|hosts| - 1], mac);
    }
  }

  lemma AfterLast(hosts: seq<Host>, mac: string)
    requires |hosts| > 0 && Sorted(hosts) && Less(hosts[|hosts| - 1].mac, mac)
    ensures AllBefore(hosts, mac)
  {
    var last := hosts[|hosts| - 1].mac;
    forall k | 0 <= k < |hosts| - 1
      ensures Less(hosts[k].mac, mac)
    {
      LessTransitive(hosts[k].mac, last, mac);
    }
  }

  lemma {:induction false} InsertKeeps(h: Host, hosts: seq<Host>, bound: string)
    requires Sorted(hosts) && AllWellFormed(hosts) && AllBefore(hosts, bound)
    requires WellFormed(h) && Lacks(hosts, h.mac) && Less(h.mac, bound)
    ensures var r := Insert(h, hosts); AllWellFormed(r) && Sorted(r) && AllBefore(r, bound)
  {
    if |hosts| > 0 {
      var front, last := hosts[..|hosts| - 1], hosts[|hosts| - 1];
      LessTotal(h.mac, last.mac);
      if Less(h.mac, last.mac) {
        InsertKeeps(h, front, last.mac);
        SnocKeeps(Insert(h, front), last, bound);
      } else {
        AfterLast(hosts, h.mac);
        SnocKeeps(hosts, h, bound);
      }
    } else {
      assert [h] == hosts + [h];
      SnocKeeps(hosts, h, bound);
    }
  }

  lemma {:induction false} LookupWithout(hosts: seq<Host>, mac: string, x: string)
    ensures Lookup(Without(hosts, mac), x) == if x == mac then None else Lookup(hosts, x)
  {
    if |hosts| > 0 {
      var front, last := hosts[..|hosts| - 1], hosts[|hosts| - 1];
      LookupWithout(front, mac, x);
      LookupSnoc(Without(front, mac), last, x);
    }
  }

  lemma LookupSnoc(hosts: seq<Host>, h: Host, x: string)
    ensures Lookup(hosts + [h], x) == if h.mac == x then Some(h) else Lookup(hosts, x)
  {
    assert (hosts + [h])[..|hosts|] == hosts;
  }

  lemma {:induction false} LookupInsert(h: Host, hosts: seq<Host>, x: string)
    requires Lacks(hosts, h.mac)
    ensures Lookup(Insert(h, hosts), x) == if x == h.mac then Some(h) else Lookup(hosts, x)
  {
    if |hosts| == 0 {
      LookupSnoc([], h, x);
      assert [] + [h] == [h];
    } else {
      var front, last := hosts[..|hosts| - 1], hosts[|hosts| - 1];
      if Less(h.mac, last.mac) {
        LookupInsert(h, front, x);
        LookupSnoc(Insert(h, front), last, x);
      } else {
        LookupSnoc(hosts, h, x);
      }
    }
  }

  /** The address and the name of one `add_static_address` call. */
  datatype Lease = Lease(spelling: string, ip: string, hostname: string)

  /** A call whose MAC is a plain address and whose other fields survive the file. */
  ghost predicate Proper(l: Lease) {
    && IsMac(Lower(l.spelling))
    && NoLineBreak(l.ip) && |l.ip| > 0 && ',' !in l.ip
    && NoLineBreak(l.hostname) && |l.hostname| > 0 && !IsSpace(l.hostname[|l.hostname| - 1])
  }

  function HostOf(l: Lease): Host
    requires IsMac(Lower(l.spelling))
  {
    PlainForm(l.spelling);
    Host(Canonical(l.spelling).value, l.ip, l.hostname)
  }

  lemma ProperHost(l: Lease)
    requires Proper(l)
    ensures WellFormed(HostOf(l)) && Delimited(HostOf(l).mac, ':') && Less(HostOf(l).mac, "g")
  {
    PlainForm(l.spelling);
    CanonicalIsMac(HostOf(l).mac, Lower(l.spelling));
    var c := HostOf(l).mac;
    assert forall i :: 0 <= i < 17 ==> IsHex(c[i]) || c[i] == ':';
  }

  /** The file holds exactly these hosts, one line each in the order of their MACs. */
  ghost predicate Holds(text: string, hosts: seq<Host>) {
    Parse(text) == Some(hosts) && Sorted(hosts) && AllWellFormed(hosts) && AllBefore(hosts, "g")
  }

  /** One call: the address gets its new entry, the others keep theirs. */
  lemma AddKeepsMap(text: string, hosts: seq<Host>, l: Lease) returns (after: seq<Host>)
    requires Holds(text, hosts) && Proper(l)
    ensures var next := AddStatic(text, l.spelling, l.ip, l.hostname); next.Some? && Holds(next.value, after)
    ensures forall x :: Lookup(after, x) == if x == HostOf(l).mac then Some(HostOf(l)) else Lookup(hosts, x)
  {
    var h := HostOf(l);
    ProperHost(l);
    after := Insert(h, Without(hosts, h.mac));
    InsertedHolds(hosts, h);
    PlainForm(l.spelling);
    AddRenders(text, hosts, l.spelling, l.ip, l.hostname);
    ParseUndoesRender(after);
    forall x
      ensures Lookup(after, x) == if x == h.mac then Some(h) else Lookup(hosts, x)
    {
      InsertedLookup(hosts, h, x);
    }
  }

  lemma SortAdded(hosts: seq<Host>, h: Host)
    requires Sorted(hosts)
    ensures Sort(hosts + [h]) == Insert(h, hosts)
  {
    assert (hosts + [h])[..|hosts|] == hosts;
    SortOfSorted(hosts);
  }

  /** The file that an accepted call leaves. */
  lemma AddRenders(text: string, hosts: seq<Host>, spelling: string, ip: string, hostname: string)
    requires Holds(text, hosts) && Canonical(spelling).Some?
    ensures var h := Host(Canonical(spelling).value, ip, hostname);
            AddStatic(text, spelling, ip, hostname) == Some(Render(Insert(h, Without(hosts, h.mac))))
  {
    var h := Host(Canonical(spelling).value, ip, hostname);
    WithoutKeeps(hosts, h.mac, "g");
    SortAdded(Without(hosts, h.mac), h);
  }

  lemma InsertedHolds(hosts: seq<Host>, h: Host)
    requires Sorted(hosts) && AllWellFormed(hosts) && AllBefore(hosts, "g") && WellFormed(h) && Less(h.mac, "g")
    ensures var after := Insert(h, Without(hosts, h.mac));
            Sorted(after) && AllWellFormed(after) && AllBefore(after, "g")
  {
    WithoutKeeps(hosts, h.mac, "g");
    WithoutLacks(hosts, h.mac);
    InsertKeeps(h, Without(hosts, h.mac), "g");
  }

  lemma InsertedLookup(hosts: seq<Host>, h: Host, x: string)
    ensures Lookup(Insert(h, Without(hosts, h.mac)), x) == if x == h.mac then Some(h) else Lookup(hosts, x)
  {
    WithoutLacks(hosts, h.mac);
    LookupInsert(h, Without(hosts, h.mac), x);
    LookupWithout(hosts, h.mac, x);
  }

  /** The hosts file after a list of calls on a fresh one; a call that raises leaves the file alone. */
  function File(calls: seq<Lease>): string {
    if |calls| == 0 then ""
    else
      var before, l := File(calls[..|calls| - 1]), calls[|calls| - 1];
      var after := AddStatic(before, l.spelling, l.ip, l.hostname);
      if after.None? then before else after.value
  }

  /** The latest call for an address, whatever its spelling. */
  function LastWrite(calls: seq<Lease>, mac: string): Option<Host> {
    if |calls| == 0 then None
    else
      var l := calls[|calls| - 1];
      if IsMac(Lower(l.spelling)) && HostOf(l).mac == mac then Some(HostOf(l))
      else LastWrite(calls[..|calls| - 1], mac)
  }

  /** A proper call, or one that is refused for its MAC. */
  ghost predicate Harmless(l: Lease) {
    Proper(l) || !Accepted(Lower(l.spelling))
  }

  /**
   After any list of calls the file reads back as a list sorted by MAC, with one entry per address,
   which agrees with the last-write-wins map from canonical MACs to hosts.
   */
  lemma {:induction false} FileIsLastWriteMap(calls: seq<Lease>) returns (hosts: seq<Host>)
    requires forall i :: 0 <= i < |calls| ==> Harmless(calls[i])
    ensures Holds(File(calls), hosts)
    ensures forall x :: Lookup(hosts, x) == LastWrite(calls, x)
  {
    if |calls| == 0 {
      hosts := [];
    } else {
      var front, l := calls[..|calls| - 1], calls[|calls| - 1];
      hosts := FileIsLastWriteMap(front);
      if Proper(l) {
        hosts := AddKeepsMap(File(front), hosts, l);
      }
    }
  }

  // ---------------------------------------------------------------------------
  // When a call spoils the file

  lemma {:induction false} LookupFinds(hosts: seq<Host>, mac: string) returns (i: nat)
    requires Lookup(hosts, mac).Some?
    ensures i < |hosts| && hosts[i] == Lookup(hosts, mac).value
  {
    if hosts[|hosts| - 1].mac == mac {
      i := |hosts| - 1;
    } else {
      i := LookupFinds(hosts[..|hosts| - 1], mac);
    }
  }

  lemma WellFormedIsProper(l: Lease)
    requires Accepted(Lower(l.spelling)) && Canonical(l.spelling).Some?
    requires WellFormed(Host(Canonical(l.spelling).value, l.ip, l.hostname))
    ensures Proper(l)
  {
    var s := l.spelling;
    if !IsMac(Lower(s)) {
      var body := s[..|s| - 1];
      assert s == body + "\n" && Lower(body) == Lower(s)[..|s| - 1];
      NewlineLine(body);
    }
  }

  /**
   When exactly a call does what it is for: an accepted call, on a file in order, leaves a file that
   reads back and gives its entry for its address if and only if the call is proper.
   */
  lemma AddExactly(text: string, hosts: seq<Host>, l: Lease)
    requires Holds(text, hosts) && Accepted(Lower(l.spelling))
    ensures Canonical(l.spelling).Some?
    ensures var mac, next := Canonical(l.spelling).value, AddStatic(text, l.spelling, l.ip, l.hostname);
            && next.Some?
            && (Proper(l) <==> && Parse(next.value).Some?
                               && Lookup(Parse(next.value).value, mac) == Some(Host(mac, l.ip, l.hostname)))
  {
    var mac := Canonical(l.spelling).value;
    var next := AddStatic(text, l.spelling, l.ip, l.hostname).value;
    if Proper(l) {
      var _ := AddKeepsMap(text, hosts, l);
    }
    LinesHaveNoBreak(next);
    ParsedIsWellFormed(SplitLines(next));
    if Parse(next).Some? && Lookup(Parse(next).value, mac) == Some(Host(mac, l.ip, l.hostname)) {
      var _ := LookupFinds(Parse(next).value, mac);
      WellFormedIsProper(l);
    }
  }

  /** A first line without a comma that is neither blank nor a comment makes the file unreadable. */
  lemma NoCommaNoFile(line: string, rest: string)
    requires NoLineBreak(line) && ',' !in line && |line| > 0 && line[0] != '#'
    requires !IsSpace(line[0]) && !IsSpace(line[|line| - 1])
    ensures Parse(line + "\n" + rest) == None
  {
    assert Strip(line) == line;
    assert IndexOf(line, ',', 0) == |line|;
    SplitFirstLine(line, rest);
  }

  /** No file that goes on with this line can be read. */
  ghost predicate Unreadable(line: string) {
    forall tail :: Parse(line + "\n" + tail) == None
  }

  /** One unreadable line makes the file unreadable, whatever proper lines precede it. */
  lemma {:induction false} RuinedAnywhere(hosts: seq<Host>, h: Host, rest: seq<Host>)
    requires AllWellFormed(hosts) && Unreadable(Line(h))
    ensures Parse(Render(hosts + [h] + rest)) == None
  {
    var all := hosts + [h] + rest;
    RenderFirst(all);
    if |hosts| == 0 {
      assert all[0] == h;
      assert Parse(Line(h) + "\n" + Render(all[1..])) == None;
    } else {
      RuinedAnywhere(hosts[1..], h, rest);
      TailOf(hosts, h, rest);
      ParseFirst(hosts[0], Render(hosts[1..] + [h] + rest));
    }
  }

  lemma TailOf(hosts: seq<Host>, h: Host, rest: seq<Host>)
    requires |hosts| > 0
    ensures (hosts + [h] + rest)[0] == hosts[0] && (hosts + [h] + rest)[1..] == hosts[1..] + [h] + rest
  {
  }

  lemma RenderFirst(hosts: seq<Host>)
    requires |hosts| > 0
    ensures Render(hosts) == Line(hosts[0]) + "\n" + Render(hosts[1..])
  {
  }

  lemma {:induction false} InsertSplits(h: Host, hosts: seq<Host>) returns (k: nat)
    ensures k <= |hosts| && Insert(h, hosts) == hosts[..k] + [h] + hosts[k..]
  {
    if |hosts| == 0 || !Less(h.mac, hosts[|hosts| - 1].mac) {
      k := |hosts|;
    } else {
      k := InsertSplits(h, hosts[..|hosts| - 1]);
    }
  }

  lemma {:induction false} WithoutAbsent(hosts: seq<Host>, mac: string)
    requires Lacks(hosts, mac)
    ensures Without(hosts, mac) == hosts
  {
    if |hosts| > 0 {
      WithoutAbsent(hosts[..|hosts| - 1], mac);
      LastOf(hosts);
    }
  }

  lemma NewlineLineUnreadable(body: string, ip: string, hostname: string, tail: string)
    requires IsMac(Lower(body)) && Canonical(body + "\n").Some?
    ensures Parse(Line(Host(Canonical(body + "\n").value, ip, hostname)) + "\n" + tail) == None
  {
    NewlineLine(body);
    var c := Canonical(body + "\n").value;
    var first, rest := c[..|c| - 1], "," + ip + "," + SET + hostname + "\n";
    LineCut(first, ip, hostname);
    assert c == first + "\n";
    Associative(first + "\n", rest, tail);
    NoCommaNoFile(first, rest + tail);
  }

  /** What such a call leaves of a file in order: its entry among the others. */
  lemma NewlineEntry(text: string, hosts: seq<Host>, body: string, ip: string, hostname: string) returns (k: nat)
    requires Holds(text, hosts) && IsMac(Lower(body)) && Canonical(body + "\n").Some?
    ensures k <= |hosts|
    ensures var h := Host(Canonical(body + "\n").value, ip, hostname);
            AddStatic(text, body + "\n", ip, hostname) == Some(Render(hosts[..k] + [h] + hosts[k..]))
  {
    NewlineLine(body);
    var h := Host(Canonical(body + "\n").value, ip, hostname);
    assert forall i :: 0 <= i < |hosts| ==> WellFormed(hosts[i]) && NoLineBreak(hosts[i].mac);
    WithoutAbsent(hosts, h.mac);
    AddRenders(text, hosts, body + "\n", ip, hostname);
    k := InsertSplits(h, hosts);
  }

  /**
   A single call with such a MAC, on any file in order, succeeds and ruins the file: it no longer parses,
   so every later call is refused.
   */
  lemma NewlineMacRuinsFile(text: string, hosts: seq<Host>, body: string, ip: string, hostname: string)
    requires Holds(text, hosts) && IsMac(Lower(body))
    ensures var next := AddStatic(text, body + "\n", ip, hostname);
            && next.Some? && Parse(next.value) == None
            && forall l: Lease :: AddStatic(next.value, l.spelling, l.ip, l.hostname) == None
  {
    NewlineLine(body);
    var h := Host(Canonical(body + "\n").value, ip, hostname);
    var k := NewlineEntry(text, hosts, body, ip, hostname);
    forall tail
      ensures Parse(Line(h) + "\n" + tail) == None
    {
      NewlineLineUnreadable(body, ip, hostname, tail);
    }
    RuinedAnywhere(hosts[..k], h, hosts[k..]);
  }

  lemma LineCut(first: string, ip: string, hostname: string)
    ensures Line(Host(first + "\n", ip, hostname)) + "\n" == first + "\n" + ("," + ip + "," + SET + hostname + "\n")
  {
  }

  lemma NewlineLine(body: string)
    requires IsMac(Lower(body))
    ensures Canonical(body + "\n").Some?
    ensures var c := Canonical(body + "\n").value;
            && |c| >= 18 && c[|c| - 1] == '\n'
            && forall i :: 0 <= i < |c| - 1 ==> IsHex(c[i]) || c[i] == ':'
  {
    PlainForm(body);
    NewlineIsKept(body);
    CanonicalIsMac(Canonical(body).value, Lower(body));
  }
}
