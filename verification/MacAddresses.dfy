/** MAC addresses as `split_mac_addr` (boots.py) reads them, in any accepted spelling. */
module MacAddresses {
  import opened Common

  predicate IsHex(c: char) {
    '0' <= c <= '9' || 'a' <= c <= 'f'
  }

  function LowerChar(c: char): char {
    if 'A' <= c <= 'Z' then (c as int + 32) as char else c
  }

  function Lower(s: string): (r: string)
    ensures |r| == |s| && forall i :: 0 <= i < |s| ==> r[i] == LowerChar(s[i])
  {
    seq(|s|, i requires 0 <= i < |s| => LowerChar(s[i]))
  }

  predicate Plain(s: string) {
    |s| == 12 && forall i :: 0 <= i < 12 ==> IsHex(s[i])
  }

  predicate Delimited(s: string, d: char) {
    |s| == 17 && forall i :: 0 <= i < 17 ==> if i % 3 == 2 then s[i] == d else IsHex(s[i])
  }

  predicate IsMac(s: string) {
    Plain(s) || Delimited(s, ':') || Delimited(s, '-')
  }

  /** What the regular expression accepts: `$` also matches before a newline that ends the string. */
  predicate Accepted(s: string) {
    IsMac(s) || (|s| > 0 && s[|s| - 1] == '\n' && IsMac(s[..|s| - 1]))
  }

  /** The text between delimiters; whatever follows the last digit is kept. */
  function Groups(s: string): (r: seq<string>)
    requires |s| >= 17
    ensures |r| == 6 && r[5] == s[15..] && forall k :: 0 <= k < 5 ==> r[k] == s[3 * k..3 * k + 2]
  {
    seq(6, k requires 0 <= k < 6 => if k < 5 then s[3 * k..3 * k + 2] else s[15..])
  }

  /** Two characters at a time; the last part may be shorter. */
  function Pairs(s: string): (r: seq<string>)
    ensures |r| == (|s| + 1) / 2
    ensures forall k :: 0 <= k < |r| ==> r[k] == s[2 * k..if 2 * k + 2 <= |s| then 2 * k + 2 else |s|]
  {
    seq((|s| + 1) / 2, k requires 0 <= k < (|s| + 1) / 2 => s[2 * k..if 2 * k + 2 <= |s| then 2 * k + 2 else |s|])
  }

  /** `split_mac_addr`, nothing standing for the exception. */
  function SplitMac(spelling: string): Option<seq<string>> {
    var s := Lower(spelling);
    if !Accepted(s) then None else if |s| >= 17 then Some(Groups(s)) else Some(Pairs(s))
  }

  /** `':'.join(parts)`. */
  function Join(parts: seq<string>): string {
    if |parts| == 0 then ""
    else if |parts| == 1 then parts[0]
    else Join(parts[..|parts| - 1]) + ":" + parts[|parts| - 1]
  }

  function Canonical(spelling: string): Option<string> {
    var parts := SplitMac(spelling);
    if parts.None? then None else Some(Join(parts.value))
  }

  /** Digit `r` of octet `k`, however the address is delimited. */
  function Nibble(s: string, k: nat, r: nat): char
    requires IsMac(s) && k < 6 && r < 2
  {
    if |s| == 12 then s[2 * k + r] else s[3 * k + r]
  }

  predicate SameOctet(s: string, t: string, k: nat)
    requires IsMac(s) && IsMac(t) && k < 6
  {
    Nibble(s, k, 0) == Nibble(t, k, 0) && Nibble(s, k, 1) == Nibble(t, k, 1)
  }

  /** The two spellings denote the same address. */
  ghost predicate SameAddress(s: string, t: string)
    requires IsMac(s) && IsMac(t)
  {
    forall k :: 0 <= k < 6 ==> SameOctet(s, t, k)
  }

  ghost predicate ArePairs(p: seq<string>) {
    forall k :: 0 <= k < |p| ==> |p[k]| == 2
  }

  lemma {:induction false} JoinPairs(p: seq<string>, i: nat)
    requires ArePairs(p) && |p| > 0 && i < 3 * |p| - 1
    ensures |Join(p)| == 3 * |p| - 1
    ensures Join(p)[i] == if i % 3 == 2 then ':' else p[i / 3][i % 3]
  {
    if |p| > 1 {
      var front := p[..|p| - 1];
      JoinPairs(front, if i < 3 * |front| - 1 then i else 0);
    }
  }

  predicate OctetIn(c: string, s: string, k: nat)
    requires |c| == 17 && IsMac(s) && k < 6
  {
    c[3 * k] == Nibble(s, k, 0) && c[3 * k + 1] == Nibble(s, k, 1) && (k < 5 ==> c[3 * k + 2] == ':')
  }

  /** Octets in lower case between colons. */
  ghost predicate IsCanonicalFor(c: string, s: string)
    requires IsMac(s)
  {
    |c| == 17 && forall k :: 0 <= k < 6 ==> OctetIn(c, s, k)
  }

  predicate OctetPart(parts: seq<string>, s: string, k: nat)
    requires |parts| == 6 && IsMac(s) && k < 6
  {
    |parts[k]| == 2 && parts[k][0] == Nibble(s, k, 0) && parts[k][1] == Nibble(s, k, 1)
  }

  lemma PartsAreOctets(spelling: string)
    requires IsMac(Lower(spelling))
    ensures SplitMac(spelling).Some? && |SplitMac(spelling).value| == 6
    ensures forall k :: 0 <= k < 6 ==> OctetPart(SplitMac(spelling).value, Lower(spelling), k)
  {
  }

  lemma JoinOctets(parts: seq<string>, s: string)
    requires |parts| == 6 && IsMac(s) && forall k :: 0 <= k < 6 ==> OctetPart(parts, s, k)
    ensures IsCanonicalFor(Join(parts), s)
  {
    forall k | 0 <= k < 6
      ensures |parts[k]| == 2
    {
      assert OctetPart(parts, s, k);
    }
    JoinPairs(parts, 0);
    forall k | 0 <= k < 6
      ensures OctetIn(Join(parts), s, k)
    {
      assert OctetPart(parts, s, k);
      JoinPairs(parts, 3 * k);
      JoinPairs(parts, 3 * k + 1);
      if k < 5 {
        JoinPairs(parts, 3 * k + 2);
      }
    }
  }

  /** The characters are equal, or the same letter in the other case. */
  predicate SameLetter(c: char, d: char) {
    c == d || ('A' <= c <= 'Z' && d as int == c as int + 32) || ('A' <= d <= 'Z' && c as int == d as int + 32)
  }

  /** Upper and lower case make no difference. */
  lemma CaseDoesNotMatter(s: string, t: string)
    requires |s| == |t| && forall i :: 0 <= i < |s| ==> SameLetter(s[i], t[i])
    ensures SplitMac(s) == SplitMac(t)
  {
    assert Lower(s) == Lower(t);
  }

  lemma PlainForm(spelling: string)
    requires IsMac(Lower(spelling))
    ensures Canonical(spelling).Some? && IsCanonicalFor(Canonical(spelling).value, Lower(spelling))
  {
    PartsAreOctets(spelling);
    JoinOctets(SplitMac(spelling).value, Lower(spelling));
  }

  lemma CanonicalIsMac(c: string, s: string)
    requires IsMac(s) && IsCanonicalFor(c, s)
    ensures Delimited(c, ':')
  {
    forall i | 0 <= i < 17
      ensures if i % 3 == 2 then c[i] == ':' else IsHex(c[i])
    {
      assert OctetIn(c, s, i / 3);
    }
  }

  lemma SameForm(c: string, s: string, d: string, t: string)
    requires IsMac(s) && IsMac(t) && IsCanonicalFor(c, s) && IsCanonicalFor(d, t)
    ensures c == d <==> SameAddress(s, t)
  {
    if c == d {
      forall k | 0 <= k < 6
        ensures SameOctet(s, t, k)
      {
        assert OctetIn(c, s, k) && OctetIn(d, t, k);
      }
    }
    if SameAddress(s, t) {
      forall i | 0 <= i < 17
        ensures c[i] == d[i]
      {
        assert OctetIn(c, s, i / 3) && OctetIn(d, t, i / 3) && SameOctet(s, t, i / 3);
      }
    }
  }

  // ---------------------------------------------------------------------------
  // A newline at the end

  lemma JoinSnoc(parts: seq<string>, x: string)
    requires |parts| > 0
    ensures Join(parts + [x]) == Join(parts) + ":" + x
  {
    assert (parts + [x])[..|parts|] == parts;
  }

  lemma GroupsNewline(s: string)
    requires |s| == 17
    ensures Groups(s + "\n") == Groups(s)[..5] + [Groups(s)[5] + "\n"]
  {
    var t := s + "\n";
    forall k | 0 <= k < 5
      ensures Groups(t)[k] == Groups(s)[k]
    {
      assert t[3 * k..3 * k + 2] == s[3 * k..3 * k + 2];
    }
    assert t[15..] == s[15..] + "\n";
  }

  lemma PairsNewline(s: string)
    requires |s| == 12
    ensures Pairs(s + "\n") == Pairs(s) + ["\n"]
  {
    var t := s + "\n";
    forall k | 0 <= k < 6
      ensures Pairs(t)[k] == Pairs(s)[k]
    {
      assert t[2 * k..2 * k + 2] == s[2 * k..2 * k + 2];
    }
    assert t[12..13] == "\n";
  }

  lemma TailNewline(a: string, b: string)
    ensures a + (b + "\n") == (a + b) + "\n"
  {
  }

  lemma JoinNewline(parts: seq<string>, last: string)
    requires |parts| > 0
    ensures Join(parts + [last + "\n"]) == Join(parts + [last]) + "\n"
  {
    JoinSnoc(parts, last + "\n");
    JoinSnoc(parts, last);
    TailNewline(Join(parts) + ":", last);
  }

  lemma SplitNewline(body: string)
    requires IsMac(Lower(body))
    ensures SplitMac(body).Some? && |SplitMac(body).value| == 6
    ensures var parts := SplitMac(body).value;
            SplitMac(body + "\n") == Some(if |body| == 12 then parts + ["\n"] else parts[..5] + [parts[5] + "\n"])
  {
    var s := Lower(body);
    assert Lower(body + "\n") == s + "\n";
    assert (s + "\n")[..|s|] == s;
    if |body| == 12 {
      PairsNewline(s);
    } else {
      GroupsNewline(s);
    }
  }

  /** It is accepted, and its canonical form keeps the newline. */
  lemma NewlineIsKept(body: string)
    requires IsMac(Lower(body))
    ensures Canonical(body).Some?
    ensures Canonical(body + "\n") == Some(Canonical(body).value + (if |body| == 12 then ":\n" else "\n"))
  {
    SplitNewline(body);
    var parts := SplitMac(body).value;
    if |body| == 12 {
      JoinSnoc(parts, "\n");
      assert Join(parts) + ":" + "\n" == Join(parts) + ":\n";
    } else {
      JoinNewline(parts[..5], parts[5]);
      assert parts == parts[..5] + [parts[5]];
    }
  }

  /** An accepted spelling without a newline at its end. */
  function Body(spelling: string): string {
    if |spelling| > 0 && spelling[|spelling| - 1] == '\n' then spelling[..|spelling| - 1] else spelling
  }

  /** What the newline at the end of an accepted spelling becomes. */
  function Tail(spelling: string): string {
    if Body(spelling) == spelling then "" else if |Body(spelling)| == 12 then ":\n" else "\n"
  }

  lemma AcceptedBody(spelling: string)
    requires Accepted(Lower(spelling))
    ensures IsMac(Lower(Body(spelling)))
    ensures spelling == Body(spelling) || spelling == Body(spelling) + "\n"
  {
    var s := Lower(spelling);
    assert s[|s| - 1] == '\n' <==> spelling[|spelling| - 1] == '\n';
    assert Lower(spelling[..|s| - 1]) == s[..|s| - 1];
  }

  /** Every accepted spelling becomes its octets in lower case between colons, and what its newline becomes. */
  lemma CanonicalForm(spelling: string)
    requires Accepted(Lower(spelling))
    ensures Canonical(spelling).Some? && IsMac(Lower(Body(spelling)))
    ensures var c := Canonical(spelling).value;
            && |c| >= 17 && IsCanonicalFor(c[..17], Lower(Body(spelling))) && c[17..] == Tail(spelling)
  {
    AcceptedBody(spelling);
    var body := Body(spelling);
    PlainForm(body);
    var c := Canonical(body).value;
    if spelling == body {
      assert c[..17] == c;
    } else {
      NewlineIsKept(body);
      assert (c + Tail(spelling))[..17] == c && (c + Tail(spelling))[17..] == Tail(spelling);
    }
  }

  /**
   Accepted spellings have the same canonical form exactly when they denote the same address and end
   alike; those without a newline all end alike.
   */
  lemma SameCanonical(a: string, b: string)
    requires Accepted(Lower(a)) && Accepted(Lower(b))
    ensures IsMac(Lower(Body(a))) && IsMac(Lower(Body(b)))
    ensures Canonical(a) == Canonical(b)
       <==> SameAddress(Lower(Body(a)), Lower(Body(b))) && Tail(a) == Tail(b)
  {
    CanonicalForm(a);
    CanonicalForm(b);
    var c, d := Canonical(a).value, Canonical(b).value;
    SameForm(c[..17], Lower(Body(a)), d[..17], Lower(Body(b)));
    assert c == c[..17] + c[17..] && d == d[..17] + d[17..];
  }
}
