/** The names MaRS gives to machines (`ConfigDUT.full_name` in mars.py). */
module MachineNames {
  import opened Common

  type Mac = string

  /** A DUT's configuration: its name depends on the first and the last field, and these four are never left unset. */
  datatype Dut = Dut(baseName: string, tags: seq<string>, ipAddress: string, firstSeen: int)

  type Database = map<Mac, Dut>

  /** The DUTs with the same base name that were registered before. */
  function Earlier(db: Database, d: Dut): set<Mac> {
    set m | m in db && db[m].baseName == d.baseName && db[m].firstSeen < d.firstSeen
  }

  function Index(db: Database, mac: Mac): nat
    requires mac in db
  {
    1 + |Earlier(db, db[mac])|
  }

  /** The counting loop of `full_name`. */
  method ComputeIndex(db: Database, mac: Mac) returns (idx: nat)
    requires mac in db
    ensures idx == Index(db, mac)
  {
    var dut := db[mac];
    var left := db.Keys;
    idx := 1;
    assert Earlier(db, dut) - left == {};
    while left != {}
      invariant left <= db.Keys && idx == 1 + |Earlier(db, dut) - left|
      decreases left
    {
      var m :| m in left;
      CountOne(db, dut, left, m);
      left := left - {m};
      if db[m].baseName == dut.baseName && db[m].firstSeen < dut.firstSeen {
        idx := idx + 1;
      }
    }
    assert Earlier(db, dut) - left == Earlier(db, dut);
  }

  /** One more machine looked at. */
  lemma CountOne(db: Database, dut: Dut, left: set<Mac>, m: Mac)
    requires m in left
    ensures |Earlier(db, dut) - (left - {m})| == |Earlier(db, dut) - left| + if m in Earlier(db, dut) then 1 else 0
  {
    assert Earlier(db, dut) - (left - {m})
        == (Earlier(db, dut) - left) + (if m in Earlier(db, dut) then {m} else {});
  }

  // ---------------------------------------------------------------------------
  // Decimal numbers and names

  function Decimal(n: nat): string {
    if n < 10 then [Digit(n)] else Decimal(n / 10) + [Digit(n % 10)]
  }

  function Digit(d: nat): char
    requires d < 10
  {
    (48 + d) as char
  }

  function DigitValue(c: char): nat {
    if '0' <= c then c as int - 48 else 0
  }

  function ValueOf(s: string): nat {
    if |s| == 0 then 0 else ValueOf(s[..|s| - 1]) * 10 + DigitValue(s[|s| - 1])
  }

  lemma ValueSnoc(s: string, d: nat)
    requires d < 10
    ensures ValueOf(s + [Digit(d)]) == ValueOf(s) * 10 + d && Digit(d) != '-'
  {
    assert (s + [Digit(d)])[..|s|] == s;
  }

  lemma {:induction false} DecimalRoundTrip(n: nat)
    ensures ValueOf(Decimal(n)) == n && '-' !in Decimal(n)
  {
    if n < 10 {
      ValueSnoc([], n);
      assert [] + [Digit(n)] == [Digit(n)];
    } else {
      DecimalRoundTrip(n / 10);
      ValueSnoc(Decimal(n / 10), n % 10);
    }
  }

  /** f"{farm}-{base}-{idx}". */
  function Name(farm: string, base: string, idx: nat): string {
    farm + "-" + base + "-" + Decimal(idx)
  }

  /** Where the last dash is, -1 when there is none. */
  function LastDash(s: string): int {
    if |s| == 0 then -1 else if s[|s| - 1] == '-' then |s| - 1 else LastDash(s[..|s| - 1])
  }

  /** The last dash tells where the index starts, whatever dashes stand before it. */
  lemma {:induction false} LastDashBeforeIndex(a: string, x: string)
    requires '-' !in x
    ensures LastDash(a + "-" + x) == |a|
    decreases |x|
  {
    var s := a + "-" + x;
    if |x| > 0 {
      LastDashBeforeIndex(a, x[..|x| - 1]);
      assert s[..|s| - 1] == a + "-" + x[..|x| - 1];
    }
  }

  lemma SplitAtLastDash(a: string, b: string, x: string, y: string)
    requires '-' !in x && '-' !in y && a + "-" + x == b + "-" + y
    ensures a == b && x == y
  {
    var s := a + "-" + x;
    LastDashBeforeIndex(a, x);
    LastDashBeforeIndex(b, y);
    assert a == s[..|a|] && b == s[..|b|];
    assert x == s[|a| + 1..] && y == s[|b| + 1..];
  }

  lemma NameInjective(farm: string, base: string, idx: nat, base': string, idx': nat)
    requires Name(farm, base, idx) == Name(farm, base', idx')
    ensures base == base' && idx == idx'
  {
    DecimalRoundTrip(idx);
    DecimalRoundTrip(idx');
    var p, p' := farm + "-" + base, farm + "-" + base';
    SplitAtLastDash(p, p', Decimal(idx), Decimal(idx'));
    assert base == p[|farm| + 1..] && base' == p'[|farm| + 1..];
  }

  /** A name starts with the farm, then holds the base name, and ends with the index. */
  lemma NameParts(farm: string, base: string, idx: nat)
    ensures var name := Name(farm, base, idx);
            && farm + "-" <= name && name[|farm| + 1..|farm| + 1 + |base|] == base
            && name[|farm| + 1 + |base|..] == "-" + Decimal(idx)
  {
    Associative(farm + "-" + base, "-", Decimal(idx));
  }

  function FullName(farm: string, db: Database, mac: Mac): string
    requires mac in db
  {
    Name(farm, db[mac].baseName, Index(db, mac))
  }

  // ---------------------------------------------------------------------------
  // Names are unique and stable

  ghost predicate DistinctlySeen(db: Database) {
    forall m, k :: m in db && k in db && m != k && db[m].baseName == db[k].baseName ==>
      db[m].firstSeen != db[k].firstSeen
  }

  lemma SmallerSet(a: set<Mac>, b: set<Mac>, x: Mac)
    requires a <= b && x in b && x !in a
    ensures |a| < |b|
  {
    assert b == a + (b - a);
  }

  lemma SeenLaterNumberedLater(db: Database, m: Mac, k: Mac)
    requires m in db && k in db && db[m].baseName == db[k].baseName && db[m].firstSeen < db[k].firstSeen
    ensures Index(db, m) < Index(db, k)
  {
    SmallerSet(Earlier(db, db[m]), Earlier(db, db[k]), m);
  }

  /** Two machines share a name exactly when they share their base name and the time they were first seen. */
  lemma SameName(farm: string, db: Database, m: Mac, k: Mac)
    requires m in db && k in db
    ensures FullName(farm, db, m) == FullName(farm, db, k)
       <==> db[m].baseName == db[k].baseName && db[m].firstSeen == db[k].firstSeen
  {
    if FullName(farm, db, m) == FullName(farm, db, k) {
      NameInjective(farm, db[m].baseName, Index(db, m), db[k].baseName, Index(db, k));
      if db[m].firstSeen < db[k].firstSeen {
        SeenLaterNumberedLater(db, m, k);
      } else if db[k].firstSeen < db[m].firstSeen {
        SeenLaterNumberedLater(db, k, m);
      }
    }
  }

  /** Names are unique across the database exactly when first-seen times are, base name by base name. */
  lemma NamesAreUnique(farm: string, db: Database)
    ensures DistinctlySeen(db) <==>
            forall m, k :: m in db && k in db && m != k ==> FullName(farm, db, m) != FullName(farm, db, k)
  {
    forall m, k | m in db && k in db
      ensures FullName(farm, db, m) == FullName(farm, db, k)
         <==> db[m].baseName == db[k].baseName && db[m].firstSeen == db[k].firstSeen
    {
      SameName(farm, db, m, k);
    }
  }

  /** A DUT that was seen after all others renames none of them. */
  lemma NewcomerRenamesNobody(farm: string, db: Database, mac: Mac, d: Dut, other: Mac)
    requires mac !in db && other in db && db[other].firstSeen <= d.firstSeen
    ensures FullName(farm, db[mac := d], other) == FullName(farm, db, other)
  {
    NewcomerRenumbersNobody(db, mac, d, other);
  }

  lemma NewcomerRenumbersNobody(db: Database, mac: Mac, d: Dut, other: Mac)
    requires mac !in db && other in db && db[other].firstSeen <= d.firstSeen
    ensures Index(db[mac := d], other) == Index(db, other)
  {
    assert Earlier(db[mac := d], db[other]) == Earlier(db, db[other]);
  }

  function Group(db: Database, base: string): set<Mac> {
    set m | m in db && db[m].baseName == base
  }

  /** The member of a group that was seen last. */
  lemma {:induction false} LastSeen(db: Database, s: set<Mac>) returns (last: Mac)
    requires s != {} && forall m :: m in s ==> m in db
    ensures last in s && forall m :: m in s ==> db[m].firstSeen <= db[last].firstSeen
    decreases |s|
  {
    last :| last in s;
    var others := s - {last};
    if others != {} {
      var l := LastSeen(db, others);
      assert forall m :: m in s ==> m == last || m in others;
      if db[last].firstSeen < db[l].firstSeen {
        last := l;
      }
    }
  }

  lemma LastIsNumberedLast(db: Database, base: string, last: Mac)
    requires DistinctlySeen(db) && last in Group(db, base)
    requires forall m :: m in Group(db, base) ==> db[m].firstSeen <= db[last].firstSeen
    ensures Index(db, last) == |Group(db, base)|
  {
    assert Earlier(db, db[last]) == Group(db, base) - {last};
  }

  /** Every number up to the size of a group is the index of one of its members. */
  lemma {:induction false} IndexIsTaken(db: Database, base: string, i: nat) returns (mac: Mac)
    requires DistinctlySeen(db) && 1 <= i <= |Group(db, base)|
    ensures mac in Group(db, base) && Index(db, mac) == i
    decreases |db|
  {
    var group := Group(db, base);
    mac := LastSeen(db, group);
    if i == |group| {
      LastIsNumberedLast(db, base, mac);
    } else {
      var last := mac;
      var rest := map m | m in db && m != last :: db[m];
      assert db == rest[last := db[last]];
      assert Group(rest, base) == group - {last};
      mac := IndexIsTaken(rest, base, i);
      NewcomerRenumbersNobody(rest, last, db[last], mac);
    }
  }

  /** The indexes of the DUTs that share a base name are exactly 1 to their number. */
  lemma IndexesAreOneToN(db: Database, base: string, i: nat)
    requires DistinctlySeen(db)
    ensures 1 <= i <= |Group(db, base)| <==> exists m :: m in Group(db, base) && Index(db, m) == i
  {
    if 1 <= i <= |Group(db, base)| {
      var m := IndexIsTaken(db, base, i);
    }
    if m :| m in Group(db, base) && Index(db, m) == i {
      SmallerSet(Earlier(db, db[m]), Group(db, base), m);
    }
  }
}
