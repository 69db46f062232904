/**
 Cutting a byte stream into newline-terminated lines. `Cut` is the byte-at-a-time reading, which
 `SerialConsoleStream.recv` does literally; everything that reads in larger pieces is compared to it.
 */
module LineCutting {
  import opened Common

  newtype byte = x: int | 0 <= x < 256

  type Bytes = seq<byte>

  const LF: byte := 10
  const CR: byte := 13

  /** The complete lines, each with its newline, and what follows the last of them. */
  datatype Cutting = Cutting(lines: seq<Bytes>, rest: Bytes)

  function Feed(c: Cutting, b: byte): Cutting {
    if b == LF then Cutting(c.lines + [c.rest + [b]], []) else Cutting(c.lines, c.rest + [b])
  }

  function Cut(s: Bytes): Cutting {
    if |s| == 0 then Cutting([], []) else Feed(Cut(s[..|s| - 1]), s[|s| - 1])
  }

  function Concat(chunks: seq<Bytes>): Bytes {
    if |chunks| == 0 then [] else Concat(chunks[..|chunks| - 1]) + chunks[|chunks| - 1]
  }

  lemma ConcatSnoc(chunks: seq<Bytes>, last: Bytes)
    ensures Concat(chunks + [last]) == Concat(chunks) + last
  {
    assert (chunks + [last])[..|chunks|] == chunks;
  }

  /** Nothing is lost or reordered. */
  lemma {:induction false} CutIsFaithful(s: Bytes)
    ensures Concat(Cut(s).lines) + Cut(s).rest == s
  {
    if |s| > 0 {
      var front, b := s[..|s| - 1], s[|s| - 1];
      var c := Cut(front);
      CutIsFaithful(front);
      ConcatSnoc(c.lines, c.rest + [b]);
      Associative(Concat(c.lines), c.rest, [b]);
      assert s == front + [b];
      if b == LF {
        assert Concat(Cut(s).lines) + [] == Concat(Cut(s).lines);
      }
    }
  }

  predicate IsLine(l: Bytes) {
    l != [] && l[|l| - 1] == LF && LF !in l[..|l| - 1]
  }

  /** Lines hold one newline each, at their end, and the rest holds none. */
  lemma {:induction false} CutShape(s: Bytes)
    ensures LF !in Cut(s).rest
    ensures forall i :: 0 <= i < |Cut(s).lines| ==> IsLine(Cut(s).lines[i])
  {
    if |s| > 0 {
      var c := Cut(s[..|s| - 1]);
      CutShape(s[..|s| - 1]);
      assert (c.rest + [s[|s| - 1]])[..|c.rest|] == c.rest;
    }
  }

  /** Reading on from a cut stream only needs its rest. */
  lemma {:induction false} CutAppend(a: Bytes, b: Bytes)
    ensures var next := Cut(Cut(a).rest + b);
            Cut(a + b) == Cutting(Cut(a).lines + next.lines, next.rest)
  {
    var r := Cut(a).rest;
    if |b| == 0 {
      CutShape(a);
      CutNoNewline(r);
      assert a + b == a && r + b == r;
      assert Cut(a).lines + [] == Cut(a).lines;
    } else {
      var front, last := b[..|b| - 1], b[|b| - 1];
      CutAppend(a, front);
      assert (a + b)[..|a + b| - 1] == a + front;
      assert (r + b)[..|r + b| - 1] == r + front;
    }
  }

  lemma {:induction false} CutNoNewline(s: Bytes)
    requires LF !in s
    ensures Cut(s) == Cutting([], s)
  {
    if |s| > 0 {
      var front, b := s[..|s| - 1], s[|s| - 1];
      LastOf(s);
      assert b in s && forall x :: x in front ==> x in s;
      CutNoNewline(front);
    }
  }

  lemma CutByte(s: Bytes, b: byte)
    ensures Cut(s + [b]) == Feed(Cut(s), b)
  {
    assert (s + [b])[..|s|] == s;
  }

  /** Reading on, without a newline, from the start of a line. */
  lemma CutMore(a: Bytes, b: Bytes)
    requires Cut(a).rest == [] && LF !in b
    ensures Cut(a + b) == Cutting(Cut(a).lines, b)
  {
    CutAppend(a, b);
    CutNoNewline(b);
    assert [] + b == b && Cut(a).lines + [] == Cut(a).lines;
  }
}
