/** Byte streams cut into newline-terminated lines and an unfinished tail: the whole-stream meaning that the
    incremental readers must agree with. */
module ByteLines {
  import opened Collections

  type byte = b: int | 0 <= b < 256
  type bytes = seq<byte>

  const LF: byte := 10
  const CR: byte := 13

  predicate Unbroken(p: bytes) {
    forall i :: 0 <= i < |p| ==> p[i] != LF
  }

  /** Exactly one newline, at the end. */
  predicate IsLine(p: bytes) {
    p != [] && p[|p| - 1] == LF && Unbroken(p[..|p| - 1])
  }

  predicate AreLines(ls: seq<bytes>) {
    forall i :: 0 <= i < |ls| ==> IsLine(ls[i])
  }

  function Join(ls: seq<bytes>): bytes {
    if ls == [] then [] else Join(ls[..|ls| - 1]) + ls[|ls| - 1]
  }

  /** What follows the last newline. */
  function Tail(p: bytes): bytes {
    if p == [] || p[|p| - 1] == LF then [] else Tail(p[..|p| - 1]) + [p[|p| - 1]]
  }

  /** The newline-terminated lines. */
  function Lines(p: bytes): seq<bytes> {
    if p == [] then []
    else if p[|p| - 1] == LF then Lines(p[..|p| - 1]) + [Tail(p[..|p| - 1]) + [LF]]
    else Lines(p[..|p| - 1])
  }

  lemma Snoc(p: bytes, b: byte)
    ensures b == LF ==> Lines(p + [b]) == Lines(p) + [Tail(p) + [LF]] && Tail(p + [b]) == []
    ensures b != LF ==> Lines(p + [b]) == Lines(p) && Tail(p + [b]) == Tail(p) + [b]
  {
    assert (p + [b])[..|p|] == p;
  }

  lemma JoinSnoc(ls: seq<bytes>, l: bytes)
    ensures Join(ls + [l]) == Join(ls) + l
  {
    assert (ls + [l])[..|ls|] == ls;
  }

  lemma LineOf(t: bytes)
    requires Unbroken(t)
    ensures IsLine(t + [LF])
  {
    assert (t + [LF])[..|t|] == t;
  }

  lemma AreLinesSnoc(ls: seq<bytes>, l: bytes)
    requires AreLines(ls) && IsLine(l)
    ensures AreLines(ls + [l])
  {
  }

  lemma UnbrokenSnoc(p: bytes, b: byte)
    requires Unbroken(p) && b != LF
    ensures Unbroken(p + [b])
  {
  }

  lemma {:induction false} LinesAreLines(p: bytes)
    ensures AreLines(Lines(p)) && Unbroken(Tail(p))
  {
    if p != [] {
      var init, b := p[..|p| - 1], p[|p| - 1];
      assert p == init + [b];
      LinesAreLines(init);
      Snoc(init, b);
      if b == LF {
        LineOf(Tail(init));
        AreLinesSnoc(Lines(init), Tail(init) + [LF]);
      } else {
        UnbrokenSnoc(Tail(init), b);
      }
    }
  }

  /** Lines and tail make up the stream, and are of the right shape. */
  lemma {:induction false} LinesAndTail(p: bytes)
    ensures Join(Lines(p)) + Tail(p) == p
    ensures AreLines(Lines(p)) && Unbroken(Tail(p))
  {
    LinesAreLines(p);
    if p != [] {
      var init, b := p[..|p| - 1], p[|p| - 1];
      assert p == init + [b];
      LinesAndTail(init);
      Snoc(init, b);
      Assoc(Join(Lines(init)), Tail(init), [b]);
      if b == LF {
        JoinSnoc(Lines(init), Tail(init) + [LF]);
      }
    }
  }

  lemma {:induction false} UnbrokenAppend(p: bytes, c: bytes)
    requires Unbroken(c)
    ensures Lines(p + c) == Lines(p) && Tail(p + c) == Tail(p) + c
  {
    if c == [] {
      assert p + c == p;
    } else {
      var init, b := c[..|c| - 1], c[|c| - 1];
      assert c == init + [b];
      Assoc(p, init, [b]);
      Assoc(Tail(p), init, [b]);
      UnbrokenAppend(p, init);
      Snoc(p + init, b);
    }
  }

  /** A chunk that ends in its only newline. */
  lemma LineAppend(p: bytes, c: bytes)
    requires IsLine(c)
    ensures Lines(p + c) == Lines(p) + [Tail(p) + c] && Tail(p + c) == []
  {
    var init := c[..|c| - 1];
    assert c == init + [LF];
    Assoc(p, init, [LF]);
    Assoc(Tail(p), init, [LF]);
    UnbrokenAppend(p, init);
    Snoc(p + init, LF);
  }

  /** The decomposition is the only one: any lines and unbroken tail that make up the stream are its own. */
  lemma {:induction false} LinesUnique(ls: seq<bytes>, t: bytes)
    requires AreLines(ls) && Unbroken(t)
    ensures Lines(Join(ls) + t) == ls && Tail(Join(ls) + t) == t
  {
    if ls == [] {
      UnbrokenAppend([], t);
    } else {
      var init, last := ls[..|ls| - 1], ls[|ls| - 1];
      LinesUnique(init, []);
      assert Join(init) + [] == Join(init);
      LineAppend(Join(init), last);
      assert Tail(Join(init)) + last == last;
      UnbrokenAppend(Join(ls), t);
      assert Tail(Join(ls)) + t == t;
    }
  }

  /** Cutting a stream anywhere: the rest continues the tail of what came before. */
  lemma {:induction false} LinesAppend(p: bytes, q: bytes)
    ensures Lines(p + q) == Lines(p) + Lines(Tail(p) + q)
    ensures Tail(p + q) == Tail(Tail(p) + q)
  {
    if q == [] {
      assert p + q == p && Tail(p) + q == Tail(p);
      LinesAndTail(p);
      UnbrokenAppend([], Tail(p));
      assert [] + Tail(p) == Tail(p);
    } else {
      var init, b := q[..|q| - 1], q[|q| - 1];
      LinesAppend(p, init);
      Snoc(p + init, b);
      Snoc(Tail(p) + init, b);
      assert q == init + [b];
      Assoc(p, init, [b]);
      Assoc(Tail(p), init, [b]);
      if b == LF {
        Assoc(Lines(p), Lines(Tail(p) + init), [Tail(p + init) + [LF]]);
      }
    }
  }

  /** A stream that starts with a line. */
  lemma LineFirst(line: bytes, rest: bytes)
    requires IsLine(line)
    ensures Lines(line + rest) == [line] + Lines(rest)
    ensures Tail(line + rest) == Tail(rest)
  {
    LineAppend([], line);
    assert [] + line == line;
    LinesAppend(line, rest);
    assert [] + rest == rest;
  }
}
