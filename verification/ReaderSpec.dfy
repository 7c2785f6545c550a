/** What the bounded log reader promises about one epoch of one file: a function of the bytes consumed so
    far, however they were cut into chunks, calls and budgets. */
module ReaderSpec {
  import opened Wrappers
  import opened ByteLines

  /** Device and inode number. */
  type Identity = (int, int)

  /** A line as delivered: without its newline and without one carriage return before it. */
  function Clean(line: bytes): bytes
    requires line != []
  {
    var body := line[..|line| - 1];
    if body != [] && body[|body| - 1] == CR then body[..|body| - 1] else body
  }

  /** The lines that fit the size limit, cleaned, in order. */
  function Emitted(ls: seq<bytes>, limit: nat): seq<bytes> {
    if ls == [] then []
    else
      var last := ls[|ls| - 1];
      Emitted(ls[..|ls| - 1], limit) + (if 0 < |last| <= limit then [Clean(last)] else [])
  }

  function Oversized(ls: seq<bytes>, limit: nat): nat {
    if ls == [] then 0
    else Oversized(ls[..|ls| - 1], limit) + (if |ls[|ls| - 1]| > limit then 1 else 0)
  }

  /** Oversized lines so far; an unfinished one counts from the moment it outgrows the limit. */
  function Discards(p: bytes, limit: nat): nat {
    Oversized(Lines(p), limit) + (if |Tail(p)| > limit then 1 else 0)
  }

  /** The reader's memory of an unfinished line: the line itself, or the discard flag alone. */
  function Partial(tail: bytes, limit: nat): bytes {
    if |tail| > limit then [] else tail
  }

  datatype PathState = PathState(identity: Option<Identity>, offset: nat, partial: bytes, discarding: bool)

  const Untouched := PathState(None, 0, [], false)

  /** One life of one file under one configured path, and the bytes consumed from it. */
  datatype Epoch = Epoch(key: string, identity: Identity, consumed: bytes)

  function StateAfter(e: Epoch, limit: nat): (state: PathState)
    ensures |state.partial| <= limit
  {
    PathState(Some(e.identity), |e.consumed|, Partial(Tail(e.consumed), limit), |Tail(e.consumed)| > limit)
  }

  /** A chunk as `readline` returns it: not empty, at most one newline, at its end. */
  predicate IsChunk(c: bytes) {
    c != [] && Unbroken(c[..|c| - 1])
  }

  predicate Completes(c: bytes)
    requires IsChunk(c)
  {
    c[|c| - 1] == LF
  }

  /** The line that chunk `c` delivers after `p`, if any. */
  function NewLine(p: bytes, c: bytes, limit: nat): Option<bytes>
    requires IsChunk(c)
  {
    if Completes(c) && |Tail(p) + c| <= limit then Some(Clean(Tail(p) + c)) else None
  }

  lemma ChunkAppend(p: bytes, c: bytes)
    requires IsChunk(c)
    ensures Completes(c) ==> Lines(p + c) == Lines(p) + [Tail(p) + c] && Tail(p + c) == []
    ensures !Completes(c) ==> Lines(p + c) == Lines(p) && Tail(p + c) == Tail(p) + c
  {
    if Completes(c) {
      LineAppend(p, c);
    } else {
      UnbrokenAppend(p, c);
    }
  }

  /** How one chunk moves the specification. */
  lemma ChunkStep(p: bytes, c: bytes, limit: nat)
    requires IsChunk(c)
    ensures Emitted(Lines(p + c), limit) ==
      Emitted(Lines(p), limit) + (if NewLine(p, c, limit) == None then [] else [NewLine(p, c, limit).value])
    ensures Discards(p + c, limit) ==
      Discards(p, limit) + (if |Tail(p)| <= limit < |Tail(p) + c| then 1 else 0)
  {
    ChunkAppend(p, c);
    if Completes(c) {
      assert Lines(p + c)[..|Lines(p + c)| - 1] == Lines(p);
    }
  }

  /** The text of a line: what stands before its newline, or before its carriage return and newline. */
  predicate IsTextOf(text: bytes, line: bytes) {
    line == text + [13, 10] || (line == text + [10] && (text == [] || text[|text| - 1] != 13))
  }

  lemma CleanIsText(line: bytes)
    requires IsLine(line)
    ensures IsTextOf(Clean(line), line)
  {
    var body := line[..|line| - 1];
    assert line == body + [10];
    if body != [] && body[|body| - 1] == 13 {
      assert body == body[..|body| - 1] + [13];
    }
  }

  /** A chunk that completes a line of a fitting length delivers its text. */
  lemma NewLineIsText(p: bytes, c: bytes, limit: nat)
    requires IsChunk(c)
    ensures NewLine(p, c, limit).Some? <==> c[|c| - 1] == 10 && |Tail(p) + c| <= limit
    ensures NewLine(p, c, limit).Some? ==> IsTextOf(NewLine(p, c, limit).value, Tail(p) + c)
  {
    LinesAndTail(p);
    if Completes(c) {
      var line := Tail(p) + c;
      assert line[..|line| - 1] == Tail(p) + c[..|c| - 1];
      CleanIsText(line);
    }
  }

  /** Every line is either delivered, as its text, or counted as oversized. */
  lemma {:induction false} EmittedAre(ls: seq<bytes>, limit: nat, i: nat)
    requires AreLines(ls) && i < |ls|
    ensures |ls[i]| <= limit ==> exists text :: text in Emitted(ls, limit) && IsTextOf(text, ls[i])
    ensures |Emitted(ls, limit)| + Oversized(ls, limit) == |ls|
    decreases |ls|
  {
    var init := ls[..|ls| - 1];
    CleanIsText(ls[i]);
    if i < |init| {
      EmittedAre(init, limit, i);
      if |ls[i]| <= limit {
        var text :| text in Emitted(init, limit) && IsTextOf(text, ls[i]);
        assert text in Emitted(ls, limit);
      }
    } else if init != [] {
      EmittedAre(init, limit, 0);
    }
  }

  // ---- readline ---------------------------------------------------------------------------------

  /** `readline(n)` at `offset`: up to and including the next newline, at most `n` bytes. */
  function ReadLine(content: bytes, offset: nat, n: nat): bytes
    decreases n
  {
    if offset >= |content| || n == 0 then []
    else if content[offset] == LF then [LF]
    else [content[offset]] + ReadLine(content, offset + 1, n - 1)
  }

  lemma {:induction false} ReadLineIs(content: bytes, offset: nat, n: nat)
    requires offset < |content| && n > 0
    ensures var c := ReadLine(content, offset, n);
            && IsChunk(c) && |c| <= n && offset + |c| <= |content|
            && c == content[offset..offset + |c|]
            && (Completes(c) || |c| == n || offset + |c| == |content|)
    decreases n
  {
    var c := ReadLine(content, offset, n);
    if content[offset] == LF || n == 1 || offset + 1 == |content| {
      assert content[offset..offset + 1] == [content[offset]];
      if content[offset] != LF {
        assert ReadLine(content, offset + 1, n - 1) == [];
      }
    } else {
      ReadLineIs(content, offset + 1, n - 1);
      var rest := ReadLine(content, offset + 1, n - 1);
      assert c == [content[offset]] + rest;
      assert content[offset..offset + |c|] == [content[offset]] + content[offset + 1..offset + |c|];
      assert c[..|c| - 1] == [content[offset]] + rest[..|rest| - 1];
    }
  }

  // ---- Totals over epochs --------------------------------------------------------------------------

  function Sum(counts: seq<nat>): nat {
    if counts == [] then 0 else Sum(counts[..|counts| - 1]) + counts[|counts| - 1]
  }

  lemma {:induction false} SumUpdate(counts: seq<nat>, i: nat, n: nat)
    requires i < |counts|
    ensures Sum(counts[i := n]) + counts[i] == Sum(counts) + n
    decreases |counts|
  {
    var last := |counts| - 1;
    if i == last {
      assert counts[i := n][..last] == counts[..last];
    } else {
      SumUpdate(counts[..last], i, n);
      assert counts[i := n][..last] == counts[..last][i := n];
    }
  }

  lemma SumAppend(counts: seq<nat>, n: nat)
    ensures Sum(counts + [n]) == Sum(counts) + n
  {
    assert (counts + [n])[..|counts|] == counts;
  }

  /** At the end of the file, and only there, `readline` returns nothing. */
  lemma ReadLineEnds(content: bytes, offset: nat, n: nat)
    requires offset <= |content| && n > 0
    ensures ReadLine(content, offset, n) == [] <==> offset == |content|
    ensures offset < |content| ==>
      var c := ReadLine(content, offset, n);
      IsChunk(c) && |c| <= n && offset + |c| <= |content| && c == content[offset..offset + |c|]
  {
    if offset < |content| {
      ReadLineIs(content, offset, n);
    }
  }

  /** Bytes consumed in each epoch. */
  function Sizes(epochs: seq<Epoch>): seq<nat> {
    seq(|epochs|, i requires 0 <= i < |epochs| => |epochs[i].consumed|)
  }

  // ---- Delivered lines, tagged with the epoch they come from -------------------------------------------

  datatype Delivery = Delivery(epoch: nat, line: bytes)

  function LinesOf(output: seq<Delivery>, e: nat): seq<bytes> {
    if output == [] then []
    else
      var last := output[|output| - 1];
      LinesOf(output[..|output| - 1], e) + (if last.epoch == e then [last.line] else [])
  }

  function Untag(output: seq<Delivery>): seq<bytes> {
    seq(|output|, i requires 0 <= i < |output| => output[i].line)
  }

  /** Lines delivered from epoch `e`. */
  function Tag(lines: seq<bytes>, e: nat): seq<Delivery> {
    seq(|lines|, i requires 0 <= i < |lines| => Delivery(e, lines[i]))
  }

  lemma LinesOfSnoc(output: seq<Delivery>, d: Delivery, e: nat)
    ensures LinesOf(output + [d], e) == LinesOf(output, e) + (if d.epoch == e then [d.line] else [])
  {
    assert (output + [d])[..|output|] == output;
  }

  lemma {:induction false} NothingFrom(output: seq<Delivery>, e: nat)
    requires forall i :: 0 <= i < |output| ==> output[i].epoch < e
    ensures LinesOf(output, e) == []
  {
    if output != [] {
      NothingFrom(output[..|output| - 1], e);
    }
  }
}
