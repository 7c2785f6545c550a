/** `BoundedLogReader`: incremental reading of several log files under line and byte budgets. */
module BoundedReader {
  import opened Wrappers
  import opened Collections
  import opened ByteLines
  import opened ReaderSpec
  import opened LogText
  import opened RoundRobin

  /** A configured path: its absolute form, which is the key of its state, and the text it was given as. */
  datatype Path = Path(absolute: string, text: string)

  /** What opening a path finds: an OSError, a FIFO or device, or a regular file as it is during one visit. */
  datatype File = Unreadable | Special | Regular(identity: Identity, content: bytes)

  type Files = map<string, File>

  function FileAt(files: Files, key: string): File {
    if key in files then files[key] else Unreadable
  }

  /** All that has happened so far: every epoch, the epoch each path is in, what was delivered, and the
      number of oversized lines per epoch. */
  datatype History = History(
    epochs: seq<Epoch>, current: map<string, nat>, output: seq<Delivery>, discards: seq<nat>)
  {
    predicate Has(key: string) {
      key in current && current[key] < |epochs| && epochs[current[key]].key == key
    }

    /** The epoch a path is in. */
    function At(key: string): Epoch
      requires Has(key)
    {
      epochs[current[key]]
    }

    /** Another chunk of the epoch that `key` is in. */
    function Chunk(key: string, c: bytes, limit: nat): History
      requires Has(key) && IsChunk(c) && |discards| == |epochs|
    {
      var i := current[key];
      var p := epochs[i].consumed;
      var line := NewLine(p, c, limit);
      History(
        epochs[i := epochs[i].(consumed := p + c)], current,
        if line == None then output else output + [Delivery(i, line.value)],
        discards[i := Discards(p + c, limit)])
    }

    /** A new epoch for `key`. */
    function Reset(key: string, identity: Identity): History {
      History(epochs + [Epoch(key, identity, [])], current[key := |epochs|], output, discards + [0])
    }
  }

  /** The state of a path is that of the epoch it is in. */
  ghost predicate Tracked(state: map<string, PathState>, h: History, limit: nat, key: string) {
    && (key in h.current ==> h.Has(key) && key in state && state[key] == StateAfter(h.At(key), limit))
    && (key in state && key !in h.current ==> state[key] == Untouched)
  }

  /** From epoch `e` exactly the fitting lines of its consumed bytes have been delivered, and the others counted. */
  ghost predicate Accounted(h: History, limit: nat, e: nat) {
    e < |h.epochs| && e < |h.discards| ==>
      && LinesOf(h.output, e) == Emitted(Lines(h.epochs[e].consumed), limit)
      && h.discards[e] == Discards(h.epochs[e].consumed, limit)
  }

  /** The reader's fields and its history agree. */
  ghost predicate Consistent(state: map<string, PathState>, h: History, limit: nat) {
    && |h.discards| == |h.epochs|
    && (forall i :: 0 <= i < |h.output| ==> h.output[i].epoch < |h.epochs|)
    && (forall key {:trigger Tracked(state, h, limit, key)} :: Tracked(state, h, limit, key))
    && (forall e: nat {:trigger Accounted(h, limit, e)} :: Accounted(h, limit, e))
  }

  lemma ChunkKeepsConsistent(state: map<string, PathState>, h: History, limit: nat, key: string, c: bytes)
    requires Consistent(state, h, limit) && key in h.current && IsChunk(c)
    ensures h.Has(key)
    ensures Consistent(state[key := StateAfter(h.Chunk(key, c, limit).At(key), limit)], h.Chunk(key, c, limit), limit)
    ensures key in state && state[key] == StateAfter(h.At(key), limit)
    ensures Sum(h.Chunk(key, c, limit).discards) + Discards(h.At(key).consumed, limit)
         == Sum(h.discards) + Discards(h.At(key).consumed + c, limit)
  {
    assert Tracked(state, h, limit, key);
    assert Accounted(h, limit, h.current[key]);
    SumUpdate(h.discards, h.current[key], Discards(h.At(key).consumed + c, limit));
    var h' := h.Chunk(key, c, limit);
    var i := h.current[key];
    var state' := state[key := StateAfter(h'.At(key), limit)];
    forall k ensures Tracked(state', h', limit, k) {
      assert Tracked(state, h, limit, k);
    }
    forall e: nat ensures Accounted(h', limit, e) {
      assert Accounted(h, limit, e);
      AccountChunk(h, limit, key, c, e);
    }
  }

  lemma {:induction false} AccountChunk(h: History, limit: nat, key: string, c: bytes, e: nat)
    requires h.Has(key) && IsChunk(c) && |h.discards| == |h.epochs| && Accounted(h, limit, e)
    ensures Accounted(h.Chunk(key, c, limit), limit, e)
  {
    var i := h.current[key];
    var p := h.epochs[i].consumed;
    ChunkStep(p, c, limit);
    if NewLine(p, c, limit).Some? {
      LinesOfSnoc(h.output, Delivery(i, NewLine(p, c, limit).value), e);
    }
  }

  lemma ResetKeepsConsistent(
    state: map<string, PathState>, h: History, limit: nat, key: string, identity: Identity)
    requires Consistent(state, h, limit) && key in state
    ensures Consistent(state[key := PathState(Some(identity), 0, [], false)], h.Reset(key, identity), limit)
  {
    var state' := state[key := PathState(Some(identity), 0, [], false)];
    var h' := h.Reset(key, identity);
    forall k ensures Tracked(state', h', limit, k) {
      assert Tracked(state, h, limit, k);
    }
    forall e: nat ensures Accounted(h', limit, e) {
      assert Accounted(h, limit, e);
      if e == |h.epochs| {
        NothingFrom(h.output, e);
      }
    }
  }

  /** `e` continues `was` with the bytes that follow in its file, and with nothing else. */
  predicate Continues(was: Epoch, e: Epoch, files: Files) {
    && e.key == was.key && e.identity == was.identity
    && (e.consumed == was.consumed ||
         var file := FileAt(files, e.key);
         && file.Regular? && file.identity == e.identity
         && |was.consumed| <= |e.consumed| <= |file.content|
         && e.consumed == was.consumed + file.content[|was.consumed|..|e.consumed|])
  }

  lemma ContinuesTransitive(a: Epoch, b: Epoch, c: Epoch, files: Files)
    requires Continues(a, b, files) && Continues(b, c, files)
    ensures Continues(a, c, files)
  {
    if b.consumed != a.consumed && c.consumed != b.consumed {
      var content := FileAt(files, c.key).content;
      assert content[|a.consumed|..|b.consumed|] + content[|b.consumed|..|c.consumed|]
          == content[|a.consumed|..|c.consumed|];
      Assoc(a.consumed, content[|a.consumed|..|b.consumed|], content[|b.consumed|..|c.consumed|]);
    }
  }

  /** In a file that is only appended to, the consumed bytes stay a prefix of the file. */
  lemma AppendOnlyStaysPrefix(was: Epoch, e: Epoch, files: Files)
    requires Continues(was, e, files)
    requires FileAt(files, e.key).Regular? && was.consumed <= FileAt(files, e.key).content
    ensures e.consumed <= FileAt(files, e.key).content
  {
  }

  /** Epoch `e` of `h` as it was before, or at its start if it is new. */
  function Before(was: History, h: History, e: nat): Epoch
    requires e < |h.epochs|
  {
    if e < |was.epochs| then was.epochs[e] else h.epochs[e].(consumed := [])
  }

  ghost predicate EpochFollows(was: History, h: History, files: Files, e: nat) {
    e < |h.epochs| ==> Continues(Before(was, h, e), h.epochs[e], files)
  }

  /** Old epochs continue in their files, new ones start at the beginning of theirs. */
  ghost predicate Follows(was: History, h: History, files: Files) {
    && |was.epochs| <= |h.epochs|
    && forall e: nat {:trigger EpochFollows(was, h, files, e)} :: EpochFollows(was, h, files, e)
  }

  lemma FollowsTransitive(a: History, b: History, c: History, files: Files)
    requires Follows(a, b, files) && Follows(b, c, files)
    ensures Follows(a, c, files)
  {
    forall e: nat ensures EpochFollows(a, c, files, e) {
      assert EpochFollows(a, b, files, e) && EpochFollows(b, c, files, e);
      if e < |b.epochs| {
        ContinuesTransitive(Before(a, b, e), b.epochs[e], c.epochs[e], files);
      }
    }
  }

  /** `h` is `was` after reading `content` of the epoch that `key` is in up to byte `to`, delivering `lines`. */
  ghost predicate Drained(was: History, h: History, key: string, content: bytes, to: nat, lines: seq<bytes>) {
    && was.Has(key) && |was.At(key).consumed| <= to <= |content|
    && h.current == was.current
    && h.epochs == was.epochs[was.current[key] := was.At(key).(
         consumed := was.At(key).consumed + content[|was.At(key).consumed|..to])]
    && h.output == was.output + Tag(lines, was.current[key])
  }

  function Optional(line: Option<bytes>): seq<bytes> {
    if line == None then [] else [line.value]
  }

  lemma DrainedNothing(h: History, key: string, content: bytes)
    requires h.Has(key) && |h.At(key).consumed| <= |content|
    ensures Drained(h, h, key, content, |h.At(key).consumed|, [])
  {
    var to := |h.At(key).consumed|;
    assert h.At(key).consumed + content[to..to] == h.At(key).consumed;
    assert h.output + Tag([], h.current[key]) == h.output;
  }

  lemma DrainedChunk(
    was: History, h: History, key: string, content: bytes, to: nat, lines: seq<bytes>, c: bytes, limit: nat)
    requires Drained(was, h, key, content, to, lines) && h.Has(key) && |h.discards| == |h.epochs|
    requires IsChunk(c) && to + |c| <= |content| && c == content[to..to + |c|]
    ensures var line := NewLine(h.At(key).consumed, c, limit);
            Drained(was, h.Chunk(key, c, limit), key, content, to + |c|, lines + Optional(line))
  {
    var p := was.At(key).consumed;
    var line := NewLine(h.At(key).consumed, c, limit);
    Assoc(p, content[|p|..to], c);
    assert content[|p|..to] + c == content[|p|..to + |c|];
    var more := Optional(line);
    assert was.output + Tag(lines, was.current[key]) + Tag(more, was.current[key])
        == was.output + Tag(lines + more, was.current[key]);
    assert h.Chunk(key, c, limit).output == h.output + Tag(more, was.current[key]);
  }

  lemma FoundChunk(was: History, h: History, key: string, content: bytes, lines: seq<bytes>, c: bytes, limit: nat)
    requires h.Has(key) && |h.discards| == |h.epochs| && IsChunk(c)
    requires |h.At(key).consumed| + |c| <= |content|
    requires c == content[|h.At(key).consumed|..|h.At(key).consumed| + |c|]
    requires Drained(was, h, key, content, |h.At(key).consumed|, lines)
    ensures var next := h.Chunk(key, c, limit);
            && next.Has(key) && |next.At(key).consumed| == |h.At(key).consumed| + |c|
            && Drained(was, next, key, content, |next.At(key).consumed|,
                       lines + Optional(NewLine(h.At(key).consumed, c, limit)))
  {
    DrainedChunk(was, h, key, content, |h.At(key).consumed|, lines, c, limit);
  }

  lemma DrainedFollows(was: History, h: History, key: string, files: Files, to: nat, lines: seq<bytes>)
    requires FileAt(files, key).Regular? && was.Has(key) && FileAt(files, key).identity == was.At(key).identity
    requires Drained(was, h, key, FileAt(files, key).content, to, lines)
    ensures Follows(was, h, files)
  {
    forall e: nat ensures EpochFollows(was, h, files, e) {
    }
  }

  lemma ResetFollows(h: History, key: string, identity: Identity, files: Files)
    ensures Follows(h, h.Reset(key, identity), files)
  {
    forall e: nat ensures EpochFollows(h, h.Reset(key, identity), files, e) {
    }
  }

  // ---- One visit to one path ---------------------------------------------------------------------------

  /** The file at `key` is still the one being read, and has not been cut back below the offset. */
  predicate SameEpoch(h: History, key: string, file: File)
    requires file.Regular?
  {
    h.Has(key) && h.At(key).identity == file.identity && |h.At(key).consumed| <= |file.content|
  }

  function Resumed(h: History, key: string, file: File): (r: History)
    requires file.Regular?
    ensures r.Has(key) && r.At(key).identity == file.identity && |r.At(key).consumed| <= |file.content|
  {
    if SameEpoch(h, key, file) then h else h.Reset(key, file.identity)
  }

  /** A visit reads `read` bytes of the file at `key`, from where it was left or from the start of a new epoch,
      and delivers `lines`; a file with unread bytes gives at least one. */
  ghost predicate Visited(was: History, h: History, key: string, files: Files, lines: seq<bytes>, read: nat) {
    var file := FileAt(files, key);
    if !file.Regular? then h == was && lines == [] && read == 0
    else
      var mid := Resumed(was, key, file);
      && h.Has(key) && |h.At(key).consumed| <= |file.content|
      && Drained(mid, h, key, file.content, |h.At(key).consumed|, lines)
      && |h.At(key).consumed| == |mid.At(key).consumed| + read
      && (|mid.At(key).consumed| < |file.content| ==> 0 < read)
  }

  lemma VisitFollows(was: History, h: History, key: string, files: Files, lines: seq<bytes>, read: nat)
    requires Visited(was, h, key, files, lines, read)
    ensures Follows(was, h, files)
  {
    var file := FileAt(files, key);
    if file.Regular? {
      var mid := Resumed(was, key, file);
      DrainedFollows(mid, h, key, files, |h.At(key).consumed|, lines);
      if mid != was {
        ResetFollows(was, key, file.identity, files);
        FollowsTransitive(was, mid, h, files);
      }
    } else {
      forall e: nat ensures EpochFollows(was, h, files, e) {
      }
    }
  }

  function Bytes(h: History): nat {
    Sum(Sizes(h.epochs))
  }

  lemma VisitBytes(was: History, h: History, key: string, files: Files, lines: seq<bytes>, read: nat)
    requires Visited(was, h, key, files, lines, read)
    ensures Bytes(h) == Bytes(was) + read
  {
    var file := FileAt(files, key);
    if file.Regular? {
      var mid := Resumed(was, key, file);
      if mid != was {
        assert Sizes(mid.epochs) == Sizes(was.epochs) + [0];
        SumAppend(Sizes(was.epochs), 0);
      }
      var i := mid.current[key];
      assert Sizes(h.epochs) == Sizes(mid.epochs)[i := |h.At(key).consumed|];
      SumUpdate(Sizes(mid.epochs), i, |h.At(key).consumed|);
    }
  }

  /** The deliveries of `h` beyond those of `was` are `lines`. */
  predicate Delivers(was: History, h: History, lines: seq<bytes>) {
    was.output <= h.output && Untag(h.output[|was.output|..]) == lines
  }

  lemma VisitDelivers(a: History, b: History, c: History, key: string, files: Files,
                      before: seq<bytes>, lines: seq<bytes>, read: nat)
    requires Delivers(a, b, before) && Visited(b, c, key, files, lines, read)
    ensures Delivers(a, c, before + lines)
  {
    if FileAt(files, key).Regular? {
      var e := c.current[key];
      assert c.output == b.output + Tag(lines, e);
      assert c.output[|a.output|..] == b.output[|a.output|..] + Tag(lines, e);
    }
  }

  /** Since `was`, the file at `key` has been read further if it had unread bytes. A new epoch was begun exactly
      when the file had been replaced or cut back. */
  ghost predicate Advanced(was: History, h: History, key: string, file: File) {
    && (!file.Regular? ==> Unvisited(was, h, key))
    && (file.Regular? ==>
      && SameEpoch(h, key, file)
      && (if SameEpoch(was, key, file) then h.current[key] == was.current[key] else h.current[key] >= |was.epochs|)
      && var start := |Resumed(was, key, file).At(key).consumed|;
         start <= |h.At(key).consumed| && (start < |file.content| ==> start < |h.At(key).consumed|))
  }

  lemma VisitAdvances(a: History, b: History, c: History, key: string, files: Files, lines: seq<bytes>, read: nat)
    requires |a.epochs| <= |b.epochs| && Visited(b, c, key, files, lines, read)
    requires Advanced(a, b, key, FileAt(files, key)) || Unvisited(a, b, key)
    ensures Advanced(a, c, key, FileAt(files, key))
  {
  }

  /** `key` is where it was. */
  ghost predicate Unvisited(was: History, h: History, key: string) {
    && (h.Has(key) <==> was.Has(key))
    && (h.Has(key) ==> h.current[key] == was.current[key] && h.At(key) == was.At(key))
  }

  lemma VisitElsewhere(a: History, b: History, c: History, key: string, other: string, files: Files,
                       lines: seq<bytes>, read: nat)
    requires Visited(b, c, key, files, lines, read) && key != other
    ensures Advanced(a, b, other, FileAt(files, other)) ==> Advanced(a, c, other, FileAt(files, other))
    ensures Unvisited(a, b, other) ==> Unvisited(a, c, other)
  {
    if FileAt(files, key).Regular? {
      var mid := Resumed(b, key, FileAt(files, key));
      assert Unvisited(b, mid, other);
      assert Unvisited(mid, c, other);
    }
  }

  /** Epoch `e`, if begun since `was`, is the one its file is now in. */
  ghost predicate FreshEpoch(was: History, h: History, files: Files, e: nat) {
    |was.epochs| <= e < |h.epochs| ==>
      var key := h.epochs[e].key;
      FileAt(files, key).Regular? && SameEpoch(h, key, FileAt(files, key)) && h.current[key] == e
  }

  /** At most one new epoch for each path. */
  ghost predicate Fresh(was: History, h: History, files: Files) {
    forall e: nat {:trigger FreshEpoch(was, h, files, e)} :: FreshEpoch(was, h, files, e)
  }

  lemma VisitFresh(a: History, b: History, c: History, key: string, files: Files, lines: seq<bytes>, read: nat)
    requires |a.epochs| <= |b.epochs| && Fresh(a, b, files) && Visited(b, c, key, files, lines, read)
    ensures Fresh(a, c, files)
  {
    forall e: nat ensures FreshEpoch(a, c, files, e) {
      assert FreshEpoch(a, b, files, e);
    }
  }

  // ---- A file that only grows ----------------------------------------------------------------------------

  /** `key` has been in one epoch only, and what was consumed from it is a prefix of `content`. */
  ghost predicate OneLife(h: History, key: string, identity: Identity, content: bytes) {
    && (forall e :: 0 <= e < |h.epochs| && h.epochs[e].key == key ==> h.Has(key) && h.current[key] == e)
    && (h.Has(key) ==> h.At(key).identity == identity && h.At(key).consumed <= content)
  }

  /** Whenever it can be read, the file at `key` is the same one; it only grows, and never beyond `content`. */
  predicate OnlyGrows(files: seq<Files>, key: string, identity: Identity, content: bytes) {
    && (forall i :: 0 <= i < |files| && FileAt(files[i], key).Regular? ==>
          FileAt(files[i], key).identity == identity && FileAt(files[i], key).content <= content)
    && (forall i, j :: 0 <= i < j < |files| && FileAt(files[i], key).Regular? && FileAt(files[j], key).Regular? ==>
          |FileAt(files[i], key).content| <= |FileAt(files[j], key).content|)
  }

  function Consumed(h: History, key: string): bytes {
    if h.Has(key) then h.At(key).consumed else []
  }

  /** There are unread bytes, and none of them has been read. */
  ghost predicate LeftUnread(was: History, h: History, key: string, file: File) {
    file.Regular? && |Consumed(was, key)| < |file.content| && |Consumed(h, key)| <= |Consumed(was, key)|
  }

  /** What one call does to a file that is a longer piece of `content` than was consumed of it. */
  lemma GrowsOn(was: History, h: History, files: Files, key: string, identity: Identity, content: bytes)
    requires Follows(was, h, files) && Fresh(was, h, files) && OneLife(was, key, identity, content)
    requires Advanced(was, h, key, FileAt(files, key)) || Unvisited(was, h, key)
    requires var file := FileAt(files, key); file.Regular? ==>
               file.identity == identity && file.content <= content && |Consumed(was, key)| <= |file.content|
    ensures OneLife(h, key, identity, content)
    ensures Consumed(h, key) == Consumed(was, key)
         || (FileAt(files, key).Regular? && |Consumed(h, key)| <= |FileAt(files, key).content|)
    ensures |Consumed(was, key)| <= |Consumed(h, key)|
    ensures Advanced(was, h, key, FileAt(files, key)) ==> !LeftUnread(was, h, key, FileAt(files, key))
  {
    forall e: nat | e < |h.epochs| && h.epochs[e].key == key ensures h.Has(key) && h.current[key] == e {
      assert EpochFollows(was, h, files, e) && FreshEpoch(was, h, files, e);
    }
    if h.Has(key) {
      assert EpochFollows(was, h, files, h.current[key]);
    }
  }

  /** Before call `i`: nothing was consumed that the calls to come would not find. */
  ghost predicate Growing(h: History, files: seq<Files>, i: nat, key: string, identity: Identity, content: bytes) {
    && OnlyGrows(files, key, identity, content) && OneLife(h, key, identity, content)
    && forall j :: i <= j < |files| && FileAt(files[j], key).Regular? ==>
         |Consumed(h, key)| <= |FileAt(files[j], key).content|
  }

  /** Every call finds the file readable. */
  predicate AlwaysReadable(files: seq<Files>, key: string) {
    forall i :: 0 <= i < |files| ==> FileAt(files[i], key).Regular?
  }

  lemma GrowsOnCall(
    was: History, h: History, files: seq<Files>, i: nat, key: string, identity: Identity, content: bytes)
    requires i < |files| && Growing(was, files, i, key, identity, content)
    requires Follows(was, h, files[i]) && Fresh(was, h, files[i])
    requires Advanced(was, h, key, FileAt(files[i], key)) || Unvisited(was, h, key)
    ensures Growing(h, files, i + 1, key, identity, content)
    ensures |Consumed(was, key)| <= |Consumed(h, key)|
    ensures Advanced(was, h, key, FileAt(files[i], key)) ==> !LeftUnread(was, h, key, FileAt(files[i], key))
  {
    GrowsOn(was, h, files[i], key, identity, content);
  }

  lemma DeliversMore(a: History, b: History, c: History, before: seq<bytes>, lines: seq<bytes>)
    requires Delivers(a, b, before) && Delivers(b, c, lines)
    ensures Delivers(a, c, before + lines)
  {
    assert c.output[|a.output|..] == b.output[|a.output|..] + c.output[|b.output|..];
  }

  /** The lines delivered from one path, whatever its epochs. */
  function LinesFrom(epochs: seq<Epoch>, output: seq<Delivery>, key: string): seq<bytes> {
    if output == [] then []
    else
      var last := output[|output| - 1];
      LinesFrom(epochs, output[..|output| - 1], key)
        + (if last.epoch < |epochs| && epochs[last.epoch].key == key then [last.line] else [])
  }

  lemma {:induction false} LinesFromOne(epochs: seq<Epoch>, output: seq<Delivery>, key: string, c: nat)
    requires forall e :: 0 <= e < |epochs| ==> (epochs[e].key == key <==> e == c)
    requires forall i :: 0 <= i < |output| ==> output[i].epoch < |epochs|
    ensures LinesFrom(epochs, output, key) == LinesOf(output, c)
  {
    if output != [] {
      LinesFromOne(epochs, output[..|output| - 1], key, c);
    }
  }

  lemma {:induction false} LinesFromNone(epochs: seq<Epoch>, output: seq<Delivery>, key: string)
    requires forall e :: 0 <= e < |epochs| ==> epochs[e].key != key
    ensures LinesFrom(epochs, output, key) == []
  {
    if output != [] {
      LinesFromNone(epochs, output[..|output| - 1], key);
    }
  }

  lemma {:induction false} LinesFromAll(epochs: seq<Epoch>, output: seq<Delivery>, key: string)
    requires forall e :: 0 <= e < |epochs| ==> epochs[e].key == key
    requires forall i :: 0 <= i < |output| ==> output[i].epoch < |epochs|
    ensures LinesFrom(epochs, output, key) == Untag(output)
  {
    if output != [] {
      LinesFromAll(epochs, output[..|output| - 1], key);
      assert Untag(output) == Untag(output[..|output| - 1]) + [output[|output| - 1].line];
    }
  }

  /** The lines of a path with one epoch are those of its consumed bytes. */
  lemma OneLifeLines(
    state: map<string, PathState>, h: History, limit: nat, key: string, identity: Identity, content: bytes)
    requires Consistent(state, h, limit) && OneLife(h, key, identity, content)
    ensures LinesFrom(h.epochs, h.output, key) == Emitted(Lines(Consumed(h, key)), limit)
    ensures Consumed(h, key) <= content
  {
    if h.Has(key) {
      assert Accounted(h, limit, h.current[key]);
      LinesFromOne(h.epochs, h.output, key, h.current[key]);
    } else {
      LinesFromNone(h.epochs, h.output, key);
    }
  }

  /** A reader that has known one path only, and one epoch of it. */
  lemma OnlyOneLife(
    state: map<string, PathState>, h: History, limit: nat, key: string, identity: Identity, content: bytes)
    requires Consistent(state, h, limit) && OneLife(h, key, identity, content)
    requires forall e :: 0 <= e < |h.epochs| ==> h.epochs[e].key == key
    ensures Untag(h.output) == Emitted(Lines(Consumed(h, key)), limit)
    ensures Sum(h.discards) == Discards(Consumed(h, key), limit)
  {
    OneLifeLines(state, h, limit, key, identity, content);
    LinesFromAll(h.epochs, h.output, key);
    if h.epochs == [] {
      assert Discards([], limit) == 0;
    } else {
      assert h.epochs[0].key == key && h.epochs[|h.epochs| - 1].key == key;
      assert Accounted(h, limit, h.current[key]);
      assert h.discards[..|h.discards| - 1] == [];
    }
  }

  /** What one chunk does to the memory of an unfinished line; `p` are the bytes consumed before it. */
  method Advance(was: PathState, chunk: bytes, limit: nat, ghost p: bytes)
    returns (s: PathState, line: Option<bytes>, discarded: nat)
    requires IsChunk(chunk)
    requires was.partial == Partial(Tail(p), limit) && (was.discarding <==> |Tail(p)| > limit)
    ensures s == PathState(was.identity, was.offset + |chunk|, Partial(Tail(p + chunk), limit), |Tail(p + chunk)| > limit)
    ensures line == NewLine(p, chunk, limit)
    ensures line.Some? <==> chunk[|chunk| - 1] == 10 && |Tail(p) + chunk| <= limit
    ensures line.Some? ==> IsTextOf(line.value, Tail(p) + chunk)
    ensures Discards(p + chunk, limit) == Discards(p, limit) + discarded
  {
    NewLineIsText(p, chunk, limit);
    ChunkAppend(p, chunk);
    ChunkStep(p, chunk, limit);
    s := was.(offset := was.offset + |chunk|);
    var complete := chunk[|chunk| - 1] == LF;
    line, discarded := None, 0;
    if s.discarding {
      if complete {
        s := s.(discarding := false);
      }
    } else {
      var combined := s.partial + chunk;
      if |combined| > limit {
        discarded := 1;
        s := s.(partial := [], discarding := !complete);
      } else if complete {
        line := Some(Clean(combined));
        s := s.(partial := []);
      } else {
        s := s.(partial := combined);
      }
    }
  }

  lemma OffsetIs(state: map<string, PathState>, h: History, limit: nat, key: string)
    requires Consistent(state, h, limit) && h.Has(key)
    ensures key in state && state[key].offset == |h.At(key).consumed|
  {
    assert Tracked(state, h, limit, key);
  }

  /** A row of calls: call `i` leads from `histories[i]` to `histories[i + 1]`, visiting `visits[i]` paths from
      `starts[i]` on. */
  datatype Calls = Calls(histories: seq<History>, starts: seq<nat>, visits: seq<nat>)
  {
    predicate Consistent() {
      |starts| == |visits| && |histories| == |starts| + 1
    }

    predicate Has(i: int) {
      0 <= i < |starts|
    }

    function Last(): History
      requires Consistent()
    {
      histories[|starts|]
    }

    function Then(h: History, start: nat, n: nat): (calls: Calls)
      ensures Consistent() ==> calls.Consistent() && calls.Last() == h
    {
      Calls(histories + [h], starts + [start], visits + [n])
    }
  }

  /** Some call read the file at `key` on. */
  ghost predicate IsReadOn(files: seq<Files>, calls: Calls, key: string)
    requires calls.Consistent() && |calls.starts| <= |files|
  {
    exists i {:trigger calls.Has(i)} ::
      calls.Has(i) && Advanced(calls.histories[i], calls.histories[i + 1], key, FileAt(files[i], key))
  }

  /** Every call may deliver lines; None leaves the limit to the reader. */
  predicate ArePositive(limits: seq<Option<int>>) {
    forall i :: 0 <= i < |limits| && limits[i].Some? ==> 0 < limits[i].value
  }

  ghost predicate IsPath(paths: seq<Path>, key: string) {
    exists i :: 0 <= i < |paths| && paths[i].absolute == key
  }

  class BoundedLogReader {
    const paths: seq<Path>
    const maxLines: nat
    const maxBytes: nat
    const sizeLimit: nat
    var nextPath: nat
    var discardedLines: nat
    var state: map<string, PathState>
    ghost var history: History

    ghost predicate Valid()
      reads this
    {
      && 0 < maxLines && 0 < maxBytes && 0 < sizeLimit
      && (paths == [] || nextPath < |paths|)
      && (forall key :: key in state <==> IsPath(paths, key))
      && (forall e :: 0 <= e < |history.epochs| ==> IsPath(paths, history.epochs[e].key))
      && Consistent(state, history, sizeLimit)
      && discardedLines == Sum(history.discards)
    }

    constructor (paths: seq<Path>, maxLines: nat, maxBytes: nat, sizeLimit: nat)
      requires 0 < maxLines && 0 < maxBytes && 0 < sizeLimit
      ensures Valid() && this.paths == Distinct(paths) && nextPath == 0 && discardedLines == 0
      ensures history == History([], map[], [], [])
      ensures this.maxLines == maxLines && this.maxBytes == maxBytes && this.sizeLimit == sizeLimit
    {
      var distinct := Distinct(paths);
      this.paths, this.maxLines, this.maxBytes, this.sizeLimit := distinct, maxLines, maxBytes, sizeLimit;
      nextPath, discardedLines := 0, 0;
      state := map i | 0 <= i < |distinct| :: distinct[i].absolute := Untouched;
      history := History([], map[], [], []);
    }

    /** The constructor as callers see it; null stands for the ValueError. */
    static method Create(paths: seq<Path>, maxLines: int, maxBytes: int, sizeLimit: int)
      returns (reader: BoundedLogReader?)
      ensures reader == null <==> maxLines <= 0 || maxBytes <= 0 || sizeLimit <= 0
      ensures reader != null ==> fresh(reader) && reader.Valid() && reader.paths == Distinct(paths)
    {
      if maxLines <= 0 || maxBytes <= 0 || sizeLimit <= 0 {
        return null;
      }
      reader := new BoundedLogReader(paths, maxLines, maxBytes, sizeLimit);
    }

    /** The loop body for one chunk: extend the partial line, deliver it, or discard. */
    method TakeChunk(key: string, chunk: bytes) returns (line: Option<bytes>)
      requires Valid() && key in history.current && history.Has(key) && IsChunk(chunk)
      modifies this`state, this`discardedLines, this`history
      ensures Valid() && state.Keys == old(state.Keys)
      ensures old(history).Has(key) && history == old(history).Chunk(key, chunk, sizeLimit)
      ensures line == NewLine(old(history).At(key).consumed, chunk, sizeLimit)
    {
      ChunkKeepsConsistent(state, history, sizeLimit, key, chunk);
      var s, discarded;
      s, line, discarded := Advance(state[key], chunk, sizeLimit, history.At(key).consumed);
      discardedLines := discardedLines + discarded;
      history := history.Chunk(key, chunk, sizeLimit);
      state := state[key := s];
    }

    /** One round of the inner loop: `readline`, then what follows. Nothing taken means the end of the file. */
    method TakeLine(ghost was: History, key: string, content: bytes, ghost lines: seq<bytes>, n: nat)
      returns (line: Option<bytes>, taken: nat)
      requires Valid() && history.Has(key) && 0 < n && |history.At(key).consumed| <= |content|
      requires Drained(was, history, key, content, |history.At(key).consumed|, lines)
      modifies this`state, this`discardedLines, this`history
      ensures Valid() && state.Keys == old(state.Keys) && history.Has(key)
      ensures taken <= n && |history.At(key).consumed| == |old(history).At(key).consumed| + taken <= |content|
      ensures taken == 0 <==> |old(history).At(key).consumed| == |content|
      ensures taken == 0 ==> line == None
      ensures Drained(was, history, key, content, |history.At(key).consumed|, lines + Optional(line))
    {
      OffsetIs(state, history, sizeLimit, key);
      var chunk := ReadLine(content, state[key].offset, n);
      ReadLineEnds(content, |history.At(key).consumed|, n);
      line, taken := None, |chunk|;
      if chunk == [] {
        assert lines + Optional(None) == lines;
      } else {
        line := TakeFound(was, key, content, lines, chunk);
      }
    }

    method TakeFound(ghost was: History, key: string, ghost content: bytes, ghost lines: seq<bytes>, chunk: bytes)
      returns (line: Option<bytes>)
      requires Valid() && history.Has(key) && IsChunk(chunk)
      requires |history.At(key).consumed| + |chunk| <= |content|
      requires chunk == content[|history.At(key).consumed|..|history.At(key).consumed| + |chunk|]
      requires Drained(was, history, key, content, |history.At(key).consumed|, lines)
      modifies this`state, this`discardedLines, this`history
      ensures Valid() && state.Keys == old(state.Keys) && history.Has(key)
      ensures |history.At(key).consumed| == |old(history).At(key).consumed| + |chunk|
      ensures Drained(was, history, key, content, |history.At(key).consumed|, lines + Optional(line))
    {
      FoundChunk(was, history, key, content, lines, chunk, sizeLimit);
      line := TakeChunk(key, chunk);
    }

    /** The inner loop of one visit; `got` lines were delivered earlier in the same call. */
    method Drain(key: string, content: bytes, lineLimit: nat, got: nat, budget: nat)
      returns (lines: seq<bytes>, left: nat)
      requires Valid() && history.Has(key) && |history.At(key).consumed| <= |content|
      requires got < lineLimit && 0 < budget
      modifies this`state, this`discardedLines, this`history
      ensures Valid() && state.Keys == old(state.Keys)
      ensures old(history).Has(key) && history.Has(key) && |history.At(key).consumed| <= |content|
      ensures Drained(old(history), history, key, content, |history.At(key).consumed|, lines)
      ensures left + |history.At(key).consumed| == budget + |old(history).At(key).consumed|
      ensures got + |lines| <= lineLimit
      ensures |old(history).At(key).consumed| < |content| ==>
        |old(history).At(key).consumed| < |history.At(key).consumed|
    {
      ghost var was := history;
      lines, left := [], budget;
      DrainedNothing(was, key, content);
      while got + |lines| < lineLimit && left > 0
        invariant Valid() && state.Keys == old(state.Keys) && history.Has(key)
        invariant |was.At(key).consumed| <= |history.At(key).consumed| <= |content|
        invariant Drained(was, history, key, content, |history.At(key).consumed|, lines)
        invariant left + |history.At(key).consumed| == budget + |was.At(key).consumed|
        invariant got + |lines| <= lineLimit
        invariant left == budget ==> lines == []
      {
        var line, taken := TakeLine(was, key, content, lines, if sizeLimit < left then sizeLimit else left);
        lines := lines + Optional(line);
        if taken == 0 {
          break;
        }
        left := left - taken;
      }
    }

    /** One visit to a path: open it, begin a new epoch if the file was replaced or truncated, read on. */
    method Visit(key: string, files: Files, lineLimit: nat, got: nat, budget: nat)
      returns (lines: seq<bytes>, left: nat)
      requires Valid() && key in state && got < lineLimit && 0 < budget
      modifies this`state, this`discardedLines, this`history
      ensures Valid() && state.Keys == old(state.Keys)
      ensures got + |lines| <= lineLimit && left <= budget
      ensures Visited(old(history), history, key, files, lines, budget - left)
    {
      lines, left := [], budget;
      var file := FileAt(files, key);
      if !file.Regular? {
        return;
      }
      assert Tracked(state, history, sizeLimit, key);
      if state[key].identity != Some(file.identity) || |file.content| < state[key].offset {
        ResetKeepsConsistent(state, history, sizeLimit, key, file.identity);
        SumAppend(history.discards, 0);
        history := history.Reset(key, file.identity);
        state := state[key := PathState(Some(file.identity), 0, [], false)];
      }
      assert history == Resumed(old(history), key, file);
      lines, left := Drain(key, file.content, lineLimit, got, budget);
    }

    /** The path visited at round `j` of a call that starts at path `start`. */
    function PathAt(start: nat, j: nat): string {
      if paths == [] then "" else paths[(start + j) % |paths|].absolute
    }

    /** A call after `visits` rounds, `was` being the history before it and `read` the bytes read in it. */
    ghost predicate Progressed(
      was: History, start: nat, files: Files, visits: nat, results: seq<bytes>, read: nat)
      reads this
    {
      && Follows(was, history, files) && Fresh(was, history, files)
      && Delivers(was, history, results)
      && Bytes(history) == Bytes(was) + read
      && (forall j: nat {:trigger PathAt(start, j)} :: j < visits ==>
            Advanced(was, history, PathAt(start, j), FileAt(files, PathAt(start, j))))
      && (forall key {:trigger Unvisited(was, history, key)} ::
            (forall j: nat :: j < visits ==> PathAt(start, j) != key) ==> Unvisited(was, history, key))
    }

    method Round(ghost was: History, ghost start: nat, key: string, files: Files, lineLimit: nat,
                 ghost visits: nat, results: seq<bytes>, budget: nat)
      returns (lines: seq<bytes>, left: nat)
      requires Valid() && key in state && |results| < lineLimit && 0 < budget <= maxBytes
      requires Progressed(was, start, files, visits, results, maxBytes - budget) && key == PathAt(start, visits)
      modifies this`state, this`discardedLines, this`history
      ensures Valid() && state.Keys == old(state.Keys)
      ensures |results| + |lines| <= lineLimit && left <= budget
      ensures Progressed(was, start, files, visits + 1, results + lines, maxBytes - left)
    {
      ghost var b := history;
      lines, left := Visit(key, files, lineLimit, |results|, budget);
      VisitFollows(b, history, key, files, lines, budget - left);
      FollowsTransitive(was, b, history, files);
      VisitFresh(was, b, history, key, files, lines, budget - left);
      VisitBytes(b, history, key, files, lines, budget - left);
      VisitDelivers(was, b, history, key, files, results, lines, budget - left);
      assert Advanced(was, b, key, FileAt(files, key)) || Unvisited(was, b, key);
      VisitAdvances(was, b, history, key, files, lines, budget - left);
      forall other | other != key
        ensures Advanced(was, b, other, FileAt(files, other)) ==> Advanced(was, history, other, FileAt(files, other))
        ensures Unvisited(was, b, other) ==> Unvisited(was, history, other)
      {
        VisitElsewhere(was, b, history, key, other, files, lines, budget - left);
      }
    }

    /** One round of the outer loop: the next path in turn, and what is read there. */
    method Turn(ghost was: History, start: nat, index: nat, files: Files, lineLimit: nat, results: seq<bytes>,
                budget: nat)
      returns (lines: seq<bytes>, left: nat)
      requires Valid() && index < |paths| && |results| < lineLimit && 0 < budget <= maxBytes
      requires Progressed(was, start, files, index, results, maxBytes - budget)
      modifies this`nextPath, this`state, this`discardedLines, this`history
      ensures Valid() && nextPath == (start + (index + 1)) % |paths|
      ensures |results| + |lines| <= lineLimit && left <= budget
      ensures Progressed(was, start, files, index + 1, results + lines, maxBytes - left)
    {
      var pathIndex := (start + index) % |paths|;
      ModAdd(start + index, 1, |paths|);
      nextPath := (pathIndex + 1) % |paths|;
      lines, left := Round(was, start, paths[pathIndex].absolute, files, lineLimit, index, results, budget);
    }

    lemma NothingYet(start: nat, files: Files)
      ensures Progressed(history, start, files, 0, [], 0)
    {
      forall e: nat ensures EpochFollows(history, history, files, e) && FreshEpoch(history, history, files, e) {
      }
    }

    /** `read_incremental`. `visits` paths are visited, in round-robin order from where the last call stopped,
        and `read` bytes are read. */
    method ReadIncremental(maximum: Option<int>, files: Files)
      returns (results: seq<bytes>, ghost visits: nat, ghost read: nat)
      requires Valid()
      modifies this`nextPath, this`state, this`discardedLines, this`history
      ensures Valid()
      ensures visits <= |paths| && (visits > 0 ==> nextPath == (old(nextPath) + visits) % |paths|)
      ensures visits == 0 <==> (maximum.Some? && maximum.value <= 0) || paths == []
      ensures visits == 0 ==> results == [] && history == old(history) && nextPath == old(nextPath)
      ensures |results| <= maxLines && (maximum.Some? && 0 <= maximum.value ==> |results| <= maximum.value)
      ensures read <= maxBytes && Progressed(old(history), old(nextPath), files, visits, results, read)
    {
      results, visits, read := [], 0, 0;
      NothingYet(nextPath, files);
      var lineLimit := if maximum == None || maxLines < maximum.value then maxLines else maximum.value;
      if lineLimit <= 0 {
        return;
      }
      var bytesLeft := maxBytes;
      var count := |paths|;
      var start := nextPath;
      ghost var was := history;
      for index := 0 to count
        invariant visits == index && Valid() && read + bytesLeft == maxBytes && |results| <= lineLimit
        invariant visits <= count && (visits > 0 ==> nextPath == (start + visits) % count)
        invariant visits == 0 ==> results == [] && read == 0 && history == was && nextPath == start
        invariant Progressed(was, start, files, visits, results, read)
      {
        if |results| >= lineLimit || bytesLeft <= 0 {
          break;
        }
        var lines, left := Turn(was, start, index, files, lineLimit, results, bytesLeft);
        results := results + lines;
        bytesLeft := left;
        read := maxBytes - left;
        visits := visits + 1;
      }
    }

    ghost predicate AllVisitedIn(files: seq<Files>, calls: Calls)
      requires |calls.starts| <= |files| && calls.Consistent()
    {
      forall i {:trigger calls.Has(i)} :: calls.Has(i) ==> VisitedIn(files[i], calls, i)
    }

    /** Call `i` read on every path it visited. */
    ghost predicate VisitedIn(files: Files, calls: Calls, i: int)
      requires calls.Consistent() && calls.Has(i)
    {
      forall j: nat {:trigger PathAt(calls.starts[i], j)} :: j < calls.visits[i] ==>
        Advanced(calls.histories[i], calls.histories[i + 1], PathAt(calls.starts[i], j),
                 FileAt(files, PathAt(calls.starts[i], j)))
    }

    lemma OneMoreCall(files: seq<Files>, calls: Calls, h: History, start: nat, n: nat)
      requires calls.Consistent() && |calls.starts| < |files| && AllVisitedIn(files, calls)
      requires forall j: nat {:trigger PathAt(start, j)} :: j < n ==>
                 Advanced(calls.Last(), h, PathAt(start, j), FileAt(files[|calls.starts|], PathAt(start, j)))
      ensures AllVisitedIn(files, calls.Then(h, start, n))
    {
      var more := calls.Then(h, start, n);
      forall i | more.Has(i) ensures VisitedIn(files[i], more, i) {
        if calls.Has(i) {
          assert VisitedIn(files[i], calls, i);
        }
      }
    }

    /** The record of a row of calls leads up to the present. */
    ghost predicate Recorded(files: seq<Files>, calls: Calls)
      reads this
    {
      && Valid() && calls.Consistent() && |calls.starts| <= |files| && calls.Last() == history
      && RotatesTo(calls.starts, calls.visits, |paths|, nextPath) && AllVisitedIn(files, calls)
    }

    method OneCall(maximum: Option<int>, files: seq<Files>, i: nat, ghost calls: Calls) returns (ghost more: Calls)
      requires Recorded(files, calls) && |calls.starts| == i < |files| && (maximum.Some? ==> 0 < maximum.value)
      modifies this`nextPath, this`state, this`discardedLines, this`history
      ensures Recorded(files, more) && more.histories[0] == calls.histories[0] && |more.starts| == |calls.starts| + 1
    {
      ghost var start := nextPath;
      var results;
      ghost var n, read;
      results, n, read := ReadIncremental(maximum, files[i]);
      OneMoreCall(files, calls, history, start, n);
      RotatesSnoc(calls.starts, calls.visits, |paths|, start, n);
      more := calls.Then(history, start, n);
    }

    /** As many consecutive calls as there are paths, each with a positive line limit; the files may change between
        them. Every path is visited, and its unread bytes, if it has any then, are read on. */
    method ConsecutiveCalls(limits: seq<Option<int>>, files: seq<Files>) returns (ghost calls: Calls)
      requires Valid() && paths != [] && |limits| == |files| == |paths| && ArePositive(limits)
      modifies this`nextPath, this`state, this`discardedLines, this`history
      ensures Recorded(files, calls) && |calls.starts| == |paths| && calls.histories[0] == old(history)
      ensures forall p :: 0 <= p < |paths| ==> IsReadOn(files, calls, paths[p].absolute)
    {
      calls := Calls([history], [], []);
      for i := 0 to |files|
        invariant Recorded(files, calls) && |calls.starts| == i && calls.histories[0] == old(history)
      {
        calls := OneCall(limits[i], files, i, calls);
      }
      forall p | 0 <= p < |paths| ensures IsReadOn(files, calls, paths[p].absolute) {
        PathIsVisited(files, calls, p);
      }
    }

    lemma PathIsVisited(files: seq<Files>, calls: Calls, p: nat)
      requires Recorded(files, calls) && |files| == |calls.starts| == |paths| && p < |paths|
      ensures IsReadOn(files, calls, paths[p].absolute)
    {
      EveryEntryVisited(calls.starts, calls.visits, |paths|, p);
      var call: nat, j: nat :| call < |paths| && Reaches(calls.starts, calls.visits, |paths|, call, j, p);
      assert calls.Has(call) && VisitedIn(files[call], calls, call);
      assert PathAt(calls.starts[call], j) == paths[p].absolute;
    }
    /** A call has read a path on, or left it alone. */
    lemma EitherWay(was: History, start: nat, files: Files, visits: nat, results: seq<bytes>, read: nat, key: string)
      requires Progressed(was, start, files, visits, results, read)
      ensures Advanced(was, history, key, FileAt(files, key)) || Unvisited(was, history, key)
    {
      if j: nat :| j < visits && PathAt(start, j) == key {
        assert Advanced(was, history, PathAt(start, j), FileAt(files, PathAt(start, j)));
      }
    }

    method GrowingCall(limit: Option<int>, files: seq<Files>, i: nat,
                       ghost key: string, ghost identity: Identity, ghost content: bytes)
      returns (lines: seq<bytes>)
      requires Valid() && i < |files| && Growing(history, files, i, key, identity, content)
      modifies this`nextPath, this`state, this`discardedLines, this`history
      ensures Valid() && Delivers(old(history), history, lines)
      ensures Growing(history, files, i + 1, key, identity, content)
      ensures |Consumed(old(history), key)| <= |Consumed(history, key)|
      ensures (limit.Some? ==> 0 < limit.value) && |paths| == 1 && IsPath(paths, key) ==>
                !LeftUnread(old(history), history, key, FileAt(files[i], key))
    {
      ghost var was, start := history, nextPath;
      ghost var visits, read;
      lines, visits, read := ReadIncremental(limit, files[i]);
      EitherWay(was, start, files[i], visits, lines, read, key);
      if (limit.Some? ==> 0 < limit.value) && |paths| == 1 && IsPath(paths, key) {
        assert PathAt(start, 0) == key;
      }
      GrowsOnCall(was, history, files, i, key, identity, content);
    }

    /** Any number of calls with any line limits, while the file at `key` only grows: all lines ever delivered from it
        are the fitting lines of the bytes consumed, and these are a prefix of the file. A reader of this path alone
        consumes, with positive limits, a byte per call or all that was there at first. */
    method ReadGrowing(limits: seq<Option<int>>, files: seq<Files>,
                       ghost key: string, ghost identity: Identity, ghost content: bytes)
      returns (results: seq<bytes>)
      requires Valid() && |limits| == |files| && OnlyGrows(files, key, identity, content)
      requires forall e :: 0 <= e < |history.epochs| ==> history.epochs[e].key != key
      modifies this`nextPath, this`state, this`discardedLines, this`history
      ensures Valid() && Delivers(old(history), history, results)
      ensures LinesFrom(history.epochs, history.output, key) == Emitted(Lines(Consumed(history, key)), sizeLimit)
      ensures OneLife(history, key, identity, content) && Consumed(history, key) <= content
      ensures forall texts, crs, rest {:trigger Holds(Consumed(history, key), texts, crs, rest)} ::
        Holds(Consumed(history, key), texts, crs, rest) ==>
          LinesFrom(history.epochs, history.output, key) == Fitting(texts, crs, sizeLimit)
      ensures ArePositive(limits) && |paths| == 1 && IsPath(paths, key) && AlwaysReadable(files, key) ==>
        |files| <= |Consumed(history, key)| || |FileAt(files[0], key).content| <= |Consumed(history, key)|
    {
      results := [];
      for i := 0 to |files|
        invariant Valid() && Delivers(old(history), history, results)
        invariant Growing(history, files, i, key, identity, content)
        invariant ArePositive(limits) && |paths| == 1 && IsPath(paths, key) && AlwaysReadable(files, key) ==>
          i <= |Consumed(history, key)| || |FileAt(files[0], key).content| <= |Consumed(history, key)|
      {
        ghost var was := history;
        var lines := GrowingCall(limits[i], files, i, key, identity, content);
        DeliversMore(old(history), was, history, results, lines);
        results := results + lines;
      }
      OneLifeLines(state, history, sizeLimit, key, identity, content);
      AllTextsAreRead(Consumed(history, key), sizeLimit);
    }

    /** A new reader of one path, called often enough on a file that has come to rest, has returned exactly the texts
        written in the file whose lines fit, in order and each once, whatever limits and budgets cut the calls; it has
        counted all others, and an unfinished line that does not fit. If every line fits, the texts are all returned. */
    method ReadAll(limits: seq<Option<int>>, files: seq<Files>, ghost identity: Identity, ghost content: bytes)
      returns (results: seq<bytes>)
      requires Valid() && |paths| == 1 && history == History([], map[], [], [])
      requires |limits| == |files| && ArePositive(limits) && |content| <= |files|
      requires forall i :: 0 <= i < |files| ==>
        paths[0].absolute in files[i] && files[i][paths[0].absolute] == Regular(identity, content)
      modifies this`nextPath, this`state, this`discardedLines, this`history
      ensures Valid() && results == Emitted(Lines(content), sizeLimit)
      ensures forall texts, crs, rest {:trigger Holds(content, texts, crs, rest)} ::
        Holds(content, texts, crs, rest) ==>
          && results == Fitting(texts, crs, sizeLimit)
          && discardedLines == |texts| - |results| + (if |rest| > sizeLimit then 1 else 0)
          && ((forall i :: 0 <= i < |texts| ==> |texts[i]| + (if crs[i] then 2 else 1) <= sizeLimit) ==>
                results == texts)
    {
      ghost var key := paths[0].absolute;
      results := ReadGrowing(limits, files, key, identity, content);
      assert Consumed(history, key) == content;
      assert history.output[0..] == history.output;
      OnlyOneLife(state, history, sizeLimit, key, identity, content);
      AllTextsAreRead(content, sizeLimit);
    }
  }

  /** Chunk invariance: two readers of one size limit that have consumed the same bytes in some epoch, through
      whatever calls, budgets and growth, have delivered the same lines from it, namely the newline-terminated
      lines of those bytes that fit the limit; they have dropped equally many, and remember the same. */
  lemma SameBytesSameReading(r1: BoundedLogReader, r2: BoundedLogReader, k1: string, k2: string)
    requires r1.Valid() && r2.Valid() && r1.sizeLimit == r2.sizeLimit
    requires r1.history.Has(k1) && r2.history.Has(k2)
    requires r1.history.At(k1).consumed == r2.history.At(k2).consumed
    ensures k1 in r1.state && k2 in r2.state
    ensures r1.state[k1].(identity := None) == r2.state[k2].(identity := None)
    ensures LinesOf(r1.history.output, r1.history.current[k1]) == LinesOf(r2.history.output, r2.history.current[k2])
         == Emitted(Lines(r1.history.At(k1).consumed), r1.sizeLimit)
    ensures |r1.history.discards| == |r1.history.epochs| && |r2.history.discards| == |r2.history.epochs|
    ensures r1.history.discards[r1.history.current[k1]] == r2.history.discards[r2.history.current[k2]]
  {
    assert Tracked(r1.state, r1.history, r1.sizeLimit, k1) && Tracked(r2.state, r2.history, r2.sizeLimit, k2);
    assert Accounted(r1.history, r1.sizeLimit, r1.history.current[k1]);
    assert Accounted(r2.history, r2.sizeLimit, r2.history.current[k2]);
  }

  /** What a reader has delivered from the epoch a path is in: the texts written in the consumed bytes that fit. */
  lemma DeliveredTexts(r: BoundedLogReader, key: string, texts: seq<bytes>, crs: seq<bool>, rest: bytes)
    requires r.Valid() && r.history.Has(key) && Holds(r.history.At(key).consumed, texts, crs, rest)
    ensures LinesOf(r.history.output, r.history.current[key]) == Fitting(texts, crs, r.sizeLimit)
    ensures r.history.current[key] < |r.history.discards|
    ensures r.history.discards[r.history.current[key]]
         == |texts| - |Fitting(texts, crs, r.sizeLimit)| + (if |rest| > r.sizeLimit then 1 else 0)
  {
    assert Accounted(r.history, r.sizeLimit, r.history.current[key]);
    TextsAreRead(r.history.At(key).consumed, texts, crs, rest, r.sizeLimit);
  }

  /** The memory of an unfinished line never outgrows the size limit, for any path. */
  lemma PartialIsBounded(r: BoundedLogReader, key: string)
    requires r.Valid() && key in r.state
    ensures |r.state[key].partial| <= r.sizeLimit
    ensures r.state[key].discarding ==> r.state[key].partial == []
  {
    assert Tracked(r.state, r.history, r.sizeLimit, key);
  }
}
