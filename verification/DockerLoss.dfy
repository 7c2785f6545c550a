/** Exactly when a swallowed event can be lost: what must follow it in the feed for a call to move the cursor on. */
module DockerLoss {
  import opened ByteLines
  import opened DockerScan
  import opened DockerEvents
  import opened DockerCursor

  /** Record `k` is an event from the cursor on that has this key. */
  predicate HasKey(parse: Parser, c: Cursor, feed: seq<Record>, k: int, key: Key)
    requires 0 <= k < |feed|
  {
    WellFormed(parse, feed[k]) && c.since <= feed[k].second && RecordKey(parse, feed[k]) == key
  }

  /** Reading on from the cursor, record `k` is an event not seen before. */
  predicate IsNew(parse: Parser, c: Cursor, feed: seq<Record>, k: nat)
    requires k < |feed|
  {
    && WellFormed(parse, feed[k]) && c.since <= feed[k].second
    && RecordKey(parse, feed[k]) !in c.dedupe
    && forall i :: 0 <= i < k ==> !HasKey(parse, c, feed, i, RecordKey(parse, feed[k]))
  }

  /** Record `k` makes a call that reads it raise. */
  predicate Raises(parse: Parser, c: Cursor, feed: seq<Record>, k: nat)
    requires k < |feed|
  {
    c.since <= feed[k].second && parse(Body(feed[k].line)) == Raise
  }

  /** Record `k` makes a call that returns it raise. */
  predicate Resists(parse: Parser, c: Cursor, feed: seq<Record>, k: nat)
    requires k < |feed|
  {
    IsNew(parse, c, feed, k) && !parse(Body(feed[k].line)).enriches
  }

  predicate NoneRaises(parse: Parser, c: Cursor, feed: seq<Record>, n: nat)
    requires n <= |feed|
  {
    forall k :: 0 <= k < n ==> !Raises(parse, c, feed, k)
  }

  predicate NoneResists(parse: Parser, c: Cursor, feed: seq<Record>, n: nat)
    requires n <= |feed|
  {
    forall k :: 0 <= k < n ==> !Resists(parse, c, feed, k)
  }

  /** Event `i` is swallowed, event `j` is a new one of a later second, and no record up to `j` makes a call raise. */
  ghost predicate Endangers(parse: Parser, c: Cursor, feed: seq<Record>, i: nat, j: nat) {
    && i < |feed| && j < |feed| && WellFormed(parse, feed[i])
    && c.since <= feed[i].second < feed[j].second && Swallowed(c, RecordKey(parse, feed[i]))
    && IsNew(parse, c, feed, j) && NoneRaises(parse, c, feed, j + 1) && NoneResists(parse, c, feed, j + 1)
  }

  /** Some call on this feed breaks the promise. */
  ghost predicate CanLose(parse: Parser, c: Cursor, feed: seq<Record>) {
    exists call, c' {:trigger IsCall(parse, c, call, c')} ::
      IsServed(parse, feed, c, call) && IsCall(parse, c, call, c') && !Promise(parse, c', feed)
  }

  // ---- The scan of the first records of a feed --------------------------------------------------------

  /** The lines of the first `n` records that are served. */
  function Read(c: Cursor, feed: seq<Record>, until: int, n: nat): seq<bytes>
    requires n <= |feed|
  {
    LinesOf(Served(feed[..n], c.since, until))
  }

  /** A call's scan of them. */
  function ScanTo(parse: Parser, c: Cursor, feed: seq<Record>, until: int, cap: nat, n: nat): Scan
    requires n <= |feed|
  {
    After(parse, Read(c, feed, until, n), c.dedupe, cap)
  }

  lemma ScanToSnoc(parse: Parser, c: Cursor, feed: seq<Record>, until: int, cap: nat, n: nat)
    requires n < |feed| && feed[n].second <= until
    ensures ScanTo(parse, c, feed, until, cap, n + 1)
         == var s := ScanTo(parse, c, feed, until, cap, n);
            if c.since <= feed[n].second then Step(s, parse(Body(feed[n].line)), cap) else s
  {
    assert feed[..n + 1][..n] == feed[..n];
    var lines := Read(c, feed, until, n);
    if c.since <= feed[n].second {
      assert Read(c, feed, until, n + 1) == lines + [feed[n].line];
      AfterSnoc(parse, lines, feed[n].line, c.dedupe, cap);
    } else {
      assert Read(c, feed, until, n + 1) == lines;
    }
  }

  ghost predicate IsRecorded(parse: Parser, c: Cursor, feed: seq<Record>, n: nat, key: Key)
    requires n <= |feed|
  {
    key in c.dedupe || exists k :: 0 <= k < n && HasKey(parse, c, feed, k, key)
  }

  /** What a scan that still runs after `n` records has found. */
  ghost predicate Scanned(parse: Parser, c: Cursor, feed: seq<Record>, n: nat, s: Scan)
    requires n <= |feed|
  {
    && NoneRaises(parse, c, feed, n)
    && (AllEnrich(s.events) <==> NoneResists(parse, c, feed, n))
    && forall key {:trigger key in s.dedupe} :: key in s.dedupe <==> IsRecorded(parse, c, feed, n, key)
  }

  lemma NewIff(parse: Parser, c: Cursor, feed: seq<Record>, n: nat, s: Scan)
    requires n < |feed| && Scanned(parse, c, feed, n, s)
    requires WellFormed(parse, feed[n]) && c.since <= feed[n].second
    ensures IsNew(parse, c, feed, n) <==> RecordKey(parse, feed[n]) !in s.dedupe
  {
  }

  lemma RecordedSnoc(parse: Parser, c: Cursor, feed: seq<Record>, n: nat, key: Key)
    requires n < |feed|
    ensures IsRecorded(parse, c, feed, n + 1, key)
       <==> IsRecorded(parse, c, feed, n, key) || HasKey(parse, c, feed, n, key)
  {
  }

  lemma ScannedSnoc(parse: Parser, c: Cursor, feed: seq<Record>, n: nat, s: Scan, cap: nat, t: Scan)
    requires n < |feed| && Scanned(parse, c, feed, n, s) && s.status == t.status == Running
    requires t == if c.since <= feed[n].second then Step(s, parse(Body(feed[n].line)), cap) else s
    ensures Scanned(parse, c, feed, n + 1, t)
  {
    if WellFormed(parse, feed[n]) && c.since <= feed[n].second {
      NewIff(parse, c, feed, n, s);
    }
    forall key ensures key in t.dedupe <==> IsRecorded(parse, c, feed, n + 1, key) {
      RecordedSnoc(parse, c, feed, n, key);
    }
    EnrichSnoc(parse, c, feed, n, s, t);
  }

  lemma EnrichSnoc(parse: Parser, c: Cursor, feed: seq<Record>, n: nat, s: Scan, t: Scan)
    requires n < |feed| && (AllEnrich(s.events) <==> NoneResists(parse, c, feed, n))
    requires t.events == if IsNew(parse, c, feed, n) then s.events + [parse(Body(feed[n].line))] else s.events
    ensures AllEnrich(t.events) <==> NoneResists(parse, c, feed, n + 1)
  {
    assert NoneResists(parse, c, feed, n + 1) <==> NoneResists(parse, c, feed, n) && !Resists(parse, c, feed, n);
    if IsNew(parse, c, feed, n) {
      var e := parse(Body(feed[n].line));
      assert (s.events + [e])[|s.events|] == e;
      assert forall i :: 0 <= i < |s.events| ==> (s.events + [e])[i] == s.events[i];
    }
  }

  lemma {:induction false} ScanOfFeed(parse: Parser, c: Cursor, feed: seq<Record>, until: int, cap: nat, n: nat)
    requires n <= |feed| && forall k :: 0 <= k < n ==> feed[k].second <= until
    requires ScanTo(parse, c, feed, until, cap, n).status == Running
    ensures Scanned(parse, c, feed, n, ScanTo(parse, c, feed, until, cap, n))
  {
    if n == 0 {
      assert feed[..0] == [];
    } else {
      ScanToSnoc(parse, c, feed, until, cap, n - 1);
      ScanOfFeed(parse, c, feed, until, cap, n - 1);
      ScannedSnoc(parse, c, feed, n - 1, ScanTo(parse, c, feed, until, cap, n - 1), cap,
                  ScanTo(parse, c, feed, until, cap, n));
    }
  }

  /** With room for every record, a scan runs on while none raises. */
  lemma {:induction false} ScanRuns(parse: Parser, c: Cursor, feed: seq<Record>, until: int, cap: nat, n: nat)
    requires n <= |feed| && n < cap && NoneRaises(parse, c, feed, n)
    requires forall k :: 0 <= k < n ==> feed[k].second <= until
    ensures ScanTo(parse, c, feed, until, cap, n).status == Running
    ensures |ScanTo(parse, c, feed, until, cap, n).events| <= n
  {
    if n == 0 {
      assert feed[..0] == [];
    } else {
      ScanToSnoc(parse, c, feed, until, cap, n - 1);
      ScanRuns(parse, c, feed, until, cap, n - 1);
      assert !Raises(parse, c, feed, n - 1);
    }
  }

  // ---- A danger leads to a loss ---------------------------------------------------------------------------

  lemma {:induction false} HalfOf(keys: set<Key>, n: nat) returns (half: set<Key>)
    requires n <= |keys|
    ensures half <= keys && |half| == n
  {
    if n == |keys| {
      half := keys;
    } else {
      var k :| k in keys;
      half := HalfOf(keys - {k}, n);
    }
  }

  lemma Prunable(dedupe: set<Key>) returns (kept: set<Key>)
    ensures Pruned(dedupe, kept)
  {
    kept := HalfOf(dedupe, if |dedupe| > MAX_DEDUPE_ENTRIES then |dedupe| / 2 else |dedupe|);
    if |dedupe| <= MAX_DEDUPE_ENTRIES {
      SubsetOfSameSize(kept, dedupe);
    }
  }

  lemma SubsetOfSameSize(part: set<Key>, all: set<Key>)
    requires part <= all && |part| == |all|
    ensures part == all
  {
    assert all == part + (all - part);
  }

  /** A stream of these lines that ends well: the call that reads it. */
  lemma ReadsLines(parse: Parser, c: Cursor, lines: seq<bytes>, until: int, cap: nat) returns (call: Call, c': Cursor)
    requires AreLines(lines) && 0 < cap && After(parse, lines, c.dedupe, cap).status == Running
    requires AllEnrich(After(parse, lines, c.dedupe, cap).events)
    ensures IsCall(parse, c, call, c') && call.until == until && call.reply == Stream([Join(lines)], false, false)
    ensures AllEvents(After(parse, lines, c.dedupe, cap).events)
    ensures c'.since == NewSince(parse, c, call.reply, until, call.cap)
    ensures c'.since == NextSince(c.since, After(parse, lines, c.dedupe, cap).events, until)
  {
    var s := After(parse, lines, c.dedupe, cap);
    JoinOne(Join(lines));
    LinesUnique(lines, []);
    assert Join(lines) + [] == Join(lines);
    ScanIsFresh(parse, lines, c.dedupe, cap);
    var kept := Prunable(s.dedupe);
    call := Call(Stream([Join(lines)], false, false), until, cap, s.events, false);
    c' := Cursor(c.start, NextSince(c.since, s.events, until), kept, c.returned + Keys(s.events));
  }

  /** The first records of a feed are a prefix of what is served. */
  lemma {:induction false} ReadIsPrefix(parse: Parser, c: Cursor, feed: seq<Record>, until: int, n: nat)
    requires n <= |feed|
    ensures Read(c, feed, until, n) <= LinesOf(Served(feed, c.since, until))
    decreases |feed|
  {
    if n == |feed| {
      assert feed[..n] == feed;
    } else {
      var init := feed[..|feed| - 1];
      assert init[..n] == feed[..n];
      ReadIsPrefix(parse, c, init, until, n);
    }
  }

  lemma PrefixJoins(part: seq<bytes>, all: seq<bytes>)
    requires part <= all
    ensures Join(part) <= Join(all)
  {
    var rest := JoinRest(all, |part|);
    assert all[..|part|] == part;
  }

  lemma LinesOfFeed(parse: Parser, feed: seq<Record>)
    requires IsFeed(parse, feed)
    ensures AreLines(LinesOf(feed))
  {
  }

  lemma ServedUpTo(parse: Parser, c: Cursor, feed: seq<Record>, until: int, n: nat)
    requires IsFeed(parse, feed) && n <= |feed|
    ensures AreLines(Read(c, feed, until, n))
    ensures Join(Read(c, feed, until, n)) <= Join(LinesOf(Served(feed, c.since, until)))
  {
    FeedPrefix(parse, feed, feed[..n]);
    ServedIsFeed(parse, feed[..n], c.since, until);
    LinesOfFeed(parse, Served(feed[..n], c.since, until));
    ReadIsPrefix(parse, c, feed, until, n);
    PrefixJoins(Read(c, feed, until, n), LinesOf(Served(feed, c.since, until)));
  }

  /** The scan up to a new event ends with it. */
  lemma EndsNew(parse: Parser, c: Cursor, feed: seq<Record>, until: int, cap: nat, j: nat)
    requires j < |feed| && forall k :: 0 <= k <= j ==> feed[k].second <= until
    requires j + 1 < cap && IsNew(parse, c, feed, j) && NoneRaises(parse, c, feed, j + 1)
    ensures var events := ScanTo(parse, c, feed, until, cap, j + 1).events;
            events != [] && events[|events| - 1] == parse(Body(feed[j].line))
  {
    ScanRuns(parse, c, feed, until, cap, j);
    ScanOfFeed(parse, c, feed, until, cap, j);
    NewIff(parse, c, feed, j, ScanTo(parse, c, feed, until, cap, j));
    ScanToSnoc(parse, c, feed, until, cap, j);
  }

  lemma DangerLoses(parse: Parser, c: Cursor, feed: seq<Record>, i: nat, j: nat)
    requires IsFeed(parse, feed) && Promise(parse, c, feed) && Anchored(c, feed) && Endangers(parse, c, feed, i, j)
    ensures CanLose(parse, c, feed)
  {
    var until, cap, n := feed[j].second, j + 2, j + 1;
    ScanRuns(parse, c, feed, until, cap, n);
    ScanOfFeed(parse, c, feed, until, cap, n);
    ServedUpTo(parse, c, feed, until, n);
    var lines := Read(c, feed, until, n);
    var call, c' := ReadsLines(parse, c, lines, until, cap);
    EndsNew(parse, c, feed, until, cap, j);
    JoinOne(Join(lines));
    CallKeepsPromiseIff(parse, c, feed, feed, call, c');
  }

  // ---- A loss takes a danger ------------------------------------------------------------------------------

  /** Record `m` of what is served, in the feed. */
  lemma {:induction false} ServedIndex(feed: seq<Record>, since: int, until: int, m: nat) returns (j: nat)
    requires m < |Served(feed, since, until)|
    ensures j < |feed| && feed[j] == Served(feed, since, until)[m]
    ensures since <= feed[j].second <= until
    ensures Served(feed[..j], since, until) == Served(feed, since, until)[..m]
  {
    var init, last := feed[..|feed| - 1], feed[|feed| - 1];
    var served := Served(init, since, until);
    if m < |served| {
      j := ServedIndex(init, since, until, m);
      assert init[..j] == feed[..j];
      assert Served(feed, since, until)[..m] == served[..m];
    } else {
      j := |init|;
      assert Served(feed, since, until)[..m] == served;
    }
  }

  lemma {:induction false} EventsGrow(parse: Parser, lines: seq<bytes>, dedupe: set<Key>, cap: nat, m: nat)
    requires m <= |lines|
    ensures After(parse, lines[..m], dedupe, cap).events <= After(parse, lines, dedupe, cap).events
    decreases |lines|
  {
    if m == |lines| {
      assert lines[..m] == lines;
    } else {
      var init := lines[..|lines| - 1];
      assert init[..m] == lines[..m];
      EventsGrow(parse, init, dedupe, cap, m);
    }
  }

  lemma EnrichPrefix(part: seq<Parsed>, all: seq<Parsed>)
    requires part <= all && AllEnrich(all)
    ensures AllEnrich(part)
  {
    assert forall i :: 0 <= i < |part| ==> part[i] == all[i];
  }

  /** The record of a batch's last event, and the scan before it. */
  lemma LastRecord(parse: Parser, c: Cursor, feed: seq<Record>, lines: seq<bytes>, until: int, cap: nat)
    returns (j: nat, s: Scan)
    requires lines <= LinesOf(Served(feed, c.since, until))
    requires After(parse, lines, c.dedupe, cap).events != []
    ensures j < |feed| && WellFormed(parse, feed[j]) && c.since <= feed[j].second <= until
    ensures var events := After(parse, lines, c.dedupe, cap).events;
            s.events <= events && parse(Body(feed[j].line)) == events[|events| - 1]
    ensures s == ScanTo(parse, c, feed, until, cap, j) && s.status == Running
    ensures RecordKey(parse, feed[j]) !in s.dedupe
  {
    var served := Served(feed, c.since, until);
    var m := LastEvent(parse, lines, c.dedupe, cap);
    LineAt(served, lines, m);
    j := ServedIndex(feed, c.since, until, m);
    assert lines[..m] == LinesOf(served[..m]);
    EventsGrow(parse, lines, c.dedupe, cap, m);
    s := After(parse, lines[..m], c.dedupe, cap);
  }

  /** The last event of a batch that is returned: a new one of the feed, and no record up to it makes a call raise. */
  lemma LastOfBatch(parse: Parser, c: Cursor, feed: seq<Record>, lines: seq<bytes>, until: int, cap: nat)
    returns (j: nat)
    requires IsFeed(parse, feed) && lines <= LinesOf(Served(feed, c.since, until))
    requires After(parse, lines, c.dedupe, cap).events != [] && AllEnrich(After(parse, lines, c.dedupe, cap).events)
    ensures j < |feed| && IsNew(parse, c, feed, j)
    ensures NoneRaises(parse, c, feed, j + 1) && NoneResists(parse, c, feed, j + 1)
    ensures var events := After(parse, lines, c.dedupe, cap).events; parse(Body(feed[j].line)) == events[|events| - 1]
  {
    var events := After(parse, lines, c.dedupe, cap).events;
    var s;
    j, s := LastRecord(parse, c, feed, lines, until, cap);
    ScanOfFeed(parse, c, feed, until, cap, j);
    NewIff(parse, c, feed, j, s);
    EnrichPrefix(s.events, events);
    assert events[|events| - 1].enriches;
  }

  /** Where a call that moves the cursor puts it: the second of such an event. */
  lemma MovesToNew(parse: Parser, c: Cursor, feed: seq<Record>, reply: Reply, until: int, cap: nat) returns (j: nat)
    requires IsFeed(parse, feed) && c.since < NewSince(parse, c, reply, until, cap)
    requires reply.Stream? && Lines(Join(reply.chunks)) <= LinesOf(Served(feed, c.since, until))
    ensures j < |feed| && IsNew(parse, c, feed, j) && feed[j].second == NewSince(parse, c, reply, until, cap)
    ensures NoneRaises(parse, c, feed, j + 1) && NoneResists(parse, c, feed, j + 1)
  {
    j := LastOfBatch(parse, c, feed, Lines(Join(reply.chunks)), until, cap);
    FeedSecond(parse, feed, j);
  }

  lemma LossTakesDanger(parse: Parser, c: Cursor, feed: seq<Record>, call: Call, c': Cursor)
    returns (i: nat, j: nat)
    requires IsServed(parse, feed, c, call) && IsCall(parse, c, call, c')
    requires MovesPastSwallowed(parse, c, feed, call.reply, call.until, call.cap)
    ensures Endangers(parse, c, feed, i, j)
  {
    i :| 0 <= i < |feed| && WellFormed(parse, feed[i]) && Swallowed(c, RecordKey(parse, feed[i]))
         && c.since <= feed[i].second < NewSince(parse, c, call.reply, call.until, call.cap);
    assert call.reply.Stream?;
    MovingCall(parse, c, feed, call, c');
    j := MovesToNew(parse, c, feed, call.reply, call.until, call.cap);
  }

  /** Exactly when the promise is in danger: some call can lose an event if and only if a swallowed event at or after
      the cursor is followed by a new event of a later second, and no record up to that one makes a call raise. */
  lemma CanLoseIff(parse: Parser, c: Cursor, feed: seq<Record>)
    requires IsFeed(parse, feed) && Promise(parse, c, feed) && Anchored(c, feed)
    ensures CanLose(parse, c, feed) <==> exists i: nat, j: nat :: Endangers(parse, c, feed, i, j)
  {
    if CanLose(parse, c, feed) {
      var call, c' :| IsServed(parse, feed, c, call) && IsCall(parse, c, call, c') && !Promise(parse, c', feed);
      CallKeepsPromiseIff(parse, c, feed, feed, call, c');
      var i, j := LossTakesDanger(parse, c, feed, call, c');
    }
    if i: nat, j: nat :| Endangers(parse, c, feed, i, j) {
      DangerLoses(parse, c, feed, i, j);
    }
  }
}
