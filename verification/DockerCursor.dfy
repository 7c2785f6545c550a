/** What the `since` cursor and the deduplication set guarantee over a run of `read_events` calls, exceptions or not. */
module DockerCursor {
  import opened ByteLines
  import opened Collections
  import opened DockerScan
  import opened DockerEvents

  /** A line of the event feed and the second Docker files it under. */
  datatype Record = Record(second: int, line: bytes)

  predicate WellFormed(parse: Parser, r: Record) {
    parse(Body(r.line)).Event?
  }

  function RecordKey(parse: Parser, r: Record): Key
    requires WellFormed(parse, r)
  {
    KeyOf(parse(Body(r.line)))
  }

  /** The time an event carries lies in the second Docker files it under. */
  predicate CarriesSecond(e: Parsed, second: int)
    requires e.Event?
  {
    if e.time >= 10_000_000_000 then second * 1_000_000_000 <= e.time < (second + 1) * 1_000_000_000
    else second == e.time
  }

  /** The feed is in time order, seconds are positive, and events carry their own second. */
  predicate IsFeed(parse: Parser, feed: seq<Record>) {
    && (forall i :: 0 <= i < |feed| ==> IsLine(feed[i].line) && 0 < feed[i].second)
    && (forall i :: 0 <= i < |feed| && WellFormed(parse, feed[i]) ==>
          CarriesSecond(parse(Body(feed[i].line)), feed[i].second))
    && (forall i, j :: 0 <= i < j < |feed| ==> feed[i].second <= feed[j].second)
  }

  lemma FeedSecond(parse: Parser, feed: seq<Record>, i: nat)
    requires IsFeed(parse, feed) && i < |feed| && WellFormed(parse, feed[i])
    ensures SecondOf(RecordKey(parse, feed[i])) == feed[i].second
  {
    assert CarriesSecond(parse(Body(feed[i].line)), feed[i].second);
    SecondIs(parse(Body(feed[i].line)));
  }

  /** The records Docker serves for a `since` and an `until`. */
  function Served(feed: seq<Record>, since: int, until: int): seq<Record> {
    if feed == [] then []
    else
      var last := feed[|feed| - 1];
      Served(feed[..|feed| - 1], since, until) + (if since <= last.second <= until then [last] else [])
  }

  function LinesOf(records: seq<Record>): seq<bytes> {
    seq(|records|, i requires 0 <= i < |records| => records[i].line)
  }

  lemma {:induction false} ServedHas(feed: seq<Record>, since: int, until: int, r: Record)
    ensures r in Served(feed, since, until) <==> r in feed && since <= r.second <= until
  {
    if feed != [] {
      var init, last := feed[..|feed| - 1], feed[|feed| - 1];
      ServedHas(init, since, until, r);
      assert feed == init + [last];
    }
  }

  lemma {:induction false} ServedIsFeed(parse: Parser, feed: seq<Record>, since: int, until: int)
    requires IsFeed(parse, feed)
    ensures IsFeed(parse, Served(feed, since, until))
  {
    if feed != [] {
      var init, last := feed[..|feed| - 1], feed[|feed| - 1];
      ServedIsFeed(parse, init, since, until);
      assert [last][0] == feed[|feed| - 1];
      var served := Served(init, since, until);
      forall i | 0 <= i < |served| ensures served[i].second <= last.second {
        ServedHas(init, since, until, served[i]);
      }
      FeedSnoc(parse, served, last);
    }
  }

  lemma FeedSnoc(parse: Parser, feed: seq<Record>, last: Record)
    requires IsFeed(parse, feed) && IsFeed(parse, [last])
    requires forall i :: 0 <= i < |feed| ==> feed[i].second <= last.second
    ensures IsFeed(parse, feed + [last])
  {
    var one := [last];
    assert one[0] == last;
  }

  /** What arrives of the served records: a prefix of their bytes, in any chunks. */
  predicate Delivers(reply: Reply, served: seq<Record>) {
    reply.Stream? ==> Join(reply.chunks) <= Join(LinesOf(served))
  }

  /** The lines of a prefix are a prefix of the lines. */
  lemma PrefixLines(stream: bytes, ls: seq<bytes>)
    requires AreLines(ls) && stream <= Join(ls)
    ensures Lines(stream) <= ls
  {
    var rest := Join(ls)[|stream|..];
    assert Join(ls) == stream + rest;
    LinesAppend(stream, rest);
    LinesUnique(ls, []);
    assert Join(ls) + [] == Join(ls);
  }

  /** The call was answered from this feed. */
  ghost predicate IsServed(parse: Parser, feed: seq<Record>, c: Cursor, call: Call) {
    IsFeed(parse, feed) && Delivers(call.reply, Served(feed, c.since, call.until))
  }

  /** Every well-formed event older than the cursor, and not older than the first one, has been returned. */
  ghost predicate Promise(parse: Parser, c: Cursor, feed: seq<Record>) {
    forall i :: 0 <= i < |feed| && WellFormed(parse, feed[i]) && c.start <= feed[i].second < c.since ==>
      RecordKey(parse, feed[i]) in c.returned
  }

  /** The cursor is the second of a record, or has never moved. */
  ghost predicate Anchored(c: Cursor, feed: seq<Record>) {
    && c.start <= c.since
    && (c.since == c.start || exists i :: 0 <= i < |feed| && feed[i].second == c.since)
  }

  /** An event recorded by a call that raised: it has not been returned, and is taken for a duplicate. */
  ghost predicate Swallowed(c: Cursor, k: Key) {
    k in c.dedupe && k !in c.returned
  }

  /** The cursor after a call, from what the client remembers and what Docker answers. */
  function NewSince(parse: Parser, c: Cursor, reply: Reply, until: int, cap: nat): int {
    if reply.Unreachable? then c.since
    else
      var s := After(parse, Lines(Join(reply.chunks)), c.dedupe, cap);
      if BreaksOff(reply, s.status) || !AllEvents(s.events) || !AllEnrich(s.events) then c.since
      else NextSince(c.since, s.events, until)
  }

  /** A swallowed event of the feed lies between the cursor and where this call moves it. */
  ghost predicate MovesPastSwallowed(
    parse: Parser, c: Cursor, feed: seq<Record>, reply: Reply, until: int, cap: nat)
  {
    exists i :: && 0 <= i < |feed| && WellFormed(parse, feed[i])
                && c.since <= feed[i].second < NewSince(parse, c, reply, until, cap)
                && Swallowed(c, RecordKey(parse, feed[i]))
  }

  lemma LineAt(served: seq<Record>, lines: seq<bytes>, k: nat)
    requires lines <= LinesOf(served) && k < |lines|
    ensures k < |served| && lines[k] == served[k].line
  {
    assert LinesOf(served)[k] == lines[k];
  }

  /** The batch covers the served records before the new cursor. */
  lemma BatchCovers(parse: Parser, served: seq<Record>, lines: seq<bytes>, dedupe: set<Key>, cap: nat, k: nat)
    requires IsFeed(parse, served) && lines <= LinesOf(served) && k < |served| && WellFormed(parse, served[k])
    requires After(parse, lines, dedupe, cap).events != [] && AllEvents(After(parse, lines, dedupe, cap).events)
    requires var events := After(parse, lines, dedupe, cap).events;
             served[k].second < SecondOf(KeyOf(events[|events| - 1]))
    ensures RecordKey(parse, served[k]) in After(parse, lines, dedupe, cap).dedupe
  {
    var m := LastEvent(parse, lines, dedupe, cap);
    LineAt(served, lines, m);
    FeedSecond(parse, served, m);
    assert k < m;
    assert lines[..m][..k] == lines[..k];
    RunningBefore(parse, lines[..m], dedupe, cap, k);
    LineAt(served, lines, k);
    ScanCovers(parse, lines, dedupe, cap, k);
  }

  /** The new cursor is the second of a served record. */
  lemma NewCursor(parse: Parser, feed: seq<Record>, since: int, until: int, lines: seq<bytes>, dedupe: set<Key>, cap: nat)
    returns (i: nat)
    requires IsFeed(parse, feed) && lines <= LinesOf(Served(feed, since, until))
    requires After(parse, lines, dedupe, cap).events != [] && AllEvents(After(parse, lines, dedupe, cap).events)
    ensures i < |feed| && since <= feed[i].second <= until
    ensures feed[i].second == NextSince(since, After(parse, lines, dedupe, cap).events, until)
  {
    var served := Served(feed, since, until);
    ServedIsFeed(parse, feed, since, until);
    var m := LastEvent(parse, lines, dedupe, cap);
    LineAt(served, lines, m);
    ServedHas(feed, since, until, served[m]);
    i :| 0 <= i < |feed| && feed[i] == served[m];
  }

  lemma LastSecond(parse: Parser, served: seq<Record>, lines: seq<bytes>, dedupe: set<Key>, cap: nat)
    requires IsFeed(parse, served) && lines <= LinesOf(served)
    requires After(parse, lines, dedupe, cap).events != [] && AllEvents(After(parse, lines, dedupe, cap).events)
    ensures var events := After(parse, lines, dedupe, cap).events; SecondOf(KeyOf(events[|events| - 1])) != 0
  {
    var m := LastEvent(parse, lines, dedupe, cap);
    LineAt(served, lines, m);
    assert WellFormed(parse, served[m]);
  }

  /** The feed has grown at its end: records that were not there before are not earlier than the cursor. */
  lemma EarlierIsOld(parse: Parser, c: Cursor, feed: seq<Record>, feed': seq<Record>, i: nat)
    requires Anchored(c, feed) && feed <= feed' && IsFeed(parse, feed')
    requires i < |feed'| && c.start <= feed'[i].second < c.since
    ensures i < |feed| && feed[i] == feed'[i]
  {
    var j :| 0 <= j < |feed| && feed[j].second == c.since;
    assert feed'[j] == feed[j];
  }

  /** What a call that moves the cursor has read: the lines of some of the served records. */
  lemma MovingCall(parse: Parser, c: Cursor, feed: seq<Record>, call: Call, c': Cursor)
    requires IsServed(parse, feed, c, call) && IsCall(parse, c, call, c')
    ensures call.reply.Stream? ==>
              Lines(Join(call.reply.chunks)) <= LinesOf(Served(feed, c.since, call.until))
    ensures c'.since != c.since ==> call.reply.Stream? && !call.raised && call.events != []
  {
    if call.reply.Stream? {
      ServedIsFeed(parse, feed, c.since, call.until);
      PrefixLines(Join(call.reply.chunks), LinesOf(Served(feed, c.since, call.until)));
    }
  }

  lemma StaysAnchored(parse: Parser, c: Cursor, feed: seq<Record>, feed': seq<Record>, call: Call, c': Cursor)
    requires Anchored(c, feed) && feed <= feed'
    requires IsServed(parse, feed', c, call) && IsCall(parse, c, call, c')
    ensures Anchored(c', feed') && c.since <= c'.since
  {
    MovingCall(parse, c, feed', call, c');
    if c'.since != c.since {
      var i := NewCursor(parse, feed', c.since, call.until, Lines(Join(call.reply.chunks)), c.dedupe, call.cap);
    } else if i :| 0 <= i < |feed| && feed[i].second == c.since {
      assert feed'[i] == feed[i];
    }
  }

  /** A record the cursor moves past has been recorded by then. */
  lemma PassedIsRecorded(parse: Parser, c: Cursor, feed: seq<Record>, call: Call, c': Cursor, i: nat)
    requires IsServed(parse, feed, c, call) && IsCall(parse, c, call, c')
    requires i < |feed| && WellFormed(parse, feed[i]) && c.since <= feed[i].second < c'.since
    ensures call.reply.Stream? && !call.raised
    ensures RecordKey(parse, feed[i]) in After(parse, Lines(Join(call.reply.chunks)), c.dedupe, call.cap).dedupe
  {
    MovingCall(parse, c, feed, call, c');
    var lines, served := Lines(Join(call.reply.chunks)), Served(feed, c.since, call.until);
    var n := NewCursor(parse, feed, c.since, call.until, lines, c.dedupe, call.cap);
    ServedIsFeed(parse, feed, c.since, call.until);
    ServedHas(feed, c.since, call.until, feed[i]);
    var k :| 0 <= k < |served| && served[k] == feed[i];
    LastSecond(parse, served, lines, c.dedupe, call.cap);
    BatchCovers(parse, served, lines, c.dedupe, call.cap, k);
  }

  /** A record older than the new cursor has been returned, unless the cursor moved past it swallowed. */
  lemma ReturnedIff(
    parse: Parser, c: Cursor, feed: seq<Record>, feed': seq<Record>, call: Call, c': Cursor, i: nat)
    requires Promise(parse, c, feed) && Anchored(c, feed) && feed <= feed'
    requires IsServed(parse, feed', c, call) && IsCall(parse, c, call, c')
    requires i < |feed'| && WellFormed(parse, feed'[i]) && c.start <= feed'[i].second < c'.since
    ensures RecordKey(parse, feed'[i]) in c'.returned
       <==> !(c.since <= feed'[i].second && Swallowed(c, RecordKey(parse, feed'[i])))
  {
    if feed'[i].second < c.since {
      EarlierIsOld(parse, c, feed, feed', i);
    } else {
      PassedIsRecorded(parse, c, feed', call, c', i);
      ScanIsFresh(parse, Lines(Join(call.reply.chunks)), c.dedupe, call.cap);
    }
  }

  /** Exactly when one call keeps the promise, whether it raises or not: unless it moves the cursor past an event that
      an earlier call had swallowed. */
  lemma CallKeepsPromiseIff(parse: Parser, c: Cursor, feed: seq<Record>, feed': seq<Record>, call: Call, c': Cursor)
    requires Promise(parse, c, feed) && Anchored(c, feed) && feed <= feed'
    requires IsServed(parse, feed', c, call) && IsCall(parse, c, call, c')
    ensures Promise(parse, c', feed') <==> !MovesPastSwallowed(parse, c, feed', call.reply, call.until, call.cap)
  {
    forall i: nat | i < |feed'| && WellFormed(parse, feed'[i]) && c.start <= feed'[i].second < c'.since
      ensures RecordKey(parse, feed'[i]) in c'.returned
         <==> !(c.since <= feed'[i].second && Swallowed(c, RecordKey(parse, feed'[i])))
    {
      ReturnedIff(parse, c, feed, feed', call, c', i);
    }
  }

  /** Batches hold events of the served seconds only. */
  lemma {:induction false} BatchIsServed(
    parse: Parser, served: seq<Record>, lines: seq<bytes>, dedupe: set<Key>, cap: nat, since: int, k: Key)
    requires IsFeed(parse, served) && lines <= LinesOf(served) && AllEvents(After(parse, lines, dedupe, cap).events)
    requires forall i :: 0 <= i < |served| ==> since <= served[i].second
    requires k in Keys(After(parse, lines, dedupe, cap).events)
    ensures since <= SecondOf(k)
  {
    var init := lines[..|lines| - 1];
    var s, t := After(parse, init, dedupe, cap), After(parse, lines, dedupe, cap);
    LineAt(served, lines, |init|);
    ScanIsFresh(parse, init, dedupe, cap);
    if t.events != s.events && k !in Keys(s.events) {
      assert Keys(t.events) == Keys(s.events) + [RecordKey(parse, served[|init|])];
    } else {
      BatchIsServed(parse, served, init, dedupe, cap, since, k);
    }
  }

  /** What was once lost stays lost: the cursor is past it, so Docker never serves it again. */
  lemma LostStaysLost(parse: Parser, c: Cursor, feed: seq<Record>, feed': seq<Record>, call: Call, c': Cursor)
    requires !Promise(parse, c, feed) && Anchored(c, feed) && feed <= feed'
    requires IsServed(parse, feed', c, call) && IsCall(parse, c, call, c')
    ensures !Promise(parse, c', feed')
  {
    StaysAnchored(parse, c, feed, feed', call, c');
    MovingCall(parse, c, feed', call, c');
    var i :| 0 <= i < |feed| && WellFormed(parse, feed[i]) && c.start <= feed[i].second < c.since
             && RecordKey(parse, feed[i]) !in c.returned;
    assert feed'[i] == feed[i];
    var key := RecordKey(parse, feed[i]);
    if key in Keys(call.events) {
      var served := Served(feed', c.since, call.until);
      ServedIsFeed(parse, feed', c.since, call.until);
      forall j | 0 <= j < |served| ensures c.since <= served[j].second {
        ServedHas(feed', c.since, call.until, served[j]);
      }
      BatchIsServed(parse, served, Lines(Join(call.reply.chunks)), c.dedupe, call.cap, c.since, key);
    }
  }

  // ---- Whole runs ----------------------------------------------------------------------------------

  ghost predicate ServedAt(
    parse: Parser, feeds: seq<seq<Record>>, calls: seq<Call>, cursors: seq<Cursor>, i: nat)
    requires |feeds| == |calls| && |cursors| == |calls| + 1
  {
    i < |calls| ==> IsServed(parse, feeds[i], cursors[i], calls[i])
  }

  /** All calls of a client, answered from a feed that grows at its end between them. */
  ghost predicate IsRun(
    parse: Parser, now: int, feeds: seq<seq<Record>>, calls: seq<Call>, cursors: seq<Cursor>)
  {
    && IsTrace(parse, now, calls, cursors) && |feeds| == |calls|
    && (forall i: nat {:trigger ServedAt(parse, feeds, calls, cursors, i)} :: ServedAt(parse, feeds, calls, cursors, i))
    && (forall i, j :: 0 <= i < j < |feeds| ==> feeds[i] <= feeds[j])
  }

  /** The feed as the last of the first `n` calls saw it. */
  function FeedAt(feeds: seq<seq<Record>>, n: nat): seq<Record>
    requires n <= |feeds|
  {
    if n == 0 then [] else feeds[n - 1]
  }

  /** Call `i` moves the cursor past an event that an earlier call had swallowed. */
  ghost predicate LosesAt(
    parse: Parser, feeds: seq<seq<Record>>, calls: seq<Call>, cursors: seq<Cursor>, i: nat)
    requires |feeds| == |calls| && |cursors| == |calls| + 1
  {
    i < |feeds| && MovesPastSwallowed(parse, cursors[i], feeds[i], calls[i].reply, calls[i].until, calls[i].cap)
  }

  /** One call of a run: the promise holds after it exactly if it held before and the call loses nothing. */
  lemma OneCall(parse: Parser, c: Cursor, feed: seq<Record>, feed': seq<Record>, call: Call, c': Cursor)
    requires Anchored(c, feed) && feed <= feed' && IsServed(parse, feed', c, call) && IsCall(parse, c, call, c')
    ensures Anchored(c', feed')
    ensures Promise(parse, c', feed')
       <==> Promise(parse, c, feed) && !MovesPastSwallowed(parse, c, feed', call.reply, call.until, call.cap)
  {
    StaysAnchored(parse, c, feed, feed', call, c');
    if Promise(parse, c, feed) {
      CallKeepsPromiseIff(parse, c, feed, feed', call, c');
    } else {
      LostStaysLost(parse, c, feed, feed', call, c');
    }
  }

  /** The promise after `n` calls. */
  ghost predicate PromiseAt(parse: Parser, feeds: seq<seq<Record>>, cursors: seq<Cursor>, n: nat)
    requires n <= |feeds| && |cursors| == |feeds| + 1
  {
    Promise(parse, cursors[n], FeedAt(feeds, n))
  }

  /** Call `m` of a run is the last of the first `n`. */
  lemma CallOfRun(
    parse: Parser, now: int, feeds: seq<seq<Record>>, calls: seq<Call>, cursors: seq<Cursor>, m: nat, n: nat)
    requires IsRun(parse, now, feeds, calls, cursors) && m < |calls| && Anchored(cursors[m], FeedAt(feeds, m))
    requires n == m + 1
    ensures Anchored(cursors[n], FeedAt(feeds, n))
    ensures PromiseAt(parse, feeds, cursors, n)
       <==> PromiseAt(parse, feeds, cursors, m) && !LosesAt(parse, feeds, calls, cursors, m)
  {
    assert CallAt(parse, calls, cursors, m) && ServedAt(parse, feeds, calls, cursors, m);
    OneCall(parse, cursors[m], FeedAt(feeds, m), feeds[m], calls[m], cursors[n]);
  }

  /** None of the first `n` calls does. */
  ghost predicate NeverLoses(
    parse: Parser, feeds: seq<seq<Record>>, calls: seq<Call>, cursors: seq<Cursor>, n: nat)
    requires |feeds| == |calls| && |cursors| == |calls| + 1
  {
    forall i: nat {:trigger LosesAt(parse, feeds, calls, cursors, i)} :: i < n ==>
      !LosesAt(parse, feeds, calls, cursors, i)
  }

  lemma NeverLosesSnoc(
    parse: Parser, feeds: seq<seq<Record>>, calls: seq<Call>, cursors: seq<Cursor>, m: nat, n: nat)
    requires |feeds| == |calls| && |cursors| == |calls| + 1 && n == m + 1
    ensures NeverLoses(parse, feeds, calls, cursors, n)
       <==> NeverLoses(parse, feeds, calls, cursors, m) && !LosesAt(parse, feeds, calls, cursors, m)
  {
  }

  /** What holds after the first `n` calls. */
  ghost predicate AgreesAt(
    parse: Parser, feeds: seq<seq<Record>>, calls: seq<Call>, cursors: seq<Cursor>, n: nat)
    requires n <= |feeds| == |calls| && |cursors| == |calls| + 1
  {
    && Anchored(cursors[n], FeedAt(feeds, n))
    && (PromiseAt(parse, feeds, cursors, n) <==> NeverLoses(parse, feeds, calls, cursors, n))
  }

  lemma AgreesAtFirst(parse: Parser, feeds: seq<seq<Record>>, calls: seq<Call>, cursors: seq<Cursor>)
    requires |feeds| == |calls| && |cursors| == |calls| + 1 && cursors[0].since == cursors[0].start
    ensures AgreesAt(parse, feeds, calls, cursors, 0)
  {
  }

  lemma AgreesNext(
    parse: Parser, now: int, feeds: seq<seq<Record>>, calls: seq<Call>, cursors: seq<Cursor>, m: nat, n: nat)
    requires IsRun(parse, now, feeds, calls, cursors) && m < |calls| && n == m + 1
    requires AgreesAt(parse, feeds, calls, cursors, m)
    ensures AgreesAt(parse, feeds, calls, cursors, n)
  {
    CallOfRun(parse, now, feeds, calls, cursors, m, n);
    NeverLosesSnoc(parse, feeds, calls, cursors, m, n);
  }

  lemma {:induction false} RunAgrees(
    parse: Parser, now: int, feeds: seq<seq<Record>>, calls: seq<Call>, cursors: seq<Cursor>, n: nat)
    requires IsRun(parse, now, feeds, calls, cursors) && n <= |calls|
    ensures AgreesAt(parse, feeds, calls, cursors, n)
  {
    if n == 0 {
      AgreesAtFirst(parse, feeds, calls, cursors);
    } else {
      RunAgrees(parse, now, feeds, calls, cursors, n - 1);
      AgreesNext(parse, now, feeds, calls, cursors, n - 1, n);
    }
  }

  /** Over any run, with any exceptions: every well-formed event older than the cursor has been returned, if and only if
      no call has moved the cursor past an event that an earlier call had swallowed. */
  lemma RunKeepsPromiseIff(
    parse: Parser, now: int, feeds: seq<seq<Record>>, calls: seq<Call>, cursors: seq<Cursor>, n: nat)
    requires IsRun(parse, now, feeds, calls, cursors) && n <= |calls|
    ensures Anchored(cursors[n], FeedAt(feeds, n))
    ensures PromiseAt(parse, feeds, cursors, n) <==> NeverLoses(parse, feeds, calls, cursors, n)
  {
    RunAgrees(parse, now, feeds, calls, cursors, n);
  }

  /** Call `i` raised after recording the key of an event. */
  ghost predicate Swallows(parse: Parser, calls: seq<Call>, cursors: seq<Cursor>, i: nat, k: Key)
    requires |cursors| == |calls| + 1
  {
    i < |calls| && calls[i].raised && calls[i].reply.Stream?
    && k in After(parse, Lines(Join(calls[i].reply.chunks)), cursors[i].dedupe, calls[i].cap).dedupe - cursors[i].dedupe
  }

  /** Only a call that raises after recording an event swallows it. */
  lemma {:induction false} SwallowedByRaise(
    parse: Parser, now: int, calls: seq<Call>, cursors: seq<Cursor>, n: nat, k: Key) returns (i: nat)
    requires IsTrace(parse, now, calls, cursors) && n <= |calls| && Swallowed(cursors[n], k)
    ensures i < n && Swallows(parse, calls, cursors, i, k)
  {
    var m := n - 1;
    assert CallAt(parse, calls, cursors, m);
    if calls[m].reply.Stream? {
      ScanIsFresh(parse, Lines(Join(calls[m].reply.chunks)), cursors[m].dedupe, calls[m].cap);
    }
    if Swallowed(cursors[m], k) {
      i := SwallowedByRaise(parse, now, calls, cursors, m, k);
    } else {
      i := m;
    }
  }

  lemma {:induction false} StartIs(parse: Parser, now: int, calls: seq<Call>, cursors: seq<Cursor>, n: nat)
    requires IsTrace(parse, now, calls, cursors) && n <= |calls|
    ensures cursors[n].start == now
  {
    if n > 0 {
      StartIs(parse, now, calls, cursors, n - 1);
      assert CallAt(parse, calls, cursors, n - 1);
    }
  }

  /** Over any run of calls without an exception the promise is kept. */
  lemma RunLosesNothing(
    parse: Parser, now: int, feeds: seq<seq<Record>>, calls: seq<Call>, cursors: seq<Cursor>, n: nat)
    requires IsRun(parse, now, feeds, calls, cursors) && n <= |calls|
    requires forall i :: 0 <= i < n ==> !calls[i].raised
    ensures n > 0 ==>
      forall r :: r in feeds[n - 1] && parse(Body(r.line)).Event? && now <= r.second < cursors[n].since ==>
        KeyOf(parse(Body(r.line))) in cursors[n].returned
  {
    NeverLosesUnraised(parse, now, feeds, calls, cursors, n);
    StartIs(parse, now, calls, cursors, n);
    if n > 0 {
      forall r | r in feeds[n - 1] && parse(Body(r.line)).Event? && now <= r.second < cursors[n].since
        ensures KeyOf(parse(Body(r.line))) in cursors[n].returned
      {
        var i :| 0 <= i < |feeds[n - 1]| && feeds[n - 1][i] == r;
        assert RecordKey(parse, FeedAt(feeds, n)[i]) in cursors[n].returned;
      }
    }
  }

  lemma NeverLosesUnraised(
    parse: Parser, now: int, feeds: seq<seq<Record>>, calls: seq<Call>, cursors: seq<Cursor>, n: nat)
    requires IsRun(parse, now, feeds, calls, cursors) && n <= |calls|
    requires forall i :: 0 <= i < n ==> !calls[i].raised
    ensures PromiseAt(parse, feeds, cursors, n)
  {
    RunKeepsPromiseIff(parse, now, feeds, calls, cursors, n);
    forall i: nat | i < n ensures !LosesAt(parse, feeds, calls, cursors, i) {
      if LosesAt(parse, feeds, calls, cursors, i) {
        var j :| 0 <= j < |feeds[i]| && WellFormed(parse, feeds[i][j])
                 && Swallowed(cursors[i], RecordKey(parse, feeds[i][j]));
        var m := SwallowedByRaise(parse, now, calls, cursors, i, RecordKey(parse, feeds[i][j]));
      }
    }
  }

  /** The same of a client object: whatever feed its replies were served from, the promise holds now exactly if no call
      has moved its cursor past a swallowed event. */
  lemma ClientKeepsPromiseIff(client: DockerEventsClient, feeds: seq<seq<Record>>)
    requires client.Valid() && IsRun(client.parse, client.start, feeds, client.calls, client.cursors)
    ensures client.cursors[|feeds|].since == client.since
    ensures PromiseAt(client.parse, feeds, client.cursors, |feeds|)
       <==> NeverLoses(client.parse, feeds, client.calls, client.cursors, |feeds|)
  {
    RunKeepsPromiseIff(client.parse, client.start, feeds, client.calls, client.cursors, |feeds|);
  }

  lemma CallKeepsSwallowing(parse: Parser, c: Cursor, call: Call, c': Cursor, k: Key)
    requires Swallowed(c, k) && IsCall(parse, c, call, c') && !Prunes(parse, c, call)
    ensures Swallowed(c', k)
  {
    if call.reply.Stream? {
      ScanIsFresh(parse, Lines(Join(call.reply.chunks)), c.dedupe, call.cap);
    }
  }

  /** A swallowed event is not returned by any later call, until the recorded keys are pruned. */
  lemma {:induction false} SwallowedForGood(
    parse: Parser, now: int, calls: seq<Call>, cursors: seq<Cursor>, i: nat, n: nat, k: Key)
    requires IsTrace(parse, now, calls, cursors) && i <= n <= |calls| && Swallowed(cursors[i], k)
    requires forall j :: i <= j < n ==> !Prunes(parse, cursors[j], calls[j])
    ensures k !in cursors[n].returned && Swallowed(cursors[n], k)
  {
    if i < n {
      assert CallAt(parse, calls, cursors, n - 1);
      SwallowedForGood(parse, now, calls, cursors, i, n - 1, k);
      CallKeepsSwallowing(parse, cursors[n - 1], calls[n - 1], cursors[n], k);
    }
  }

  // ---- A run that loses an event ---------------------------------------------------------------------

  lemma TwoLines(a: bytes, b: bytes)
    requires IsLine(a) && IsLine(b)
    ensures Join([a]) == a && Lines(a) == [a]
    ensures Join([a, b]) == a + b && Lines(a + b) == [a, b]
  {
    JoinSnoc([], a);
    JoinSnoc([a], b);
    assert [] + [a] == [a] && [a] + [b] == [a, b] && [] + a == a;
    LinesUnique([a], []);
    LinesUnique([a, b], []);
    assert a + [] == a && a + b + [] == a + b;
  }

  /** A new event, read alone. */
  lemma ScanNew(parse: Parser, a: bytes)
    requires parse(Body(a)).Event?
    ensures After(parse, [a], {}, 200) == Scan([parse(Body(a))], {KeyOf(parse(Body(a)))}, Running)
  {
    AfterSnoc(parse, [], a, {}, 200);
    assert [] + [a] == [a];
  }

  /** A known event and a new one. */
  lemma ScanKnownAndNew(parse: Parser, a: bytes, b: bytes, dedupe: set<Key>)
    requires parse(Body(a)).Event? && parse(Body(b)).Event?
    requires KeyOf(parse(Body(a))) in dedupe && KeyOf(parse(Body(b))) !in dedupe
    ensures After(parse, [a, b], dedupe, 200)
         == Scan([parse(Body(b))], dedupe + {KeyOf(parse(Body(b)))}, Running)
  {
    AfterSnoc(parse, [], a, dedupe, 200);
    AfterSnoc(parse, [a], b, dedupe, 200);
    assert [] + [a] == [a] && [a] + [b] == [a, b];
  }

  lemma ServedTwo(r: Record, q: Record)
    requires r.second < q.second
    ensures Served([r], r.second, q.second) == [r] && Served([r, q], r.second, q.second) == [r, q]
    ensures LinesOf([r]) == [r.line] && LinesOf([r, q]) == [r.line, q.line]
  {
    assert [r][..0] == [] && [r, q][..1] == [r];
    assert [] + [r] == [r] && [r] + [q] == [r, q];
  }

  lemma FeedOfTwo(parse: Parser, r: Record, q: Record)
    requires IsLine(r.line) && IsLine(q.line) && 0 < r.second < q.second
    requires WellFormed(parse, r) && CarriesSecond(parse(Body(r.line)), r.second)
    requires WellFormed(parse, q) && CarriesSecond(parse(Body(q.line)), q.second)
    ensures IsFeed(parse, [r, q])
    ensures SecondOf(RecordKey(parse, r)) == r.second && SecondOf(RecordKey(parse, q)) == q.second
  {
    SecondIs(parse(Body(r.line)));
    SecondIs(parse(Body(q.line)));
  }

  /** It happens in two calls. The first stream breaks off after its first event; the second call returns the event
      after it, and moves the cursor past the one that was never returned. */
  lemma BrokenStreamLosesEvent(parse: Parser, r: Record, q: Record)
    returns (feeds: seq<seq<Record>>, calls: seq<Call>, cursors: seq<Cursor>)
    requires IsLine(r.line) && IsLine(q.line) && 0 < r.second < q.second
    requires WellFormed(parse, r) && CarriesSecond(parse(Body(r.line)), r.second)
    requires WellFormed(parse, q) && CarriesSecond(parse(Body(q.line)), q.second)
    requires parse(Body(q.line)).enriches
    ensures IsRun(parse, r.second, feeds, calls, cursors) && |calls| == 2 && feeds[1] == [r, q]
    ensures calls[0].raised && !calls[1].raised && calls[1].events == [parse(Body(q.line))]
    ensures r.second < cursors[2].since && RecordKey(parse, r) !in cursors[2].returned
    ensures !Promise(parse, cursors[2], [r, q])
  {
    var k, l := RecordKey(parse, r), RecordKey(parse, q);
    FeedOfTwo(parse, r, q);
    assert [r, q][0] == r && [r, q][1] == q;
    var first := Call(Stream([r.line], true, false), q.second, 200, [], true);
    var second := Call(Stream([r.line + q.line], false, false), q.second, 200, [parse(Body(q.line))], false);
    var c0 := Cursor(r.second, r.second, {}, []);
    var c1 := Cursor(r.second, r.second, {k}, []);
    var c2 := Cursor(r.second, q.second, {k} + {l}, [l]);
    FirstBreaks(parse, r, q.second, first, c0, c1);
    SecondPasses(parse, r, q, second, c1, c2);
    ServedExample(parse, r, q, first, second, c0, c1);
    TwoCalls(parse, r.second, [r], [r, q], first, second, c0, c1, c2);
    feeds, calls, cursors := [[r], [r, q]], [first, second], [c0, c1, c2];
  }

  lemma JoinOne(a: bytes)
    ensures Join([a]) == a
  {
    JoinSnoc([], a);
    assert [] + [a] == [a] && [] + a == a;
  }

  lemma FeedPrefix(parse: Parser, feed: seq<Record>, prefix: seq<Record>)
    requires IsFeed(parse, feed) && prefix <= feed
    ensures IsFeed(parse, prefix)
  {
  }

  lemma ServedExample(parse: Parser, r: Record, q: Record, first: Call, second: Call, c0: Cursor, c1: Cursor)
    requires IsFeed(parse, [r, q]) && IsLine(r.line) && IsLine(q.line) && r.second < q.second
    requires c0.since == c1.since == r.second
    requires first.reply == Stream([r.line], true, false) && first.until == q.second
    requires second.reply == Stream([r.line + q.line], false, false) && second.until == q.second
    ensures IsServed(parse, [r], c0, first) && IsServed(parse, [r, q], c1, second)
  {
    FeedPrefix(parse, [r, q], [r]);
    ServedTwo(r, q);
    TwoLines(r.line, q.line);
    JoinOne(r.line + q.line);
  }

  lemma TwoCalls(
    parse: Parser, now: int, feed: seq<Record>, feed': seq<Record>, first: Call, second: Call,
    c0: Cursor, c1: Cursor, c2: Cursor)
    requires c0 == Cursor(now, now, {}, []) && IsCall(parse, c0, first, c1) && IsCall(parse, c1, second, c2)
    requires IsServed(parse, feed, c0, first) && IsServed(parse, feed', c1, second) && feed <= feed'
    ensures IsRun(parse, now, [feed, feed'], [first, second], [c0, c1, c2])
  {
    var feeds, calls, cursors := [feed, feed'], [first, second], [c0, c1, c2];
    forall i: nat ensures CallAt(parse, calls, cursors, i) && ServedAt(parse, feeds, calls, cursors, i) {
    }
  }

  lemma FirstBreaks(parse: Parser, r: Record, until: int, call: Call, c: Cursor, c': Cursor)
    requires WellFormed(parse, r) && IsLine(r.line)
    requires call == Call(Stream([r.line], true, false), until, 200, [], true)
    requires c == Cursor(r.second, r.second, {}, []) && c' == Cursor(r.second, r.second, {RecordKey(parse, r)}, [])
    ensures IsCall(parse, c, call, c')
  {
    TwoLines(r.line, r.line);
    ScanNew(parse, r.line);
    assert Keys([]) == [];
  }

  /** A complete stream whose scan is known. */
  lemma Completes(parse: Parser, c: Cursor, call: Call, s: Scan, c': Cursor)
    requires call.reply.Stream? && !call.reply.broken && !call.reply.closeFails && 0 < call.cap && !call.raised
    requires After(parse, Lines(Join(call.reply.chunks)), c.dedupe, call.cap) == s && s.status == Running
    requires AllEvents(s.events) && AllEnrich(s.events) && call.events == s.events && |s.dedupe| <= 1000
    requires c' == Cursor(c.start, NextSince(c.since, s.events, call.until), s.dedupe, c.returned + Keys(s.events))
    ensures IsCall(parse, c, call, c')
  {
  }

  lemma SecondScan(parse: Parser, a: bytes, b: bytes, dedupe: set<Key>)
    requires IsLine(a) && IsLine(b) && parse(Body(a)).Event? && parse(Body(b)).Event?
    requires KeyOf(parse(Body(a))) in dedupe && KeyOf(parse(Body(b))) !in dedupe
    ensures After(parse, Lines(Join([a + b])), dedupe, 200)
         == Scan([parse(Body(b))], dedupe + {KeyOf(parse(Body(b)))}, Running)
  {
    JoinOne(a + b);
    TwoLines(a, b);
    ScanKnownAndNew(parse, a, b, dedupe);
  }

  lemma SecondPasses(parse: Parser, r: Record, q: Record, call: Call, c: Cursor, c': Cursor)
    requires WellFormed(parse, r) && WellFormed(parse, q) && RecordKey(parse, r) != RecordKey(parse, q)
    requires IsLine(r.line) && IsLine(q.line) && parse(Body(q.line)).enriches
    requires SecondOf(RecordKey(parse, q)) == q.second && 0 < q.second
    requires call == Call(Stream([r.line + q.line], false, false), q.second, 200, [parse(Body(q.line))], false)
    requires c == Cursor(r.second, r.second, {RecordKey(parse, r)}, [])
    requires c' == Cursor(r.second, q.second, c.dedupe + {RecordKey(parse, q)}, [RecordKey(parse, q)])
    ensures IsCall(parse, c, call, c')
  {
    var e := parse(Body(q.line));
    SecondScan(parse, r.line, q.line, c.dedupe);
    assert Keys([e]) == [KeyOf(e)] && [] + [KeyOf(e)] == [KeyOf(e)];
    Completes(parse, c, call, Scan([e], c'.dedupe, Running), c');
  }

  // ---- Nothing is returned twice ---------------------------------------------------------------------

  ghost predicate NeverRepeated(c: Cursor) {
    NoDuplicates(c.returned) && forall k :: k in c.returned ==> k in c.dedupe
  }

  predicate Prunes(parse: Parser, c: Cursor, call: Call) {
    call.reply.Stream?
    && |After(parse, Lines(Join(call.reply.chunks)), c.dedupe, call.cap).dedupe| > MAX_DEDUPE_ENTRIES
  }

  lemma {:induction false} NoDuplicatesConcat(s: seq<Key>, t: seq<Key>)
    requires NoDuplicates(s) && NoDuplicates(t) && forall k :: k in t ==> k !in s
    ensures NoDuplicates(s + t)
  {
    forall i, j | 0 <= i < j < |s + t| ensures (s + t)[i] != (s + t)[j] {
      if i < |s| <= j {
        assert t[j - |s|] in t;
      }
    }
  }

  lemma CallNeverRepeats(parse: Parser, c: Cursor, call: Call, c': Cursor)
    requires NeverRepeated(c) && IsCall(parse, c, call, c') && !Prunes(parse, c, call)
    ensures NeverRepeated(c')
  {
    assert Keys([]) == [];
    if call.reply.Stream? {
      var lines := Lines(Join(call.reply.chunks));
      ScanIsFresh(parse, lines, c.dedupe, call.cap);
      if !call.raised {
        NoDuplicatesConcat(c.returned, Keys(call.events));
      }
    }
  }

  /** Until the set of recorded keys is first pruned, no key is returned twice, exceptions or not. */
  lemma {:induction false} RunNeverRepeats(
    parse: Parser, now: int, calls: seq<Call>, cursors: seq<Cursor>, n: nat)
    requires IsTrace(parse, now, calls, cursors) && n <= |calls|
    requires forall i :: 0 <= i < n ==> !Prunes(parse, cursors[i], calls[i])
    ensures NeverRepeated(cursors[n])
  {
    if n > 0 {
      assert CallAt(parse, calls, cursors, n - 1);
      RunNeverRepeats(parse, now, calls, cursors, n - 1);
      CallNeverRepeats(parse, cursors[n - 1], calls[n - 1], cursors[n]);
    }
  }
}
