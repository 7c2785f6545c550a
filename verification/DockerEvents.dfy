/** `DockerEventsClient.read_events`: framing, batch cap, deduplication and the `since` cursor. */
module DockerEvents {
  import opened ByteLines
  import opened Collections
  import opened DockerScan

  const MAX_DEDUPE_ENTRIES: nat := 1000

  /** What the Docker proxy answers: no connection, or chunks of a stream that may break off in an exception
      after the last of them; closing the response may fail too. */
  datatype Reply = Unreachable | Stream(chunks: seq<bytes>, broken: bool, closeFails: bool)

  /** `last_event_second or until`. */
  function NextSince(since: int, events: seq<Parsed>, until: int): int
    requires AllEvents(events)
  {
    if events == [] then since
    else
      var second := SecondOf(KeyOf(events[|events| - 1]));
      if second == 0 then until else second
  }

  /** Over the limit, some half of the set is kept. */
  predicate Pruned(dedupe: set<Key>, kept: set<Key>) {
    if |dedupe| > MAX_DEDUPE_ENTRIES then kept <= dedupe && |kept| == |dedupe| / 2 else kept == dedupe
  }

  /** The stream breaks off before the batch is complete, or the response cannot be closed. */
  predicate BreaksOff(reply: Reply, status: Status)
    requires reply.Stream?
  {
    status == Failed || (reply.broken && status == Running) || reply.closeFails
  }

  /** One call, in terms of the lines of the whole stream: a batch, or an exception that leaves the cursor but not
      the recorded keys. An event that cannot be enriched raises after the keys have been pruned. */
  ghost predicate Outcome(
    parse: Parser, since: int, dedupe: set<Key>, reply: Reply, until: int, cap: nat,
    events: seq<Parsed>, raised: bool, since': int, dedupe': set<Key>)
  {
    if reply.Unreachable? then events == [] && !raised && since' == since && dedupe' == dedupe
    else
      var s := After(parse, Lines(Join(reply.chunks)), dedupe, cap);
      && AllEvents(s.events)
      && (raised <==> BreaksOff(reply, s.status) || !AllEnrich(s.events))
      && (if BreaksOff(reply, s.status) then dedupe' == s.dedupe else Pruned(s.dedupe, dedupe'))
      && (if raised then events == [] && since' == since
          else events == s.events && since' == NextSince(since, s.events, until))
  }

  /** The cursor of a client, and the keys of all events returned since it was created. */
  datatype Cursor = Cursor(start: int, since: int, dedupe: set<Key>, returned: seq<Key>)

  /** A call: what Docker answered, and what came of it. */
  datatype Call = Call(reply: Reply, until: int, cap: nat, events: seq<Parsed>, raised: bool)

  ghost predicate IsCall(parse: Parser, c: Cursor, call: Call, c': Cursor) {
    && 0 < call.cap && AllEvents(call.events)
    && Outcome(parse, c.since, c.dedupe, call.reply, call.until, call.cap, call.events, call.raised, c'.since, c'.dedupe)
    && c'.start == c.start && c'.returned == c.returned + Keys(call.events)
  }

  ghost predicate CallAt(parse: Parser, calls: seq<Call>, cursors: seq<Cursor>, i: nat)
    requires |cursors| == |calls| + 1
  {
    i < |calls| ==> IsCall(parse, cursors[i], calls[i], cursors[i + 1])
  }

  /** All calls of a client created at `now`: `cursors[i]` is the cursor before call `i`. */
  ghost predicate IsTrace(parse: Parser, now: int, calls: seq<Call>, cursors: seq<Cursor>) {
    && |cursors| == |calls| + 1 && cursors[0] == Cursor(now, now, {}, [])
    && (forall i: nat {:trigger CallAt(parse, calls, cursors, i)} :: CallAt(parse, calls, cursors, i))
  }

  lemma TraceSnoc(parse: Parser, now: int, calls: seq<Call>, cursors: seq<Cursor>, call: Call, c: Cursor)
    requires IsTrace(parse, now, calls, cursors) && IsCall(parse, cursors[|calls|], call, c)
    ensures IsTrace(parse, now, calls + [call], cursors + [c])
  {
    var more, longer := calls + [call], cursors + [c];
    forall i: nat ensures CallAt(parse, more, longer, i) {
      assert CallAt(parse, calls, cursors, i);
    }
  }

  /** What a call returns, and where it leaves the cursor, in terms of the events themselves. */
  lemma ReturnedAre(
    parse: Parser, since: int, dedupe: set<Key>, reply: Reply, until: int, cap: nat,
    events: seq<Parsed>, raised: bool, since': int, dedupe': set<Key>)
    requires AllEvents(events)
    requires Outcome(parse, since, dedupe, reply, until, cap, events, raised, since', dedupe')
    ensures raised ==> events == []
    ensures events == [] ==> since' == since
    ensures events != [] ==>
      var time := events[|events| - 1].time;
      && (time >= 10_000_000_000 ==> since' * 1_000_000_000 <= time < (since' + 1) * 1_000_000_000)
      && (0 != time < 10_000_000_000 ==> since' == time)
      && (time == 0 ==> since' == until)
    ensures forall i, j :: 0 <= i < j < |events| ==>
      !(SameTime(events[i].time, events[j].time) && events[i].id == events[j].id
        && events[i].action == events[j].action)
  {
    if events != [] {
      var lines := Lines(Join(reply.chunks));
      ScanIsFresh(parse, lines, dedupe, cap);
      SecondIs(events[|events| - 1]);
      forall i, j | 0 <= i < j < |events|
        ensures !(SameTime(events[i].time, events[j].time) && events[i].id == events[j].id
                  && events[i].action == events[j].action)
      {
        SameKeyIff(events[i], events[j]);
        assert Keys(events)[i] != Keys(events)[j];
      }
    }
  }

  method IndexOfBreak(buffer: bytes) returns (i: nat)
    ensures i <= |buffer| && Unbroken(buffer[..i])
    ensures i < |buffer| ==> buffer[i] == LF
  {
    i := 0;
    while i < |buffer| && buffer[i] != LF
      invariant i <= |buffer| && Unbroken(buffer[..i])
    {
      i := i + 1;
    }
  }

  lemma {:induction false} JoinRest(chunks: seq<bytes>, i: nat) returns (rest: bytes)
    requires i <= |chunks|
    ensures Join(chunks) == Join(chunks[..i]) + rest
    decreases |chunks|
  {
    if i == |chunks| {
      assert chunks[..i] == chunks;
      rest := [];
      assert Join(chunks) + [] == Join(chunks);
    } else {
      var init, last := chunks[..|chunks| - 1], chunks[|chunks| - 1];
      var r := JoinRest(init, i);
      assert init[..i] == chunks[..i];
      rest := r + last;
      Assoc(Join(chunks[..i]), r, last);
    }
  }

  /** The scan of the whole stream is the scan of what was framed before it stopped. */
  lemma WholeStream(parse: Parser, chunks: seq<bytes>, i: nat, done: seq<bytes>, left: seq<bytes>, dedupe: set<Key>, cap: nat)
    requires i <= |chunks| && Lines(Join(chunks[..i])) == done + left
    requires (left == [] && i == |chunks|) || After(parse, done, dedupe, cap).status != Running
    ensures After(parse, Lines(Join(chunks)), dedupe, cap) == After(parse, done, dedupe, cap)
  {
    if left == [] && i == |chunks| {
      assert chunks[..i] == chunks && done + left == done;
    } else {
      var rest := JoinRest(chunks, i);
      LinesAppend(Join(chunks[..i]), rest);
      var more := Lines(Tail(Join(chunks[..i])) + rest);
      Assoc(done, left, more);
      StoppedStays(parse, done, left + more, dedupe, cap);
    }
  }

  class DockerEventsClient {
    const parse: Parser
    var since: int
    var dedupe: set<Key>
    ghost const start: int
    /** Every call so far, the cursor before each of them, and the present one. */
    ghost var calls: seq<Call>
    ghost var cursors: seq<Cursor>

    ghost predicate Valid()
      reads this
    {
      && IsTrace(parse, start, calls, cursors)
      && cursors[|calls|] == Cursor(start, since, dedupe, cursors[|calls|].returned)
    }

    constructor (parse: Parser, now: int)
      ensures Valid() && this.parse == parse && since == now && start == now && calls == []
    {
      this.parse := parse;
      since, start, dedupe, calls, cursors := now, now, {}, [], [Cursor(now, now, {}, [])];
    }

    /** The treatment of one framed line. */
    method TakeLine(raw: bytes, events: seq<Parsed>, cap: nat) returns (events': seq<Parsed>, failed: bool)
      requires 0 < cap && |events| < cap
      modifies this`dedupe
      ensures Scan(events', dedupe, if failed then Failed else if |events'| >= cap then Full else Running)
           == Step(Scan(events, old(dedupe), Running), parse(raw), cap)
    {
      events', failed := events, false;
      var parsed := parse(raw);
      match parsed
      case Skip =>
      case Raise => failed := true;
      case Event(_, _, _, _, _) =>
        var key := KeyOf(parsed);
        if key !in dedupe {
          dedupe := dedupe + {key};
          events' := events + [parsed];
        }
    }

    /** The loop over the complete lines of the buffer; `done` are the lines taken off the stream so far. */
    method DrainBuffer(input: bytes, got: seq<Parsed>, cap: nat, ghost before: set<Key>, ghost framed: seq<bytes>)
      returns (buffer: bytes, events: seq<Parsed>, failed: bool, ghost done: seq<bytes>)
      requires 0 < cap && |got| < cap
      requires After(parse, framed, before, cap) == Scan(got, dedupe, Running)
      modifies this`dedupe
      ensures done + Lines(buffer) == framed + Lines(input) && Tail(buffer) == Tail(input)
      ensures After(parse, done, before, cap)
           == Scan(events, dedupe, if failed then Failed else if |events| >= cap then Full else Running)
      ensures !failed && |events| < cap ==> Unbroken(buffer)
    {
      buffer, events, failed, done := input, got, false, framed;
      while true
        invariant !failed && |events| < cap
        invariant done + Lines(buffer) == framed + Lines(input) && Tail(buffer) == Tail(input)
        invariant After(parse, done, before, cap) == Scan(events, dedupe, Running)
        decreases |buffer|
      {
        var i := IndexOfBreak(buffer);
        if i == |buffer| {
          assert buffer[..i] == buffer;
          return;
        }
        FirstLine(buffer, i);
        Assoc(done, [buffer[..i + 1]], Lines(buffer[i + 1..]));
        AfterSnoc(parse, done, buffer[..i + 1], before, cap);
        done := done + [buffer[..i + 1]];
        events, failed := TakeLine(buffer[..i], events, cap);
        buffer := buffer[i + 1..];
        if failed || |events| >= cap {
          return;
        }
      }
    }

    /** The loop over the chunks. */
    method DrainStream(chunks: seq<bytes>, cap: nat) returns (events: seq<Parsed>, failed: bool)
      requires 0 < cap
      modifies this`dedupe
      ensures After(parse, Lines(Join(chunks)), old(dedupe), cap)
           == Scan(events, dedupe, if failed then Failed else if |events| >= cap then Full else Running)
    {
      events, failed := [], false;
      var buffer: bytes := [];
      ghost var done: seq<bytes> := [];
      for i := 0 to |chunks|
        invariant !failed && |events| < cap
        invariant done == Lines(Join(chunks[..i])) && buffer == Tail(Join(chunks[..i]))
        invariant After(parse, done, old(dedupe), cap) == Scan(events, dedupe, Running)
      {
        ghost var stream := Join(chunks[..i]);
        assert chunks[..i + 1][..i] == chunks[..i];
        assert Join(chunks[..i + 1]) == stream + chunks[i];
        LinesAppend(stream, chunks[i]);
        buffer, events, failed, done := DrainBuffer(buffer + chunks[i], events, cap, old(dedupe), done);
        if failed || |events| >= cap {
          WholeStream(parse, chunks, i + 1, done, Lines(buffer), old(dedupe), cap);
          return;
        }
        UnbrokenAppend([], buffer);
        assert [] + buffer == buffer && done + [] == done;
      }
      assert done + [] == done && chunks[..|chunks|] == chunks;
      WholeStream(parse, chunks, |chunks|, done, [], old(dedupe), cap);
    }

    /** Keep an arbitrary half of an oversized set. */
    method Prune()
      modifies this`dedupe
      ensures Pruned(old(dedupe), dedupe)
      ensures if |old(dedupe)| > 1000 then dedupe <= old(dedupe) && |dedupe| == |old(dedupe)| / 2
              else dedupe == old(dedupe)
    {
      if |dedupe| > MAX_DEDUPE_ENTRIES {
        var keep := |dedupe| / 2;
        while |dedupe| > keep
          invariant dedupe <= old(dedupe) && |dedupe| >= keep
        {
          var key :| key in dedupe;
          dedupe := dedupe - {key};
        }
      }
    }

    /** One call without the record of calls. */
    method ReadReply(reply: Reply, until: int, cap: nat) returns (events: seq<Parsed>, raised: bool)
      requires 0 < cap
      modifies this`since, this`dedupe
      ensures AllEvents(events)
      ensures Outcome(parse, old(since), old(dedupe), reply, until, cap, events, raised, since, dedupe)
    {
      events, raised := [], false;
      if reply.Unreachable? {
        return;
      }
      var failed;
      events, failed := DrainStream(reply.chunks, cap);
      ScanIsFresh(parse, Lines(Join(reply.chunks)), old(dedupe), cap);
      if failed || (reply.broken && |events| < cap) || reply.closeFails {
        return [], true;
      }
      Prune();
      for i := 0 to |events|
        invariant AllEnrich(events[..i])
      {
        if !events[i].enriches {
          return [], true;
        }
      }
      assert events[..|events|] == events;
      since := NextSince(since, events, until);
    }

    method ReadEvents(reply: Reply, until: int, cap: nat) returns (events: seq<Parsed>, raised: bool)
      requires Valid() && 0 < cap
      modifies this
      ensures Valid()
      ensures Outcome(parse, old(since), old(dedupe), reply, until, cap, events, raised, since, dedupe)
      ensures calls == old(calls) + [Call(reply, until, cap, events, raised)] && old(cursors) <= cursors
      ensures AllEvents(events) && (raised ==> events == []) && (events == [] ==> since == old(since))
      ensures events != [] ==>
        var time := events[|events| - 1].time;
        && (time >= 10_000_000_000 ==> since * 1_000_000_000 <= time < (since + 1) * 1_000_000_000)
        && (0 != time < 10_000_000_000 ==> since == time)
        && (time == 0 ==> since == until)
      ensures forall i, j :: 0 <= i < j < |events| ==>
        !(SameTime(events[i].time, events[j].time) && events[i].id == events[j].id
          && events[i].action == events[j].action)
    {
      ghost var c := cursors[|calls|];
      events, raised := ReadReply(reply, until, cap);
      ReturnedAre(parse, old(since), old(dedupe), reply, until, cap, events, raised, since, dedupe);
      ghost var call := Call(reply, until, cap, events, raised);
      ghost var c' := Cursor(start, since, dedupe, c.returned + Keys(events));
      TraceSnoc(parse, start, calls, cursors, call, c');
      calls, cursors := calls + [call], cursors + [c'];
    }
  }
}
