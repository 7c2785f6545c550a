/** What `DockerEventsClient.read_events` makes of a stream of lines, whatever chunks it arrives in. */
module DockerScan {
  import opened ByteLines
  import opened Collections

  /** The deduplication key: time in nanoseconds, actor and lower-case action. */
  datatype Key = Key(nano: int, id: string, action: string)

  /** What stripping, length check, JSON decoding and container inspection make of a line: nothing, an event,
      or an exception that leaves `read_events`. `enriches` says whether `_enrich` takes the event; on some, as one
      whose actor is null, it raises. */
  datatype Parsed = Skip | Event(time: int, id: string, action: string, body: string, enriches: bool) | Raise

  type Parser = bytes -> Parsed

  /** Small values are seconds. */
  function Nanos(time: int): int {
    if time < 10_000_000_000 then time * 1_000_000_000 else time
  }

  function KeyOf(e: Parsed): Key
    requires e.Event?
  {
    Key(Nanos(e.time), e.id, e.action)
  }

  function SecondOf(k: Key): int {
    k.nano / 1_000_000_000
  }

  /** The second of an event, from the time it carries: nanoseconds, or seconds where the number is small. */
  lemma SecondIs(e: Parsed)
    requires e.Event?
    ensures e.time >= 10_000_000_000 ==>
              SecondOf(KeyOf(e)) * 1_000_000_000 <= e.time < (SecondOf(KeyOf(e)) + 1) * 1_000_000_000
    ensures e.time < 10_000_000_000 ==> SecondOf(KeyOf(e)) == e.time
  {
  }

  /** The same moment, whether it is given in seconds or in nanoseconds. */
  predicate SameTime(s: int, t: int) {
    || s == t
    || (s < 10_000_000_000 <= t && t == s * 1_000_000_000)
    || (t < 10_000_000_000 <= s && s == t * 1_000_000_000)
  }

  /** Events are duplicates of each other exactly if moment, actor and action are the same. */
  lemma SameKeyIff(e: Parsed, f: Parsed)
    requires e.Event? && f.Event?
    ensures KeyOf(e) == KeyOf(f) <==> SameTime(e.time, f.time) && e.id == f.id && e.action == f.action
  {
  }

  datatype Status = Running | Full | Failed

  datatype Scan = Scan(events: seq<Parsed>, dedupe: set<Key>, status: Status)

  function Body(line: bytes): bytes {
    if line == [] then [] else line[..|line| - 1]
  }

  function Step(s: Scan, parsed: Parsed, cap: nat): Scan {
    if s.status != Running then s
    else match parsed
      case Skip => s
      case Raise => s.(status := Failed)
      case Event(_, _, _, _, _) =>
        if KeyOf(parsed) in s.dedupe then s
        else Scan(s.events + [parsed], s.dedupe + {KeyOf(parsed)},
                  if |s.events| + 1 >= cap then Full else Running)
  }

  function After(parse: Parser, lines: seq<bytes>, dedupe: set<Key>, cap: nat): Scan {
    if lines == [] then Scan([], dedupe, Running)
    else Step(After(parse, lines[..|lines| - 1], dedupe, cap), parse(Body(lines[|lines| - 1])), cap)
  }

  lemma AfterSnoc(parse: Parser, lines: seq<bytes>, line: bytes, dedupe: set<Key>, cap: nat)
    ensures After(parse, lines + [line], dedupe, cap) == Step(After(parse, lines, dedupe, cap), parse(Body(line)), cap)
  {
    assert (lines + [line])[..|lines|] == lines;
  }

  /** A scan that has stopped ignores the rest of the stream. */
  lemma {:induction false} StoppedStays(parse: Parser, lines: seq<bytes>, more: seq<bytes>, dedupe: set<Key>, cap: nat)
    requires After(parse, lines, dedupe, cap).status != Running
    ensures After(parse, lines + more, dedupe, cap) == After(parse, lines, dedupe, cap)
  {
    if more == [] {
      assert lines + more == lines;
    } else {
      var init, last := more[..|more| - 1], more[|more| - 1];
      StoppedStays(parse, lines, init, dedupe, cap);
      AfterSnoc(parse, lines + init, last, dedupe, cap);
      assert lines + more == (lines + init) + [last];
    }
  }

  predicate AllEvents(events: seq<Parsed>) {
    forall i :: 0 <= i < |events| ==> events[i].Event?
  }

  predicate AllEnrich(events: seq<Parsed>) {
    forall i :: 0 <= i < |events| && events[i].Event? ==> events[i].enriches
  }

  function Keys(events: seq<Parsed>): seq<Key>
    requires AllEvents(events)
  {
    seq(|events|, i requires 0 <= i < |events| => KeyOf(events[i]))
  }

  /** The batch holds events only, their keys are new and pairwise different, and exactly they are recorded. */
  lemma {:induction false} ScanIsFresh(parse: Parser, lines: seq<bytes>, dedupe: set<Key>, cap: nat)
    ensures var s := After(parse, lines, dedupe, cap);
      && AllEvents(s.events)
      && NoDuplicates(Keys(s.events))
      && (forall k :: k in Keys(s.events) ==> k !in dedupe)
      && (forall k :: k in s.dedupe <==> k in dedupe || k in Keys(s.events))
      && (0 < cap ==> |s.events| <= cap && (s.status == Running ==> |s.events| < cap))
  {
    if lines != [] {
      var init, last := lines[..|lines| - 1], lines[|lines| - 1];
      ScanIsFresh(parse, init, dedupe, cap);
      var s, t := After(parse, init, dedupe, cap), After(parse, lines, dedupe, cap);
      if t.events != s.events {
        var k := KeyOf(parse(Body(last)));
        assert Keys(t.events) == Keys(s.events) + [k];
        NoDuplicatesSnoc(Keys(s.events), k);
      }
    }
  }

  /** Every event among the lines read before the scan stopped is recorded. */
  lemma {:induction false} ScanCovers(parse: Parser, lines: seq<bytes>, dedupe: set<Key>, cap: nat, k: nat)
    requires k < |lines| && After(parse, lines[..k], dedupe, cap).status == Running
    ensures var s := After(parse, lines, dedupe, cap);
      parse(Body(lines[k])).Event? ==> KeyOf(parse(Body(lines[k]))) in s.dedupe
    decreases |lines|
  {
    var init := lines[..|lines| - 1];
    if k < |init| {
      assert init[..k] == lines[..k];
      ScanCovers(parse, init, dedupe, cap, k);
    } else {
      assert init == lines[..k];
    }
  }

  lemma {:induction false} RunningBefore(parse: Parser, lines: seq<bytes>, dedupe: set<Key>, cap: nat, k: nat)
    requires k <= |lines| && After(parse, lines, dedupe, cap).status == Running
    ensures After(parse, lines[..k], dedupe, cap).status == Running
    decreases |lines|
  {
    if k == |lines| {
      assert lines[..k] == lines;
    } else {
      var init := lines[..|lines| - 1];
      RunningBefore(parse, init, dedupe, cap, k);
      assert init[..k] == lines[..k];
    }
  }

  /** The line of the last event of the batch: the scan was still running when it was read, and had not recorded it. */
  lemma {:induction false} LastEvent(parse: Parser, lines: seq<bytes>, dedupe: set<Key>, cap: nat) returns (m: nat)
    requires After(parse, lines, dedupe, cap).events != []
    ensures m < |lines| && After(parse, lines[..m], dedupe, cap).status == Running
    ensures var events := After(parse, lines, dedupe, cap).events; parse(Body(lines[m])) == events[|events| - 1]
    ensures parse(Body(lines[m])).Event?
    ensures KeyOf(parse(Body(lines[m]))) !in After(parse, lines[..m], dedupe, cap).dedupe
  {
    var init := lines[..|lines| - 1];
    var s, t := After(parse, init, dedupe, cap), After(parse, lines, dedupe, cap);
    if t.events != s.events {
      m := |init|;
    } else {
      m := LastEvent(parse, init, dedupe, cap);
      assert init[..m] == lines[..m];
    }
  }

  /** A buffer that starts with a line: take it off. */
  lemma FirstLine(buffer: bytes, i: nat)
    requires i < |buffer| && buffer[i] == LF && Unbroken(buffer[..i])
    ensures Lines(buffer) == [buffer[..i + 1]] + Lines(buffer[i + 1..])
    ensures Tail(buffer) == Tail(buffer[i + 1..])
    ensures Body(buffer[..i + 1]) == buffer[..i]
  {
    var line, rest := buffer[..i + 1], buffer[i + 1..];
    assert line[..i] == buffer[..i];
    assert buffer == line + rest;
    LineFirst(line, rest);
  }
}
