/** What the store learns about a device: the counters, the lists and the trust score of `device_profiles`. */
module DeviceProfiles {
  import opened Collections
  import opened Numbers
  import opened Wrappers
  import opened BoundedLists

  /** An exact ratio, numerator over denominator. */
  datatype Fraction = Fraction(num: nat, den: nat)
  {
    predicate AtLeastHalf() {
      2 * num >= den
    }
  }

  /** The fields of a security event that are learned from or compared; metadata carries three of them again. */
  datatype Event = Event(
    deviceId: string, country: string, hour: nat, service: string, ip: string,
    userAgent: string, language: string, timezone: string, fingerprint: string, metadata: Metadata)

  datatype Metadata = Metadata(userAgent: string, language: string, fingerprint: string)

  /** The learned lists. */
  datatype Field = Regions | Hours | Services | UserAgents | Languages | Timezones | Fingerprints | Addresses

  const FIELDS: seq<Field> := [Regions, Hours, Services, UserAgents, Languages, Timezones, Fingerprints, Addresses]

  type Lists = map<Field, seq<string>>

  function ListOf(lists: Lists, f: Field): seq<string> {
    if f in lists then lists[f] else []
  }

  datatype Profile = Profile(
    lists: Lists, trustScore: int, positive: nat, negative: nat, blocked: nat, confidence: Fraction)
  {
    function List(f: Field): seq<string> {
      ListOf(lists, f)
    }
  }

  /** What an update is told about one event. */
  datatype Observation = Observation(event: Event, safe: bool, blocked: bool)

  /** An hour in decimal. */
  function Decimal(n: nat): string {
    if n < 10 then [(n as char + '0')] else Decimal(n / 10) + [(n % 10) as char + '0']
  }

  /** What a device without a row is updated from. */
  const BLANK := Profile(map f: Field :: [], 50, 0, 0, 0, Fraction(0, 3))

  /** What an event teaches a list; "" where it has nothing to teach. */
  function Taught(e: Event, f: Field): string {
    match f
    case Regions => e.country
    case Hours => Decimal(e.hour)
    case Services => e.service
    case UserAgents => e.userAgent
    case Languages => e.language
    case Timezones => e.timezone
    case Fingerprints => e.fingerprint
    case Addresses => e.ip
  }

  /** The share of safe events, of three events at least, and at most 0.99. */
  function Confidence(positive: nat, negative: nat): Fraction {
    var events := Max(3, positive + negative);
    if 100 * positive >= 99 * events then Fraction(99, 100) else Fraction(positive, events)
  }

  /** What a history leaves in a list; only safe events teach anything. */
  function Known(history: seq<Observation>, f: Field): seq<string> {
    if history == [] then []
    else
      var before, o := Known(history[..|history| - 1], f), history[|history| - 1];
      if o.safe then Added(before, Taught(o.event, f)) else before
  }

  /** How many events of a history were safe, and how many were blocked. */
  function Safe(history: seq<Observation>): (n: nat)
    ensures n <= |history|
  {
    if history == [] then 0 else Safe(history[..|history| - 1]) + if history[|history| - 1].safe then 1 else 0
  }

  function Blocked(history: seq<Observation>): nat {
    if history == [] then 0 else Blocked(history[..|history| - 1]) + if history[|history| - 1].blocked then 1 else 0
  }

  /** The score the store writes, from the counters it writes with it. */
  function StoredTrust(positive: nat, negative: nat, blocked: nat, confident: bool): int {
    var trusted := Max(0, positive - blocked);
    var increase := if trusted >= 10 && confident then Min(20, trusted) else 0;
    Max(0, Min(100, 50 + increase - Min(30, negative * 5)))
  }

  /** A row with these lists and counters, and the confidence and trust score computed from them. */
  function Row(lists: Lists, positive: nat, negative: nat, blocked: nat): Profile {
    var confidence := Confidence(positive, negative);
    Profile(lists, StoredTrust(positive, negative, blocked, confidence.AtLeastHalf()),
            positive, negative, blocked, confidence)
  }

  function LearnedLists(lists: Lists, e: Event): Lists {
    map f: Field :: Added(ListOf(lists, f), Taught(e, f))
  }

  function ListsAfter(history: seq<Observation>): Lists {
    map f: Field :: Known(history, f)
  }

  /** The profile a history of events leaves. */
  function After(history: seq<Observation>): Profile {
    Row(ListsAfter(history), Safe(history), |history| - Safe(history), Blocked(history))
  }

  lemma KnownSnoc(history: seq<Observation>, o: Observation, f: Field)
    ensures Known(history + [o], f)
         == if o.safe then Added(Known(history, f), Taught(o.event, f)) else Known(history, f)
  {
    assert (history + [o])[..|history|] == history;
  }

  lemma CountsSnoc(history: seq<Observation>, o: Observation)
    ensures Safe(history + [o]) == Safe(history) + if o.safe then 1 else 0
    ensures Blocked(history + [o]) == Blocked(history) + if o.blocked then 1 else 0
  {
    assert (history + [o])[..|history|] == history;
  }

  lemma ListsSnoc(history: seq<Observation>, o: Observation)
    ensures ListsAfter(history + [o])
         == if o.safe then LearnedLists(ListsAfter(history), o.event) else ListsAfter(history)
  {
    var lists := if o.safe then LearnedLists(ListsAfter(history), o.event) else ListsAfter(history);
    forall f: Field ensures ListsAfter(history + [o])[f] == lists[f] {
      KnownSnoc(history, o, f);
    }
  }

  function HistoryOf(histories: map<string, seq<Observation>>, device: string): seq<Observation> {
    if device in histories then histories[device] else []
  }

  predicate Matches(profiles: map<string, Profile>, histories: map<string, seq<Observation>>, device: string) {
    && (device in profiles <==> HistoryOf(histories, device) != [])
    && (device in profiles ==> device != "")
    && (device in profiles ==> profiles[device] == After(HistoryOf(histories, device)))
  }

  class DeviceStore {
    var profiles: map<string, Profile>
    /** All that was ever reported of each device. */
    ghost var histories: map<string, seq<Observation>>

    ghost predicate Valid() reads this {
      AllMatch(profiles, histories)
    }

    constructor ()
      ensures Valid() && histories == map[]
    {
      profiles, histories := map[], map[];
    }

    method GetDeviceProfile(device: string) returns (p: Option<Profile>)
      requires Valid()
      ensures p == if HistoryOf(histories, device) == [] then None else Some(After(HistoryOf(histories, device)))
    {
      assert Matches(profiles, histories, device);
      if device == "" || device !in profiles {
        return None;
      }
      return Some(profiles[device]);
    }

    /** The loop over the fields. */
    static method LearnFields(fields: seq<Field>, lists: Lists, event: Event) returns (values: Lists)
      ensures values == LearnedOf(fields, lists, event)
    {
      values := map[];
      for i := 0 to |fields|
        invariant values == LearnedOf(fields[..i], lists, event)
      {
        assert fields[..i + 1][..i] == fields[..i];
        values := values[fields[i] := Bounded(ListOf(lists, fields[i]) + [Taught(event, fields[i])])];
      }
      assert fields[..|fields|] == fields;
    }

    /** The lists after a safe event. */
    static method Learn(lists: Lists, event: Event) returns (values: Lists)
      ensures values == LearnedLists(lists, event)
    {
      values := LearnFields(FIELDS, lists, event);
      LearnedOfAll(lists, event);
    }

    /** The lists and counters of a row after one more event. */
    static method Count(row: Profile, event: Event, safe: bool, blocked: bool, ghost history: seq<Observation>)
      returns (lists: Lists, positive: nat, negative: nat, blockedCount: nat)
      requires Reflects(row, history)
      ensures var longer := history + [Observation(event, safe, blocked)];
              && lists == ListsAfter(longer)
              && positive == Safe(longer) && negative == |longer| - Safe(longer) && blockedCount == Blocked(longer)
    {
      lists := row.lists;
      if safe {
        lists := Learn(lists, event);
      }
      positive := row.positive + if safe then 1 else 0;
      negative := row.negative + if safe then 0 else 1;
      blockedCount := row.blocked + if blocked then 1 else 0;
      CountsSnoc(history, Observation(event, safe, blocked));
      ListsSnoc(history, Observation(event, safe, blocked));
    }

    /** One event is counted for its device and, if it was safe, learned. */
    method UpdateDeviceProfile(device: string, event: Event, safe: bool, blocked: bool)
      requires Valid()
      modifies this
      ensures Valid()
      ensures histories
           == if device == "" then old(histories)
              else old(histories)[device := HistoryOf(old(histories), device) + [Observation(event, safe, blocked)]]
      ensures device != "" ==> device in profiles && profiles[device] == After(histories[device])
    {
      if device == "" {
        return;
      }
      ghost var longer := HistoryOf(histories, device) + [Observation(event, safe, blocked)];
      RowReflects(profiles, histories, device);
      var row := if device in profiles then profiles[device] else BLANK;
      var lists, positive, negative, blockedCount := Count(row, event, safe, blocked, HistoryOf(histories, device));
      row := Row(lists, positive, negative, blockedCount);
      MatchesAfter(profiles, histories, device, longer, row);
      profiles := profiles[device := row];
      histories := histories[device := longer];
    }
  }

  /** The lists and counters of a row are those of the history. */
  predicate Reflects(row: Profile, history: seq<Observation>) {
    && row.lists == ListsAfter(history)
    && row.positive == Safe(history) && row.negative == |history| - Safe(history) && row.blocked == Blocked(history)
  }

  lemma RowReflects(profiles: map<string, Profile>, histories: map<string, seq<Observation>>, device: string)
    requires AllMatch(profiles, histories)
    ensures Reflects(if device in profiles then profiles[device] else BLANK, HistoryOf(histories, device))
  {
    assert Matches(profiles, histories, device);
    assert ListsAfter([]) == BLANK.lists;
  }

  ghost predicate AllMatch(profiles: map<string, Profile>, histories: map<string, seq<Observation>>) {
    forall device {:trigger Matches(profiles, histories, device)} :: Matches(profiles, histories, device)
  }

  lemma MatchesAfter(
    profiles: map<string, Profile>, histories: map<string, seq<Observation>>, device: string,
    longer: seq<Observation>, row: Profile)
    requires AllMatch(profiles, histories) && device != "" && longer != [] && row == After(longer)
    ensures AllMatch(profiles[device := row], histories[device := longer])
  {
    var rows, all := profiles[device := row], histories[device := longer];
    forall d ensures Matches(rows, all, d) {
      if d != device {
        assert Matches(profiles, histories, d);
      }
    }
  }

  /** The lists of these fields after learning from an event. */
  function LearnedOf(fields: seq<Field>, lists: Lists, e: Event): Lists {
    if fields == [] then map[]
    else
      var last := fields[|fields| - 1];
      LearnedOf(fields[..|fields| - 1], lists, e)[last := Added(ListOf(lists, last), Taught(e, last))]
  }

  lemma {:induction false} LearnedOfHas(fields: seq<Field>, lists: Lists, e: Event, f: Field)
    requires f in fields
    ensures f in LearnedOf(fields, lists, e) && LearnedOf(fields, lists, e)[f] == Added(ListOf(lists, f), Taught(e, f))
  {
    var init, last := fields[..|fields| - 1], fields[|fields| - 1];
    if f != last {
      assert fields == init + [last];
      LearnedOfHas(init, lists, e, f);
    }
  }

  /** Where a field stands. */
  function Position(f: Field): (k: nat)
    ensures k < |FIELDS| && FIELDS[k] == f
  {
    match f
    case Regions => 0
    case Hours => 1
    case Services => 2
    case UserAgents => 3
    case Languages => 4
    case Timezones => 5
    case Fingerprints => 6
    case Addresses => 7
  }

  lemma LearnedOfAll(lists: Lists, e: Event)
    ensures LearnedOf(FIELDS, lists, e) == LearnedLists(lists, e)
  {
    var all, wanted := LearnedOf(FIELDS, lists, e), LearnedLists(lists, e);
    forall f: Field ensures f in all && all[f] == wanted[f] {
      assert FIELDS[Position(f)] == f;
      LearnedOfHas(FIELDS, lists, e, f);
    }
  }

  /** Whatever was observed, the lists are learned lists. */
  lemma {:induction false} ListsAreLearned(history: seq<Observation>, f: Field)
    ensures IsLearned(Known(history, f))
  {
    if history != [] {
      var before, o := Known(history[..|history| - 1], f), history[|history| - 1];
      ListsAreLearned(history[..|history| - 1], f);
      BoundedIsLearned(before + [Taught(o.event, f)]);
    }
  }

  /** What the safe events of a history teach a list, in order. */
  function TaughtBy(history: seq<Observation>, f: Field): (values: seq<string>)
    ensures |values| <= |history|
  {
    if history == [] then []
    else
      var before, o := TaughtBy(history[..|history| - 1], f), history[|history| - 1];
      if o.safe then before + [Taught(o.event, f)] else before
  }

  lemma {:induction false} KnownAppend(history: seq<Observation>, later: seq<Observation>, f: Field)
    ensures Known(history + later, f) == AllAdded(Known(history, f), TaughtBy(later, f))
  {
    if later == [] {
      assert history + later == history;
    } else {
      var init, o := later[..|later| - 1], later[|later| - 1];
      KnownAppend(history, init, f);
      KnownSnoc(history + init, o, f);
      assert later == init + [o];
      Assoc(history, init, [o]);
      AllAddedSnoc(Known(history, f), TaughtBy(init, f), Taught(o.event, f));
    }
  }

  /** What a safe event leaves in the lists of its device: every value it carries, each in the list of its own. */
  lemma SafeEventIsLearned(history: seq<Observation>, e: Event, blocked: bool, f: Field, value: string)
    requires value == match f
                      case Regions => e.country
                      case Hours => Decimal(e.hour)
                      case Services => e.service
                      case UserAgents => e.userAgent
                      case Languages => e.language
                      case Timezones => e.timezone
                      case Fingerprints => e.fingerprint
                      case Addresses => e.ip
    ensures value != "" ==> value in After(history + [Observation(e, true, blocked)]).List(f)
  {
    TaughtIsKnown(history, Observation(e, true, blocked), f);
  }

  lemma TaughtIsKnown(history: seq<Observation>, o: Observation, f: Field)
    requires o.safe
    ensures Taught(o.event, f) != "" ==> Taught(o.event, f) in After(history + [o]).List(f)
  {
    KnownSnoc(history, o, f);
    ListsAreLearned(history, f);
    if Taught(o.event, f) != "" {
      AddedHas(Known(history, f), Taught(o.event, f));
    }
  }

  /** An event adds nothing to a list but one value, and an unsafe one not even that. */
  lemma NothingElseIsLearned(history: seq<Observation>, o: Observation, f: Field)
    ensures var before, after := After(history).List(f), After(history + [o]).List(f);
            && (!o.safe ==> after == before)
            && (forall v :: v in after ==> v in before || v == Taught(o.event, f))
            && |before| <= |after| <= |before| + 1
  {
    var before, value := Known(history, f), Taught(o.event, f);
    KnownSnoc(history, o, f);
    ListsAreLearned(history, f);
    AddedIs(before, value);
    AddedOnly(before, value);
  }

  lemma AddedOnly(list: seq<string>, value: string)
    requires IsLearned(list)
    ensures forall v :: v in Added(list, value) ==> v in list || v == value
    ensures |list| <= |Added(list, value)| <= |list| + 1
  {
    AddedIs(list, value);
  }

  /** What a safe event newly taught is still known after the next 31 safe events, and after any unsafe ones. */
  lemma NewlyTaughtSurvives(history: seq<Observation>, o: Observation, later: seq<Observation>, f: Field)
    requires o.safe && Taught(o.event, f) != "" && Taught(o.event, f) !in Known(history, f)
    requires |TaughtBy(later, f)| < 32
    ensures Taught(o.event, f) in Known(history + [o] + later, f)
  {
    ListsAreLearned(history, f);
    KnownSnoc(history, o, f);
    KnownAppend(history + [o], later, f);
    NewValueSurvives(Known(history, f), Taught(o.event, f), TaughtBy(later, f));
  }
}
