/** The geo/time and client analyzers, read against the profile they helped to learn. */
module Analyzers {
  import opened BoundedLists
  import opened DeviceProfiles
  import opened Numbers
  import opened RiskEngine

  /** Reading a stored hour back. */
  function Number(digits: string): int {
    if digits == "" then 0
    else 10 * Number(digits[..|digits| - 1]) + (digits[|digits| - 1] as int - '0' as int)
  }

  lemma {:induction false} NumberOfDecimal(n: nat)
    ensures Number(Decimal(n)) == n && Decimal(n) != ""
    ensures forall i :: 0 <= i < |Decimal(n)| ==> '0' <= Decimal(n)[i] <= '9'
    ensures |Decimal(n)| > 1 ==> Decimal(n)[0] != '0'
  {
    if n >= 10 {
      NumberOfDecimal(n / 10);
      assert Decimal(n)[..|Decimal(n)| - 1] == Decimal(n / 10);
    }
  }

  function Mismatch(what: string, reason: string): Factor {
    Factor(what, 10, reason, "geo_time")
  }

  /** Nothing is found before three safe events and a confidence of one half. */
  predicate IsSettled(p: Profile) {
    p.positive >= 3 && p.confidence.AtLeastHalf()
  }

  predicate KnownHour(hours: seq<string>, hour: nat) {
    exists i :: 0 <= i < |hours| && Number(hours[i]) == hour
  }

  function GeoTime(e: Event, p: Profile): seq<Factor> {
    if !IsSettled(p) then []
    else
      (if e.country != "" && p.List(Regions) != [] && e.country !in p.List(Regions)
       then [Mismatch("geo_time:country_mismatch", "country " + e.country + " differs from learned regions")]
       else [])
      + (if p.List(Hours) != [] && !KnownHour(p.List(Hours), e.hour)
         then [Mismatch("geo_time:unusual_hour", "UTC hour " + Decimal(e.hour) + " outside learned hours")]
         else [])
      + (if e.timezone != "" && p.List(Timezones) != [] && e.timezone !in p.List(Timezones)
         then [Mismatch("geo_time:timezone_mismatch", "client timezone differs from learned timezones")]
         else [])
  }

  /** The client attributes, named by the lists they are compared with. */
  predicate IsClient(f: Field) {
    f == UserAgents || f == Languages || f == Fingerprints
  }

  function Or(field: string, fallback: string): string {
    if field != "" then field else fallback
  }

  /** What is compared: the event's own field, or its metadata where the field is empty. */
  function Effective(e: Event, f: Field): string
    requires IsClient(f)
  {
    match f
    case UserAgents => Or(e.userAgent, e.metadata.userAgent)
    case Languages => Or(e.language, e.metadata.language)
    case _ => Or(e.fingerprint, e.metadata.fingerprint)
  }

  predicate Contains(text: string, part: string) {
    exists i :: 0 <= i <= |text| && part <= text[i..]
  }

  /** `lower` is the source's lower-casing; fingerprints are compared as they are. */
  predicate Resembles(lower: string -> string, f: Field, value: string, expected: seq<string>) {
    if f == Fingerprints then value in expected
    else exists i :: 0 <= i < |expected| && Contains(lower(value), lower(expected[i]))
  }

  predicate Differs(lower: string -> string, e: Event, p: Profile, f: Field)
    requires IsClient(f)
  {
    && Effective(e, f) != "" && p.List(f) != []
    && !Resembles(lower, f, Effective(e, f), p.List(f))
  }

  function Reasons(lower: string -> string, e: Event, p: Profile): seq<string> {
    (if Differs(lower, e, p, UserAgents) then ["user agent differs from learned clients"] else [])
    + (if Differs(lower, e, p, Languages) then ["language differs from learned clients"] else [])
    + (if Differs(lower, e, p, Fingerprints) then ["TLS fingerprint differs from learned clients"] else [])
  }

  function JoinReasons(reasons: seq<string>): string {
    if reasons == [] then "" else if |reasons| == 1 then reasons[0] else reasons[0] + "; " + JoinReasons(reasons[1..])
  }

  function Client(lower: string -> string, e: Event, p: Profile): seq<Factor> {
    var reasons := Reasons(lower, e, p);
    if reasons == [] then []
    else [Factor("client:mismatch", Min(20, |reasons| * 8), JoinReasons(reasons), "client")]
  }

  /** A settled device somewhere new, at a new hour or in a new timezone is found, and weighs 10 for each; nothing
      else is, and an unsettled device never is. What is found is neither reputation nor trust. */
  lemma PlaceAndTimeIsEvidence(e: Event, p: Profile, f: Factor)
    ensures f in GeoTime(e, p) ==> f.score == 10 && f.kind == "geo_time"
    ensures |GeoTime(e, p)|
         == if p.positive < 3 || 2 * p.confidence.num < p.confidence.den then 0
            else
              (if e.country != "" && p.List(Regions) != [] && e.country !in p.List(Regions) then 1 else 0)
              + (if p.List(Hours) != [] && e.hour !in HoursOf(p.List(Hours)) then 1 else 0)
              + (if e.timezone != "" && p.List(Timezones) != [] && e.timezone !in p.List(Timezones) then 1 else 0)
  {
  }

  /** The hours of a list. */
  function HoursOf(hours: seq<string>): set<int> {
    set hour | hour in hours :: Number(hour)
  }

  /** One text occurs in another. */
  predicate Occurs(part: string, text: string) {
    exists i :: 0 <= i && i + |part| <= |text| && text[i..][..|part|] == part
  }

  lemma ContainsIff(text: string, part: string)
    ensures Contains(text, part) <==> Occurs(part, text)
  {
    if i :| 0 <= i <= |text| && part <= text[i..] {
      assert text[i..][..|part|] == part;
    }
  }

  /** A learned text occurs in this one, whatever the case. */
  predicate OccursIn(lower: string -> string, learned: seq<string>, value: string) {
    exists known :: known in learned && Occurs(lower(known), lower(value))
  }

  lemma ResemblesIff(lower: string -> string, value: string, expected: seq<string>, f: Field)
    requires f != Fingerprints
    ensures Resembles(lower, f, value, expected) <==> OccursIn(lower, expected, value)
  {
    forall known ensures Contains(lower(value), lower(known)) <==> Occurs(lower(known), lower(value)) {
      ContainsIff(lower(value), lower(known));
    }
    if known :| known in expected && Occurs(lower(known), lower(value)) {
      var i :| 0 <= i < |expected| && expected[i] == known;
      assert Contains(lower(value), lower(expected[i]));
    }
  }

  /** Exactly when the client differs, and what that weighs: 8 for each of three attributes, 20 at most. An attribute is
      the event's own, or that of its metadata; the agent and the language differ if no learned one occurs in them
      whatever the case, the fingerprint if it is none of the learned ones. */
  lemma ClientIs(lower: string -> string, e: Event, p: Profile)
    ensures var agent := if e.userAgent != "" then e.userAgent else e.metadata.userAgent;
            var language := if e.language != "" then e.language else e.metadata.language;
            var fingerprint := if e.fingerprint != "" then e.fingerprint else e.metadata.fingerprint;
            var agents, languages, fingerprints := p.List(UserAgents), p.List(Languages), p.List(Fingerprints);
            var n := (if agent != "" && agents != [] && !OccursIn(lower, agents, agent) then 1 else 0)
                     + (if language != "" && languages != [] && !OccursIn(lower, languages, language) then 1 else 0)
                     + (if fingerprint != "" && fingerprints != [] && fingerprint !in fingerprints then 1 else 0);
            var found := Client(lower, e, p);
            if n == 0 then found == []
            else |found| == 1 && found[0].kind == "client" && found[0].score == if n == 3 then 20 else 8 * n
  {
    ResemblesIff(lower, Effective(e, UserAgents), p.List(UserAgents), UserAgents);
    ResemblesIff(lower, Effective(e, Languages), p.List(Languages), Languages);
    ClientCounts(lower, e, p);
  }

  lemma ClientCounts(lower: string -> string, e: Event, p: Profile)
    ensures var n := (if Differs(lower, e, p, UserAgents) then 1 else 0)
                     + (if Differs(lower, e, p, Languages) then 1 else 0)
                     + (if Differs(lower, e, p, Fingerprints) then 1 else 0);
            var found := Client(lower, e, p);
            if n == 0 then found == []
            else |found| == 1 && found[0].kind == "client" && found[0].score == if n == 3 then 20 else 8 * n
  {
  }

  /** The reasons, one after the other and separated by semicolons. */
  lemma ReasonsAreJoined(first: string, second: string, third: string)
    ensures JoinReasons([first]) == first
    ensures JoinReasons([first, second]) == first + "; " + second
    ensures JoinReasons([first, second, third]) == first + "; " + (second + "; " + third)
  {
    var two, three := [first, second], [first, second, third];
    assert two[1..] == [second];
    assert three[1..] == [second, third] && [second, third][1..] == [third];
    assert JoinReasons(three) == first + "; " + JoinReasons(three[1..]);
  }

  lemma ClientIsEvidence(lower: string -> string, e: Event, p: Profile)
    ensures forall i :: 0 <= i < |Client(lower, e, p)| ==>
              8 <= Client(lower, e, p)[i].score <= 20 && !IsPassive(Client(lower, e, p)[i])
  {
  }

  /** A history and one more safe event. */
  function Relearned(history: seq<Observation>, e: Event): seq<Observation> {
    history + [Observation(e, true, false)]
  }

  /** What one more safe event does to a list. */
  lemma RelearnedList(history: seq<Observation>, e: Event, f: Field)
    ensures Known(Relearned(history, e), f) == Added(Known(history, f), Taught(e, f))
    ensures Taught(e, f) == "" ==> Known(Relearned(history, e), f) == Known(history, f)
    ensures Taught(e, f) != "" ==> Taught(e, f) in Known(Relearned(history, e), f)
  {
    KnownSnoc(history, Observation(e, true, false), f);
    ListsAreLearned(history, f);
    AddedIs(Known(history, f), Taught(e, f));
    if Taught(e, f) != "" {
      AddedHas(Known(history, f), Taught(e, f));
    }
  }

  /** The profile has learned what this history teaches, whatever its counters are. */
  predicate HasLearned(p: Profile, history: seq<Observation>) {
    p.lists == ListsAfter(history)
  }

  lemma KnownPlaceAndTime(e: Event, p: Profile)
    requires e.country == "" || e.country in p.List(Regions)
    requires e.timezone == "" || e.timezone in p.List(Timezones)
    requires Decimal(e.hour) in p.List(Hours)
    ensures GeoTime(e, p) == []
  {
    NumberOfDecimal(e.hour);
    var i :| 0 <= i < |p.List(Hours)| && p.List(Hours)[i] == Decimal(e.hour);
    assert KnownHour(p.List(Hours), e.hour);
  }

  lemma RelearnedHas(history: seq<Observation>, e: Event, f: Field, p: Profile)
    requires HasLearned(p, Relearned(history, e))
    ensures Taught(e, f) == "" || Taught(e, f) in p.List(f)
  {
    RelearnedList(history, e, f);
  }

  /** Once learned, a safe event is at a known place and time. */
  lemma {:induction false} RelearnedPlaceAndTime(history: seq<Observation>, e: Event, p: Profile)
    requires HasLearned(p, Relearned(history, e))
    ensures GeoTime(e, p) == []
  {
    RelearnedHas(history, e, Regions, p);
    RelearnedHas(history, e, Timezones, p);
    RelearnedHas(history, e, Hours, p);
    NumberOfDecimal(e.hour);
    KnownPlaceAndTime(e, p);
  }

  lemma ContainsItself(text: string)
    ensures Contains(text, text)
  {
    assert text[0..] == text;
  }

  lemma ResemblesItself(lower: string -> string, f: Field, value: string, expected: seq<string>)
    requires value in expected
    ensures Resembles(lower, f, value, expected)
  {
    ContainsItself(lower(value));
    var i :| 0 <= i < |expected| && expected[i] == value;
    assert Contains(lower(value), lower(expected[i]));
  }

  /** Learning a safe event settles an attribute exactly if the event carries it in its own field: what came from
      metadata is compared but never learned, so the same difference is found again. */
  lemma {:induction false} RelearnedClientIff(
    lower: string -> string, history: seq<Observation>, e: Event, f: Field, before: Profile, after: Profile)
    requires IsClient(f) && HasLearned(before, history) && HasLearned(after, Relearned(history, e))
    ensures Differs(lower, e, after, f) <==> Taught(e, f) == "" && Differs(lower, e, before, f)
  {
    RelearnedList(history, e, f);
    if Taught(e, f) != "" {
      ResemblesItself(lower, f, Taught(e, f), after.List(f));
    }
  }

  /** The event's client attributes come from its own fields. */
  predicate FromFields(e: Event) {
    && (e.userAgent == "" ==> e.metadata.userAgent == "")
    && (e.language == "" ==> e.metadata.language == "")
    && (e.fingerprint == "" ==> e.metadata.fingerprint == "")
  }

  lemma RelearnedField(lower: string -> string, history: seq<Observation>, e: Event, f: Field, p: Profile)
    requires IsClient(f) && FromFields(e) && HasLearned(p, Relearned(history, e))
    ensures !Differs(lower, e, p, f)
  {
    RelearnedClientIff(lower, history, e, f, p.(lists := ListsAfter(history)), p);
  }

  lemma NoDifferences(lower: string -> string, e: Event, p: Profile)
    requires !Differs(lower, e, p, UserAgents) && !Differs(lower, e, p, Languages)
    requires !Differs(lower, e, p, Fingerprints)
    ensures Client(lower, e, p) == []
  {
  }

  /** A safe event analyzed again against the profile it has just updated is not suspicious. */
  lemma {:induction false} RelearnedIsQuiet(lower: string -> string, history: seq<Observation>, e: Event, p: Profile)
    requires FromFields(e) && HasLearned(p, Relearned(history, e))
    ensures GeoTime(e, p) == [] && Client(lower, e, p) == []
  {
    RelearnedPlaceAndTime(history, e, p);
    RelearnedField(lower, history, e, UserAgents, p);
    RelearnedField(lower, history, e, Languages, p);
    RelearnedField(lower, history, e, Fingerprints, p);
    NoDifferences(lower, e, p);
  }

  function Repeated(history: seq<Observation>, e: Event, times: nat): seq<Observation> {
    if times == 0 then history else Relearned(Repeated(history, e, times - 1), e)
  }

  lemma {:induction false} NothingLearned(history: seq<Observation>, e: Event, f: Field, times: nat)
    requires Taught(e, f) == ""
    ensures Known(Repeated(history, e, times), f) == Known(history, f)
  {
    if times > 0 {
      NothingLearned(history, e, f, times - 1);
      RelearnedList(Repeated(history, e, times - 1), e, f);
    }
  }

  /** However often it is learned as safe, a difference found in metadata stays. */
  lemma MetadataIsNeverLearned(
    lower: string -> string, history: seq<Observation>, e: Event, f: Field, times: nat, before: Profile, after: Profile)
    requires IsClient(f) && HasLearned(before, history) && HasLearned(after, Repeated(history, e, times))
    requires Taught(e, f) == "" && Differs(lower, e, before, f)
    ensures Client(lower, e, after) != []
  {
    NothingLearned(history, e, f, times);
    assert after.List(f) == before.List(f);
  }
}
