/** What one event's assessment and policy together can and cannot do. */
module Decision {
  import opened Actions
  import opened Analyzers
  import opened Numbers
  import opened Wrappers
  import opened DeviceProfiles
  import opened TrustEngine
  import opened RiskEngine
  import opened RiskMonotone
  import opened PolicyEngine

  /** The factors of the behavior, device, geo/time and client analyzers are neither reputation nor trust. */
  predicate AreAdaptive(factors: seq<Factor>) {
    forall i :: 0 <= i < |factors| ==> !IsPassive(factors[i])
  }

  /** What the analyzers find about an event: in its recent requests, and against the profile of its device; a device
      without a profile is a finding of its own. */
  function Findings(lower: string -> string, behavior: seq<Factor>, e: Event, p: Option<Profile>): seq<Factor> {
    match p
    case Some(profile) => behavior + GeoTime(e, profile) + Client(lower, e, profile)
    case None =>
      if e.deviceId == "" then behavior
      else behavior + [Factor("device:unknown", 10, "device identifier has no trusted history", "device")]
  }

  /** All of it is evidence. */
  lemma FindingsAreAdaptive(lower: string -> string, behavior: seq<Factor>, e: Event, p: Option<Profile>)
    requires AreAdaptive(behavior)
    ensures AreAdaptive(Findings(lower, behavior, e, p))
  {
    if p.Some? {
      var place := GeoTime(e, p.value);
      forall i | 0 <= i < |place| ensures !IsPassive(place[i]) {
        PlaceAndTimeIsEvidence(e, p.value, place[i]);
      }
      ClientIsEvidence(lower, e, p.value);
    }
  }

  /** An unknown device weighs 10; without a device there is nothing to find. */
  lemma UnknownDeviceIsFound(lower: string -> string, behavior: seq<Factor>, e: Event)
    ensures Sum(Findings(lower, behavior, e, None), Score) == Sum(behavior, Score) + if e.deviceId == "" then 0 else 10
  {
    if e.deviceId != "" {
      var unknown := Factor("device:unknown", 10, "device identifier has no trusted history", "device");
      SumAppend(behavior, [unknown], Score);
      assert [unknown][1..] == [];
    }
  }

  /** A known device is measured by the analyzers, and nothing else is added. */
  lemma KnownDeviceIsMeasured(lower: string -> string, behavior: seq<Factor>, e: Event, p: Profile)
    ensures Sum(Findings(lower, behavior, e, Some(p)), Score)
         == Sum(behavior, Score) + Sum(GeoTime(e, p), Score) + Sum(Client(lower, e, p), Score)
  {
    SumAppend(behavior, GeoTime(e, p), Score);
    SumAppend(behavior + GeoTime(e, p), Client(lower, e, p), Score);
  }

  /** What the service hands the risk engine for a device of this trust: the factor comes last, and only if it is
      not zero. */
  function WithTrust(adaptive: seq<Factor>, score: int, reason: string): seq<Factor> {
    adaptive + if score != 0 then [Factor("trust:adaptive", score, reason, "trust")] else []
  }

  /** Trust counts with its score, whatever its sign. */
  lemma TrustCounts(adaptive: seq<Factor>, score: int, reason: string)
    ensures Sum(WithTrust(adaptive, score, reason), Score) == Sum(adaptive, Score) + score
    ensures forall f :: f in WithTrust(adaptive, score, reason) && f !in adaptive ==> f.kind == "trust"
  {
    var trust := if score != 0 then [Factor("trust:adaptive", score, reason, "trust")] else [];
    SumAppend(adaptive, trust, Score);
    assert score != 0 ==> trust[1..] == [];
  }

  lemma {:induction false} NoPassive(factors: seq<Factor>)
    requires AreAdaptive(factors)
    ensures Sum(factors, Passive) == 0
  {
    if factors != [] {
      NoPassive(factors[1..]);
    }
  }

  lemma PassiveWithTrust(adaptive: seq<Factor>, score: int, reason: string)
    requires AreAdaptive(adaptive) && score <= 10
    ensures Sum(WithTrust(adaptive, score, reason), Passive) <= 10
  {
    NoPassive(adaptive);
    var trust := if score != 0 then [Factor("trust:adaptive", score, reason, "trust")] else [];
    SumAppend(adaptive, trust, Passive);
    assert score != 0 ==> trust[1..] == [];
  }

  /** With a ceiling of at least 10, a listed result of a new source never lowers the score of an event, whatever the
      history of its device. */
  lemma ReputationNeverLowers(
    detections: seq<Detection>, a: seq<Intelligence>, x: Intelligence, b: seq<Intelligence>, adaptive: seq<Factor>,
    history: seq<Observation>, reason: string, ceiling: int)
    requires x.listed && x.score > 0 && IsNewSource(a, x) && IsNewSource(b, x)
    requires 10 <= ceiling && AreAdaptive(adaptive)
    ensures ScoreOf(detections, a + b, WithTrust(adaptive, TrustFactor(After(history)), reason), ceiling)
         <= ScoreOf(detections, a + [x] + b, WithTrust(adaptive, TrustFactor(After(history)), reason), ceiling)
  {
    PassiveWithTrust(adaptive, TrustFactor(After(history)), reason);
    NewListingNeverLowers(detections, a, x, b, WithTrust(adaptive, TrustFactor(After(history)), reason), ceiling);
  }

  /** So it is for what the analyzers really find about an event of a device with this history. */
  lemma ReputationNeverLowersEvent(
    lower: string -> string, behavior: seq<Factor>, e: Event, history: seq<Observation>, reason: string,
    detections: seq<Detection>, a: seq<Intelligence>, x: Intelligence, b: seq<Intelligence>, ceiling: int)
    requires AreAdaptive(behavior) && 10 <= ceiling
    requires x.listed && x.score > 0 && IsNewSource(a, x) && IsNewSource(b, x)
    ensures var found := Findings(lower, behavior, e, Some(After(history)));
            var factors := WithTrust(found, TrustFactor(After(history)), reason);
            ScoreOf(detections, a + b, factors, ceiling) <= ScoreOf(detections, a + [x] + b, factors, ceiling)
  {
    FindingsAreAdaptive(lower, behavior, e, Some(After(history)));
    ReputationNeverLowers(
      detections, a, x, b, Findings(lower, behavior, e, Some(After(history))), history, reason, ceiling);
  }

  lemma TrustMoves(
    detections: seq<Detection>, intelligence: seq<Intelligence>, adaptive: seq<Factor>, score: int, reason: string,
    ceiling: int)
    ensures ScoreOf(detections, intelligence, adaptive, ceiling)
         <= ScoreOf(detections, intelligence, WithTrust(adaptive, score, reason), ceiling) + Max(0, -score)
  {
    var trust := Factor("trust:adaptive", score, reason, "trust");
    assert adaptive + [] == adaptive && adaptive + [trust] + [] == adaptive + [trust];
    TrustMovesAtMostItself(detections, intelligence, adaptive, trust, [], ceiling);
  }

  /** Trust lowers the score of an event by at most 7, and only if its device has at least ten safe and at most three
      unsafe events in its whole history. */
  lemma {:induction false} TrustLowersLittle(
    detections: seq<Detection>, intelligence: seq<Intelligence>, adaptive: seq<Factor>, history: seq<Observation>,
    reason: string, ceiling: int)
    ensures var plain := ScoreOf(detections, intelligence, adaptive, ceiling);
            var trust := WithTrust(adaptive, TrustFactor(After(history)), reason);
            var trusted := ScoreOf(detections, intelligence, trust, ceiling);
            plain <= trusted + 7 && (trusted < plain ==> Safe(history) >= 10 && |history| - Safe(history) <= 3)
  {
    var score := TrustFactor(After(history));
    TrustIsBounded(history);
    TrustMoves(detections, intelligence, adaptive, score, reason, ceiling);
    if score < 0 {
      TrustIsEarned(history);
    }
  }

  /** The listed results are from one source, and no factor corroborates them. */
  predicate OneFeedAlone(
    detections: seq<Detection>, intelligence: seq<Intelligence>, additional: seq<Factor>, ceiling: int)
  {
    && OneSourceListed(intelligence)
    && forall f :: f in Assess(detections, intelligence, additional, ceiling).factors ==>
         f.kind == "intelligence" || f.kind == "trust" || f.score <= 0
  }

  /** An uncorroborated feed, however often it lists an address and whatever trust adds, blocks by thresholds exactly if
      those allow it and both the sum of the factors and the ceiling reach the last one. */
  lemma OneFeedBlocksIff(
    config: Config, context: Option<Context>, detections: seq<Detection>, intelligence: seq<Intelligence>,
    additional: seq<Factor>, ceiling: int)
    requires config.allowBelow < config.challengeBelow && 1 <= config.challengeBelow <= 100
    requires OneFeedAlone(detections, intelligence, additional, ceiling)
    requires NoneMatches(config.rules, ScoreOf(detections, intelligence, additional, ceiling), context)
    ensures Evaluate(config, ScoreOf(detections, intelligence, additional, ceiling), context) == Decided(Block, None)
       <==> && config.blockEnabled && !config.requireExplicit && config.challengeBelow <= ceiling
            && config.challengeBelow <= Sum(Assess(detections, intelligence, additional, ceiling).factors, Score)
  {
    ScoreIsTheSum(detections, intelligence, additional, ceiling);
    EvaluateIsArgmin(config, ScoreOf(detections, intelligence, additional, ceiling), context);
  }

  lemma SingleFactor(factors: seq<Factor>, f: Factor)
    requires factors == [f]
    ensures BySource(factors) == factors && Sum(factors, Score) == f.score
  {
    assert factors[1..] == [] && factors[..0] == [];
  }

  lemma ListedOne(intelligence: seq<Intelligence>, x: Intelligence)
    requires intelligence == [x] && x.listed && x.score != 0
    ensures Listed(intelligence) == [Reputation(x)]
  {
    assert Listed(intelligence[1..]) == [];
  }

  lemma OnlyListing(
    detections: seq<Detection>, intelligence: seq<Intelligence>, additional: seq<Factor>, ceiling: int, x: Intelligence)
    requires detections == [] && intelligence == [x] && additional == [] && x.listed && x.score == 100
    ensures OneFeedAlone(detections, intelligence, additional, ceiling)
    ensures Sum(Assess(detections, intelligence, additional, ceiling).factors, Score) == 100
  {
    var listed, behavior := Listed(intelligence), BySource(Behavior(detections));
    ListedOne(intelligence, x);
    SingleFactor(listed, Reputation(x));
    assert behavior == [] && behavior + (listed + additional) == listed;
  }

  /** Some event that only one feed speaks against, and no rule matches, is blocked. */
  ghost predicate OneFeedCanBlock(config: Config, context: Option<Context>, ceiling: int) {
    exists detections, intelligence, additional {:trigger OneFeedAlone(detections, intelligence, additional, ceiling)} ::
      && OneFeedAlone(detections, intelligence, additional, ceiling)
      && NoneMatches(config.rules, ScoreOf(detections, intelligence, additional, ceiling), context)
      && Evaluate(config, ScoreOf(detections, intelligence, additional, ceiling), context) == Decided(Block, None)
  }

  /** Exactly the configurations under which one feed alone can block, in a context that no rule matches. */
  lemma OneFeedCanBlockIff(config: Config, context: Option<Context>, ceiling: int)
    requires config.allowBelow < config.challengeBelow && 1 <= config.challengeBelow <= 100
    requires forall score :: NoneMatches(config.rules, score, context)
    ensures OneFeedCanBlock(config, context, ceiling)
       <==> config.blockEnabled && !config.requireExplicit && config.challengeBelow <= ceiling
  {
    if OneFeedCanBlock(config, context, ceiling) {
      var d, i, a :| && OneFeedAlone(d, i, a, ceiling)
                     && Evaluate(config, ScoreOf(d, i, a, ceiling), context) == Decided(Block, None);
      OneFeedBlocksIff(config, context, d, i, a, ceiling);
    }
    if config.blockEnabled && !config.requireExplicit && config.challengeBelow <= ceiling {
      var x := Intelligence("feed", true, 100, "");
      var none: seq<Detection>, one, nothing: seq<Factor> := [], [x], [];
      OnlyListing(none, one, nothing, ceiling, x);
      OneFeedBlocksIff(config, context, none, one, nothing, ceiling);
    }
  }
}
