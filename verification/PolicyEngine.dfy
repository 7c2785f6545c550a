/** `PolicyEngine`: the first matching rule by priority, else the thresholds. */
module PolicyEngine {
  import opened Actions
  import opened Wrappers

  /** A rule as the engine reads it: `eventType` and `source` restrict it unless empty. */
  datatype Rule = Rule(priority: int, minRisk: int, eventType: string, source: string, action: string)

  datatype Context = Context(eventType: string, source: string)

  datatype Config = Config(
    allowBelow: int, challengeBelow: int, challengeEnabled: bool, blockEnabled: bool, requireExplicit: bool,
    rules: seq<Rule>)

  /** An action, or the ValueError of a rule that names none. */
  datatype Decision = Decided(action: Action, rule: Option<Rule>) | UnknownAction

  function ActionNamed(name: string): Option<Action> {
    match name
    case "allow" => Some(Allow)
    case "log_only" => Some(LogOnly)
    case "alert" => Some(Alert)
    case "challenge" => Some(Challenge)
    case "anubis_challenge" => Some(Challenge)
    case "block" => Some(Block)
    case "haproxy_block" => Some(Block)
    case "rate_limit" => Some(RateLimit)
    case _ => None
  }

  predicate Matches(rule: Rule, score: int, context: Option<Context>) {
    && rule.minRisk <= score
    && (rule.eventType != "" ==> context.Some? && context.value.eventType == rule.eventType)
    && (rule.source != "" ==> context.Some? && context.value.source == rule.source)
  }

  /** `rule` placed behind every rule of its priority or a smaller one. */
  function Insert(sorted: seq<Rule>, rule: Rule): seq<Rule> {
    if sorted == [] then [rule]
    else if rule.priority < sorted[|sorted| - 1].priority
    then Insert(sorted[..|sorted| - 1], rule) + [sorted[|sorted| - 1]]
    else sorted + [rule]
  }

  /** The stable order by priority. */
  function ByPriority(rules: seq<Rule>): seq<Rule> {
    if rules == [] then [] else Insert(ByPriority(rules[..|rules| - 1]), rules[|rules| - 1])
  }

  function FirstMatch(rules: seq<Rule>, score: int, context: Option<Context>): Option<Rule> {
    if rules == [] then None
    else if Matches(rules[0], score, context) then Some(rules[0])
    else FirstMatch(rules[1..], score, context)
  }

  function Threshold(config: Config, score: int): Action {
    if score < config.allowBelow then Allow
    else if score < config.challengeBelow then if config.challengeEnabled then Challenge else Allow
    else if config.requireExplicit then Allow
    else if config.blockEnabled then Block else Allow
  }

  function Evaluate(config: Config, score: int, context: Option<Context>): Decision {
    match FirstMatch(ByPriority(config.rules), score, context)
    case Some(rule) =>
      (match ActionNamed(rule.action)
       case Some(action) => Decided(action, Some(rule))
       case None => UnknownAction)
    case None => Decided(Threshold(config, score), None)
  }

  predicate NoneMatches(rules: seq<Rule>, score: int, context: Option<Context>) {
    forall i :: 0 <= i < |rules| ==> !Matches(rules[i], score, context)
  }

  /** The matching rule with the least priority and, among those, the first in the list. */
  predicate IsBest(rules: seq<Rule>, score: int, context: Option<Context>, i: nat) {
    && i < |rules| && Matches(rules[i], score, context)
    && forall j :: 0 <= j < |rules| && j != i && Matches(rules[j], score, context) ==>
         rules[i].priority < rules[j].priority || (rules[i].priority == rules[j].priority && i < j)
  }

  predicate Sorted(rules: seq<Rule>) {
    forall i, j :: 0 <= i < j < |rules| ==> rules[i].priority <= rules[j].priority
  }

  lemma {:induction false} InsertSorted(sorted: seq<Rule>, rule: Rule)
    requires Sorted(sorted)
    ensures Sorted(Insert(sorted, rule))
    ensures forall r :: r in Insert(sorted, rule) <==> r in sorted || r == rule
  {
    if sorted != [] {
      var init, last := sorted[..|sorted| - 1], sorted[|sorted| - 1];
      assert sorted == init + [last];
      InsertSorted(init, rule);
      var inserted := Insert(init, rule);
      forall i | 0 <= i < |inserted| && rule.priority < last.priority
        ensures inserted[i].priority <= last.priority
      {
        assert inserted[i] in inserted;
      }
    }
  }

  lemma {:induction false} FirstMatchSnoc(rules: seq<Rule>, rule: Rule, score: int, context: Option<Context>)
    ensures FirstMatch(rules + [rule], score, context)
         == match FirstMatch(rules, score, context)
            case Some(first) => Some(first)
            case None => if Matches(rule, score, context) then Some(rule) else None
  {
    if rules != [] {
      assert (rules + [rule])[1..] == rules[1..] + [rule];
      FirstMatchSnoc(rules[1..], rule, score, context);
    }
  }

  lemma {:induction false} FirstMatchIn(rules: seq<Rule>, score: int, context: Option<Context>)
    ensures FirstMatch(rules, score, context).Some? ==> FirstMatch(rules, score, context).value in rules
  {
    if rules != [] {
      FirstMatchIn(rules[1..], score, context);
    }
  }

  /** What an inserted rule changes: it comes first if it matches and nothing of its priority or less does. */
  function Prefer(first: Option<Rule>, rule: Rule, score: int, context: Option<Context>): Option<Rule> {
    if Matches(rule, score, context) && (first == None || rule.priority < first.value.priority) then Some(rule)
    else first
  }

  lemma {:induction false} FirstMatchInsert(sorted: seq<Rule>, rule: Rule, score: int, context: Option<Context>)
    requires Sorted(sorted)
    ensures FirstMatch(Insert(sorted, rule), score, context)
         == Prefer(FirstMatch(sorted, score, context), rule, score, context)
  {
    if sorted == [] {
      FirstMatchSnoc([], rule, score, context);
    } else {
      var init, last := sorted[..|sorted| - 1], sorted[|sorted| - 1];
      assert sorted == init + [last];
      FirstMatchSnoc(init, last, score, context);
      if rule.priority < last.priority {
        FirstMatchInsert(init, rule, score, context);
        FirstMatchSnoc(Insert(init, rule), last, score, context);
      } else {
        FirstMatchSnoc(sorted, rule, score, context);
        FirstMatchIn(sorted, score, context);
      }
    }
  }

  lemma {:induction false} ByPrioritySorted(rules: seq<Rule>)
    ensures Sorted(ByPriority(rules))
  {
    if rules != [] {
      ByPrioritySorted(rules[..|rules| - 1]);
      InsertSorted(ByPriority(rules[..|rules| - 1]), rules[|rules| - 1]);
    }
  }

  /** The position of the best matching rule, if any matches. */
  ghost predicate IsBestOf(rules: seq<Rule>, score: int, context: Option<Context>, best: Option<nat>) {
    match best
    case Some(i) => IsBest(rules, score, context, i)
    case None => NoneMatches(rules, score, context)
  }

  lemma BestSnoc(rules: seq<Rule>, score: int, context: Option<Context>, best: Option<nat>)
    returns (longer: Option<nat>)
    requires rules != [] && IsBestOf(rules[..|rules| - 1], score, context, best)
    ensures IsBestOf(rules, score, context, longer)
    ensures (if longer == None then None else Some(rules[longer.value]))
         == Prefer(if best == None then None else Some(rules[best.value]), rules[|rules| - 1], score, context)
  {
    var init, last := rules[..|rules| - 1], rules[|rules| - 1];
    assert rules == init + [last];
    longer := if Matches(last, score, context) && (best == None || last.priority < init[best.value].priority)
              then Some(|init|) else best;
  }

  /** Sorting and scanning finds the best matching rule, and nothing only when nothing matches. */
  lemma {:induction false} ScanFindsBest(rules: seq<Rule>, score: int, context: Option<Context>)
    returns (best: Option<nat>)
    ensures IsBestOf(rules, score, context, best)
    ensures FirstMatch(ByPriority(rules), score, context) == if best == None then None else Some(rules[best.value])
  {
    if rules == [] {
      best := None;
    } else {
      var init, last := rules[..|rules| - 1], rules[|rules| - 1];
      var before := ScanFindsBest(init, score, context);
      ByPrioritySorted(init);
      FirstMatchInsert(ByPriority(init), last, score, context);
      best := BestSnoc(rules, score, context, before);
    }
  }

  lemma BestIsUnique(rules: seq<Rule>, score: int, context: Option<Context>, i: nat, j: nat)
    requires IsBest(rules, score, context, i) && IsBest(rules, score, context, j)
    ensures i == j
  {
  }

  /** What a rule may call each action. */
  lemma NamesAre(name: string, action: Action)
    ensures ActionNamed(name) == Some(action)
       <==> match action
            case Allow => name == "allow"
            case LogOnly => name == "log_only"
            case Alert => name == "alert"
            case Challenge => name == "challenge" || name == "anubis_challenge"
            case Block => name == "block" || name == "haproxy_block"
            case RateLimit => name == "rate_limit"
  {
  }

  /** No rule asks for so low a score, this event type and this source: the thresholds decide. */
  lemma ThresholdsDecide(config: Config, score: int, context: Option<Context>)
    requires forall i :: 0 <= i < |config.rules| ==>
      var rule := config.rules[i];
      || score < rule.minRisk
      || (rule.eventType != "" && (context == None || context.value.eventType != rule.eventType))
      || (rule.source != "" && (context == None || context.value.source != rule.source))
    ensures Evaluate(config, score, context).Decided? && Evaluate(config, score, context).rule == None
    ensures var action := Evaluate(config, score, context).action;
            && (score < config.allowBelow ==> action == Allow)
            && (config.allowBelow <= score < config.challengeBelow ==>
                  action == if config.challengeEnabled then Challenge else Allow)
            && (config.allowBelow <= score && config.challengeBelow <= score ==>
                  action == if config.blockEnabled && !config.requireExplicit then Block else Allow)
  {
    EvaluateIsArgmin(config, score, context);
  }

  /** A rule that asks for no higher score, no other event type and no other source decides if every other such rule
      has a higher priority number, or the same and comes later. */
  lemma BestRuleDecides(config: Config, score: int, context: Option<Context>, i: nat)
    requires i < |config.rules| && config.rules[i].minRisk <= score
    requires config.rules[i].eventType == ""
             || (context.Some? && context.value.eventType == config.rules[i].eventType)
    requires config.rules[i].source == "" || (context.Some? && context.value.source == config.rules[i].source)
    requires forall j :: 0 <= j < |config.rules| && j != i ==>
      var rule, best := config.rules[j], config.rules[i];
      || score < rule.minRisk
      || (rule.eventType != "" && (context == None || context.value.eventType != rule.eventType))
      || (rule.source != "" && (context == None || context.value.source != rule.source))
      || best.priority < rule.priority || (best.priority == rule.priority && i < j)
    ensures Evaluate(config, score, context)
         == match ActionNamed(config.rules[i].action)
            case Some(action) => Decided(action, Some(config.rules[i]))
            case None => UnknownAction
  {
    EvaluateIsArgmin(config, score, context);
    assert IsBest(config.rules, score, context, i);
  }

  /** The decision is that of the best matching rule, and the thresholds' exactly when no rule matches. */
  lemma EvaluateIsArgmin(config: Config, score: int, context: Option<Context>)
    ensures NoneMatches(config.rules, score, context)
       <==> Evaluate(config, score, context) == Decided(Threshold(config, score), None)
    ensures forall i: nat :: IsBest(config.rules, score, context, i) ==>
              Evaluate(config, score, context)
              == match ActionNamed(config.rules[i].action)
                 case Some(action) => Decided(action, Some(config.rules[i]))
                 case None => UnknownAction
  {
    var best := ScanFindsBest(config.rules, score, context);
    forall i: nat | IsBest(config.rules, score, context, i) ensures best == Some(i) {
      if best.Some? {
        BestIsUnique(config.rules, score, context, i, best.value);
      }
    }
  }

  function Severity(action: Action): nat {
    match action
    case Block => 2
    case Challenge => 1
    case _ => 0
  }

  /** A higher score is never answered more mildly. */
  ghost predicate IsMonotone(config: Config) {
    forall low, high {:trigger Threshold(config, low), Threshold(config, high)} :: 0 <= low <= high <= 100 ==>
      Severity(Threshold(config, low)) <= Severity(Threshold(config, high))
  }

  /** The thresholds alone answer higher scores at least as severely, unless challenges are on while blocking by
      threshold is off: then the highest scores are allowed and the middle ones challenged. */
  lemma ThresholdsAreMonotoneIff(config: Config)
    requires 0 <= config.allowBelow < config.challengeBelow <= 100
    ensures IsMonotone(config)
       <==> !(config.challengeEnabled && (config.requireExplicit || !config.blockEnabled))
  {
    if IsMonotone(config) {
      assert Severity(Threshold(config, config.allowBelow)) <= Severity(Threshold(config, config.challengeBelow));
    }
  }

  predicate DistinctPriorities(rules: seq<Rule>) {
    forall i, j :: 0 <= i < j < |rules| ==> rules[i].priority != rules[j].priority
  }

  lemma SamePlace(a: seq<Rule>, b: seq<Rule>, i: nat) returns (j: nat)
    requires multiset(a) == multiset(b) && i < |a|
    ensures j < |b| && b[j] == a[i]
  {
    assert a[i] in multiset(a);
    assert a[i] in b;
    j :| 0 <= j < |b| && b[j] == a[i];
  }

  /** Rules of distinct priorities decide the same in any order. */
  lemma OrderDoesNotMatter(config: Config, permuted: seq<Rule>, score: int, context: Option<Context>)
    requires multiset(permuted) == multiset(config.rules) && DistinctPriorities(config.rules)
    ensures Evaluate(config, score, context) == Evaluate(config.(rules := permuted), score, context)
  {
    var best := ScanFindsBest(config.rules, score, context);
    var other := ScanFindsBest(permuted, score, context);
    if best.Some? {
      var j := SamePlace(config.rules, permuted, best.value);
    }
    if other.Some? {
      var k := SamePlace(permuted, config.rules, other.value);
      if best.Some? {
        var j := SamePlace(config.rules, permuted, best.value);
        assert config.rules[k].priority == permuted[other.value].priority;
        assert permuted[j].priority == config.rules[best.value].priority;
      }
    }
  }
}
