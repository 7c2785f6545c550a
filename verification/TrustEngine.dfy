/** `TrustEngine`: how far a device's history lowers or raises the risk of its next event. */
module TrustEngine {
  import opened DeviceProfiles
  import opened Numbers

  const NEUTRAL := 50
  const MIN_SAMPLES := 10

  /** The engine's own computation; profiles carry no count of challenged events, so none is excluded. */
  function TrustOf(positive: nat, negative: nat, blocked: nat, confident: bool): int {
    var safe := Max(0, positive - blocked);
    var raised := if safe >= MIN_SAMPLES && confident then NEUTRAL + Min(20, safe) else NEUTRAL;
    var score := if negative > 0 then raised - Min(30, negative * 5) else raised;
    Max(0, Min(100, score))
  }

  function CalculateTrust(p: Profile): int {
    TrustOf(p.positive, p.negative, p.blocked, p.confidence.AtLeastHalf())
  }

  /** A third, rounded down as the source's division is. */
  function FloorThird(n: int): (third: int)
    ensures 3 * third <= n < 3 * third + 3
  {
    n / 3
  }

  function FactorOf(trust: int): int {
    Max(-30, Min(30, FloorThird(-(trust - NEUTRAL))))
  }

  /** The score of the trust factor. */
  function TrustFactor(p: Profile): int {
    FactorOf(CalculateTrust(p))
  }

  lemma TrustAgrees(positive: nat, negative: nat, blocked: nat, confident: bool)
    ensures StoredTrust(positive, negative, blocked, confident) == TrustOf(positive, negative, blocked, confident)
    ensures 20 <= TrustOf(positive, negative, blocked, confident) <= 70
  {
  }

  /** The store's score and the engine's agree on every profile a history leaves, and stay within [20, 70]. */
  lemma {:induction false} TrustCoherence(history: seq<Observation>)
    ensures After(history).trustScore == CalculateTrust(After(history))
    ensures 20 <= After(history).trustScore <= 70
  {
    var p := After(history);
    TrustAgrees(p.positive, p.negative, p.blocked, p.confidence.AtLeastHalf());
  }

  lemma FactorBounds(trust: int)
    requires 20 <= trust <= 70
    ensures -7 <= FactorOf(trust) <= 10
    ensures FactorOf(trust) < 0 <==> trust > NEUTRAL
  {
  }

  /** The confidence test: as many safe events as unsafe ones, and two at least. */
  lemma ConfidenceIff(positive: nat, negative: nat)
    ensures Confidence(positive, negative).AtLeastHalf() <==> 2 * positive >= Max(3, positive + negative)
  {
  }

  /** When credit outweighs the unsafe events, in counters alone. */
  predicate Earned(positive: nat, negative: nat, blocked: nat) {
    positive - blocked >= 10 && Min(20, positive - blocked) > 5 * negative
  }

  lemma CreditIff(positive: nat, negative: nat, blocked: nat, confident: bool)
    requires confident <==> 2 * positive >= Max(3, positive + negative)
    ensures TrustOf(positive, negative, blocked, confident) > NEUTRAL <==> Earned(positive, negative, blocked)
  {
  }

  lemma FactorIff(positive: nat, negative: nat, blocked: nat, confident: bool)
    requires confident <==> 2 * positive >= Max(3, positive + negative)
    ensures FactorOf(TrustOf(positive, negative, blocked, confident)) < 0 <==> Earned(positive, negative, blocked)
    ensures -7 <= FactorOf(TrustOf(positive, negative, blocked, confident)) <= 10
  {
    var trust := TrustOf(positive, negative, blocked, confident);
    CreditIff(positive, negative, blocked, confident);
    TrustAgrees(positive, negative, blocked, confident);
    FactorBounds(trust);
  }

  lemma EarnedMeans(positive: nat, negative: nat, blocked: nat)
    requires Earned(positive, negative, blocked)
    ensures positive >= 10 && negative <= 3
  {
  }

  lemma TrustOfHistory(history: seq<Observation>)
    ensures CalculateTrust(After(history))
         == TrustOf(Safe(history), |history| - Safe(history), Blocked(history),
                    Confidence(Safe(history), |history| - Safe(history)).AtLeastHalf())
  {
  }

  lemma TrustOfIs(positive: nat, negative: nat, blocked: nat, confident: bool)
    requires confident <==> 2 * positive >= Max(3, positive + negative)
    ensures var earned := positive - blocked;
            var credit := if earned < 10 || positive < negative then 0 else if earned < 20 then earned else 20;
            var debit := if negative < 6 then 5 * negative else 30;
            TrustOf(positive, negative, blocked, confident) == 50 + credit - debit
  {
  }

  lemma FactorIs(trust: int)
    requires 20 <= trust <= 70
    ensures 3 * FactorOf(trust) <= 50 - trust < 3 * FactorOf(trust) + 3
  {
  }

  /** Trust in numbers: 50, and up to 20 for safe events beyond the blocked ones, if these are ten at least and the safe
      events are no fewer than the unsafe; less 5 for every unsafe event, up to 30. The factor is a third of what is
      missing to 50, rounded down. */
  lemma {:induction false} TrustIs(history: seq<Observation>)
    ensures var p := After(history);
            var safe, unsafe := Safe(history), |history| - Safe(history);
            var earned := safe - Blocked(history);
            var credit := if earned < 10 || safe < unsafe then 0 else if earned < 20 then earned else 20;
            var debit := if unsafe < 6 then 5 * unsafe else 30;
            && p.positive == safe && p.negative == unsafe && p.blocked == Blocked(history)
            && p.trustScore == 50 + credit - debit
            && 3 * TrustFactor(p) <= debit - credit < 3 * TrustFactor(p) + 3
  {
    var positive, negative, blocked := Safe(history), |history| - Safe(history), Blocked(history);
    TrustCoherence(history);
    TrustOfHistory(history);
    ConfidenceIff(positive, negative);
    TrustOfIs(positive, negative, blocked, Confidence(positive, negative).AtLeastHalf());
    FactorIs(CalculateTrust(After(history)));
  }

  /** The confidence is the share of safe events among three at least, or 0.99 where that is less. */
  lemma ConfidenceIs(history: seq<Observation>)
    ensures var p, n := After(history).confidence, if |history| < 3 then 3 else |history|;
            if 100 * Safe(history) < 99 * n then p.num == Safe(history) && p.den == n else p.num == 99 && p.den == 100
  {
  }

  /** Exactly which histories lower risk: ten safe events more than were blocked, and more credit (at most twenty)
      than five for every unsafe event. */
  lemma {:induction false} LowersRiskIff(history: seq<Observation>)
    ensures TrustFactor(After(history)) < 0 <==> Earned(Safe(history), |history| - Safe(history), Blocked(history))
  {
    var positive, negative, blocked := Safe(history), |history| - Safe(history), Blocked(history);
    TrustOfHistory(history);
    ConfidenceIff(positive, negative);
    FactorIff(positive, negative, blocked, Confidence(positive, negative).AtLeastHalf());
  }

  /** Trust lowers risk by at most 7 and raises it by at most 10. */
  lemma {:induction false} TrustIsBounded(history: seq<Observation>)
    ensures -7 <= TrustFactor(After(history)) <= 10
  {
    TrustCoherence(history);
    FactorBounds(After(history).trustScore);
  }

  /** Risk is only lowered for a device with at least ten safe and at most three unsafe events in all its history. */
  lemma {:induction false} TrustIsEarned(history: seq<Observation>)
    requires TrustFactor(After(history)) < 0
    ensures Safe(history) >= 10 && |history| - Safe(history) <= 3
  {
    LowersRiskIff(history);
    EarnedMeans(Safe(history), |history| - Safe(history), Blocked(history));
  }
}
