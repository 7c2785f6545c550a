/** More evidence never lowers a risk score, and trust lowers it by little. */
module RiskMonotone {
  import opened Collections
  import opened Numbers
  import opened RiskEngine

  function ScoreOf(
    detections: seq<Detection>, intelligence: seq<Intelligence>, additional: seq<Factor>, ceiling: int): int
  {
    Assess(detections, intelligence, additional, ceiling).score
  }

  function Total(
    detections: seq<Detection>, intelligence: seq<Intelligence>, additional: seq<Factor>, weight: Factor -> int): int
  {
    Sum(BySource(Behavior(detections)), weight) + Sum(BySource(Listed(intelligence)), weight) + Sum(additional, weight)
  }

  /** The score depends on three totals only. */
  lemma ScoreIs(
    detections: seq<Detection>, intelligence: seq<Intelligence>, additional: seq<Factor>, ceiling: int)
    ensures ScoreOf(detections, intelligence, additional, ceiling)
         == Capped(Total(detections, intelligence, additional, Score), |BySource(Listed(intelligence))|,
                   Total(detections, intelligence, additional, Corroborating), ceiling)
  {
    var b, l := BySource(Behavior(detections)), BySource(Listed(intelligence));
    SumAppend(l, additional, Score);
    SumAppend(b, l + additional, Score);
    SumAppend(l, additional, Corroborating);
    SumAppend(b, l + additional, Corroborating);
  }

  /** The factor of the last detection of its rule. */
  ghost predicate IsDetected(detections: seq<Detection>, f: Factor) {
    exists i {:trigger detections[i]} :: 0 <= i < |detections|
      && f == Factor(detections[i].rule, detections[i].score, detections[i].reason, "behavior")
      && forall j :: i < j < |detections| ==> detections[j].rule != f.source
  }

  predicate CountsFor(result: Intelligence, source: string) {
    result.listed && result.score != 0 && result.source == source
  }

  predicate NoneCountsFor(results: seq<Intelligence>, source: string) {
    forall j :: 0 <= j < |results| ==> !CountsFor(results[j], source)
  }

  /** The factor of the last result of its source that is listed with a score. */
  ghost predicate IsListed(results: seq<Intelligence>, f: Factor) {
    exists i {:trigger results[i]} :: 0 <= i < |results| && CountsFor(results[i], f.source)
      && f == Factor(results[i].source, results[i].score, results[i].reason, "intelligence")
      && NoneCountsFor(results[i + 1..], f.source)
  }

  lemma DetectedIff(detections: seq<Detection>, f: Factor)
    ensures IsLastOf(Behavior(detections), f) <==> IsDetected(detections, f)
  {
    var factors := Behavior(detections);
    if IsLastOf(factors, f) {
      var i :| 0 <= i < |factors| && factors[i] == f && IsLast(factors, i);
      forall j | i < j < |detections| ensures detections[j].rule != f.source {
        assert factors[j].source == detections[j].rule;
      }
      assert detections[i].rule == f.source;
    }
    if i :| 0 <= i < |detections|
            && f == Factor(detections[i].rule, detections[i].score, detections[i].reason, "behavior")
            && forall j :: i < j < |detections| ==> detections[j].rule != f.source {
      assert factors[i] == f && IsLast(factors, i);
    }
  }

  lemma LastOfCons(g: Factor, rest: seq<Factor>, f: Factor)
    ensures IsLastOf([g] + rest, f) <==> IsLastOf(rest, f) || (g == f && Lacks(rest, f.source))
  {
    var all := [g] + rest;
    if i :| 0 <= i < |rest| && rest[i] == f && IsLast(rest, i) {
      assert all[i + 1] == f && IsLast(all, i + 1);
    }
    if i :| 0 <= i < |all| && all[i] == f && IsLast(all, i) {
      forall j | 0 <= j < |rest| && i <= j ensures rest[j].source != f.source {
        assert all[j + 1] == rest[j];
      }
      if i > 0 {
        assert rest[i - 1] == f && IsLast(rest, i - 1);
      }
    }
    if g == f && Lacks(rest, f.source) {
      assert all[0] == f && IsLast(all, 0);
    }
  }

  lemma ListedCons(results: seq<Intelligence>, f: Factor)
    requires results != []
    ensures IsListed(results, f)
       <==> IsListed(results[1..], f)
            || (CountsFor(results[0], f.source) && f == Reputation(results[0]) && NoneCountsFor(results[1..], f.source))
  {
    var rest := results[1..];
    if i :| 0 <= i < |rest| && CountsFor(rest[i], f.source) && NoneCountsFor(rest[i + 1..], f.source)
            && f == Factor(rest[i].source, rest[i].score, rest[i].reason, "intelligence") {
      assert results[i + 1] == rest[i] && results[i + 1 + 1..] == rest[i + 1..];
    }
    if i :| 0 <= i < |results| && CountsFor(results[i], f.source) && NoneCountsFor(results[i + 1..], f.source)
            && f == Factor(results[i].source, results[i].score, results[i].reason, "intelligence") {
      if i > 0 {
        assert rest[i - 1] == results[i] && rest[i - 1 + 1..] == results[i + 1..];
      }
    }
  }

  lemma {:induction false} ListedIff(results: seq<Intelligence>, f: Factor)
    ensures IsLastOf(Listed(results), f) <==> IsListed(results, f)
    ensures Lacks(Listed(results), f.source) <==> NoneCountsFor(results, f.source)
  {
    if results != [] {
      ListedIff(results[1..], f);
      ListedCons(results, f);
      NoneCountsCons(results, f.source);
      var g := Reputation(results[0]);
      LastOfCons(g, Listed(results[1..]), f);
      LacksCons(g, Listed(results[1..]), f.source);
    }
  }

  lemma NoneCountsCons(results: seq<Intelligence>, source: string)
    requires results != []
    ensures NoneCountsFor(results, source) <==> !CountsFor(results[0], source) && NoneCountsFor(results[1..], source)
  {
    assert forall j :: 1 <= j < |results| ==> results[j] == results[1..][j - 1];
  }

  lemma LacksCons(g: Factor, rest: seq<Factor>, source: string)
    ensures Lacks([g] + rest, source) <==> g.source != source && Lacks(rest, source)
  {
    var all := [g] + rest;
    assert all[0] == g;
    forall j | 0 <= j < |rest| ensures all[j + 1] == rest[j] {
    }
    if Lacks(all, source) {
      forall j | 0 <= j < |rest| ensures rest[j].source != source {
        assert all[j + 1] == rest[j];
      }
    }
  }

  /** A factor of the assessment is that of the last detection of its rule, of the last listed result of its source, or
      one of the additional factors; and nothing else is. */
  lemma FactorsAreEvidence(
    detections: seq<Detection>, intelligence: seq<Intelligence>, additional: seq<Factor>, ceiling: int, f: Factor)
    ensures f in Assess(detections, intelligence, additional, ceiling).factors
       <==> IsDetected(detections, f) || IsListed(intelligence, f) || f in additional
    ensures var a := Assess(detections, intelligence, additional, ceiling);
            |a.reasons| == |a.factors| && forall i :: 0 <= i < |a.factors| ==> a.reasons[i] == a.factors[i].reason
  {
    LastWins(Behavior(detections), f);
    LastWins(Listed(intelligence), f);
    DetectedIff(detections, f);
    ListedIff(intelligence, f);
  }

  /** `f` is the last factor of its source. */
  predicate IsLastOf(factors: seq<Factor>, f: Factor) {
    exists i {:trigger factors[i]} :: 0 <= i < |factors| && factors[i] == f && IsLast(factors, i)
  }

  predicate OneSource(factors: seq<Factor>) {
    factors != [] && forall i :: 0 <= i < |factors| ==> factors[i].source == factors[0].source
  }

  lemma {:induction false} OneSourceIff(factors: seq<Factor>)
    ensures |BySource(factors)| == 1 <==> OneSource(factors)
    ensures OneSource(factors) ==> BySource(factors)[0].source == factors[0].source
  {
    if factors != [] {
      var init, last := factors[..|factors| - 1], factors[|factors| - 1];
      OneSourceIff(init);
      NothingListed(init);
      if OneSource(factors) && init != [] {
        assert init[0] == factors[0];
      }
      if OneSource(init) && init[0].source == last.source {
        assert forall i :: 0 <= i < |init| ==> factors[i] == init[i];
      }
    }
  }

  /** There is a result that is listed with a score, and all such results are of its source. */
  predicate OneSourceListed(results: seq<Intelligence>) {
    exists i :: 0 <= i < |results| && results[i].listed && results[i].score != 0
      && forall j :: 0 <= j < |results| && results[j].listed && results[j].score != 0 ==>
           results[j].source == results[i].source
  }

  lemma ListedFrom(results: seq<Intelligence>, j: nat) returns (k: nat)
    requires j < |results| && results[j].listed && results[j].score != 0
    ensures k < |Listed(results)| && Listed(results)[k].source == results[j].source
  {
    ListedIff(results, Reputation(results[j]));
    assert CountsFor(results[j], results[j].source);
    k :| 0 <= k < |Listed(results)| && Listed(results)[k].source == results[j].source;
  }

  lemma ListedOf(results: seq<Intelligence>, k: nat) returns (j: nat)
    requires k < |Listed(results)|
    ensures j < |results| && results[j].listed && results[j].score != 0
    ensures results[j].source == Listed(results)[k].source
  {
    ListedIff(results, Listed(results)[k]);
    j :| 0 <= j < |results| && CountsFor(results[j], Listed(results)[k].source);
  }

  lemma OneSourceListedIff(results: seq<Intelligence>)
    ensures OneSource(Listed(results)) <==> OneSourceListed(results)
  {
    var listed := Listed(results);
    if OneSource(listed) {
      var i := ListedOf(results, 0);
      forall j | 0 <= j < |results| && results[j].listed && results[j].score != 0
        ensures results[j].source == results[i].source
      {
        var k := ListedFrom(results, j);
      }
    }
    if OneSourceListed(results) {
      SourceOfAll(results);
    }
  }

  lemma SourceOfAll(results: seq<Intelligence>)
    requires OneSourceListed(results)
    ensures OneSource(Listed(results))
  {
    var i :| 0 <= i < |results| && results[i].listed && results[i].score != 0
             && forall j :: 0 <= j < |results| && results[j].listed && results[j].score != 0 ==>
                  results[j].source == results[i].source;
    var first := ListedFrom(results, i);
    forall k: nat | k < |Listed(results)| ensures Listed(results)[k].source == results[i].source {
      var j := ListedOf(results, k);
    }
  }

  /** Reputation, trust, or nothing that speaks against the event. */
  predicate IsQuiet(f: Factor) {
    IsPassive(f) || f.score <= 0
  }

  predicate AreQuiet(factors: seq<Factor>) {
    forall i :: 0 <= i < |factors| ==> IsQuiet(factors[i])
  }

  lemma {:induction false} QuietIff(factors: seq<Factor>)
    ensures Sum(factors, Corroborating) >= 0
    ensures Sum(factors, Corroborating) == 0 <==> AreQuiet(factors)
  {
    if factors != [] {
      QuietIff(factors[1..]);
      assert AreQuiet(factors) <==> IsQuiet(factors[0]) && AreQuiet(factors[1..]);
    }
  }

  /** The score is the sum of the returned factors, at least 0 and at most 100; but it is the ceiling if that is lower,
      exactly if all listed results are from one source and no factor but reputation and trust is positive. */
  lemma ScoreIsTheSum(
    detections: seq<Detection>, intelligence: seq<Intelligence>, additional: seq<Factor>, ceiling: int)
    ensures var a := Assess(detections, intelligence, additional, ceiling);
            var sum := Sum(a.factors, Score);
            var score := if sum < 0 then 0 else if sum > 100 then 100 else sum;
            var alone := && OneSourceListed(intelligence)
                         && forall f :: f in a.factors ==>
                              f.kind == "intelligence" || f.kind == "trust" || f.score <= 0;
            a.score == if alone && ceiling < score then ceiling else score
  {
    var a := Assess(detections, intelligence, additional, ceiling);
    OneSourceIff(Listed(intelligence));
    OneSourceListedIff(intelligence);
    QuietIff(a.factors);
    assert AreQuiet(a.factors) <==> forall f :: f in a.factors ==> IsQuiet(f);
  }

  /** The factors add up: every additional one counts with its own score, and nothing counts for nothing. */
  lemma FactorsAddUp(
    detections: seq<Detection>, intelligence: seq<Intelligence>, a: seq<Factor>, x: Factor, b: seq<Factor>,
    ceiling: int)
    ensures Sum(Assess(detections, intelligence, a + [x] + b, ceiling).factors, Score)
         == Sum(Assess(detections, intelligence, a + b, ceiling).factors, Score) + x.score
    ensures Assess([], [], [], ceiling).factors == [] && Sum([], Score) == 0
  {
    FactorTotals(detections, intelligence, a, x, b, Score);
    SumIsTotal(detections, intelligence, a + b, Score);
    SumIsTotal(detections, intelligence, a + [x] + b, Score);
  }

  lemma SumIsTotal(
    detections: seq<Detection>, intelligence: seq<Intelligence>, additional: seq<Factor>, weight: Factor -> int)
    ensures Sum(Factors(detections, intelligence, additional), weight)
         == Total(detections, intelligence, additional, weight)
  {
    SumAppend(BySource(Listed(intelligence)), additional, weight);
    SumAppend(BySource(Behavior(detections)), BySource(Listed(intelligence)) + additional, weight);
  }

  lemma {:induction false} SumNonNegative(factors: seq<Factor>, weight: Factor -> int)
    requires forall f :: weight(f) >= 0
    ensures Sum(factors, weight) >= 0
  {
    if factors != [] {
      SumNonNegative(factors[1..], weight);
    }
  }

  lemma CorroboratingIsCount(
    detections: seq<Detection>, intelligence: seq<Intelligence>, additional: seq<Factor>)
    ensures Total(detections, intelligence, additional, Corroborating) >= 0
  {
    SumNonNegative(BySource(Behavior(detections)), Corroborating);
    SumNonNegative(BySource(Listed(intelligence)), Corroborating);
    SumNonNegative(additional, Corroborating);
  }

  lemma DetectionTotals(
    a: seq<Detection>, d: Detection, b: seq<Detection>, intelligence: seq<Intelligence>, additional: seq<Factor>,
    weight: Factor -> int)
    requires forall i :: 0 <= i < |a| ==> a[i].rule != d.rule
    requires forall i :: 0 <= i < |b| ==> b[i].rule != d.rule
    ensures Total(a + [d] + b, intelligence, additional, weight)
         == Total(a + b, intelligence, additional, weight) + weight(Behavior([d])[0])
  {
    var x := Behavior([d])[0];
    assert Behavior(a + b) == Behavior(a) + Behavior(b);
    assert Behavior(a + [d] + b) == Behavior(a) + [x] + Behavior(b);
    NewSource(Behavior(a), x, Behavior(b));
    SumWith(BySource(Behavior(a + b)), |BySource(Behavior(a))|, x, weight);
  }

  /** A detection under a new rule name, in any place, never lowers the score. */
  lemma NewDetectionNeverLowers(
    a: seq<Detection>, d: Detection, b: seq<Detection>, intelligence: seq<Intelligence>, additional: seq<Factor>,
    ceiling: int)
    requires d.score >= 0
    requires forall i :: 0 <= i < |a| ==> a[i].rule != d.rule
    requires forall i :: 0 <= i < |b| ==> b[i].rule != d.rule
    ensures ScoreOf(a + b, intelligence, additional, ceiling) <= ScoreOf(a + [d] + b, intelligence, additional, ceiling)
  {
    DetectionTotals(a, d, b, intelligence, additional, Score);
    DetectionTotals(a, d, b, intelligence, additional, Corroborating);
    ScoreIs(a + b, intelligence, additional, ceiling);
    ScoreIs(a + [d] + b, intelligence, additional, ceiling);
    CorroboratingIsCount(a + b, intelligence, additional);
  }

  /** An adaptive factor that is not negative, in any place, never lowers the score. */
  lemma NewFactorNeverLowers(
    detections: seq<Detection>, intelligence: seq<Intelligence>, a: seq<Factor>, x: Factor, b: seq<Factor>,
    ceiling: int)
    requires x.score >= 0
    ensures ScoreOf(detections, intelligence, a + b, ceiling) <= ScoreOf(detections, intelligence, a + [x] + b, ceiling)
  {
    FactorTotals(detections, intelligence, a, x, b, Score);
    FactorTotals(detections, intelligence, a, x, b, Corroborating);
    ScoreIs(detections, intelligence, a + b, ceiling);
    ScoreIs(detections, intelligence, a + [x] + b, ceiling);
    CorroboratingIsCount(detections, intelligence, a + b);
  }

  lemma FactorTotals(
    detections: seq<Detection>, intelligence: seq<Intelligence>, a: seq<Factor>, x: Factor, b: seq<Factor>,
    weight: Factor -> int)
    ensures Total(detections, intelligence, a + [x] + b, weight)
         == Total(detections, intelligence, a + b, weight) + weight(x)
  {
    SumAppend(a, b, weight);
    SumAppend(a + [x], b, weight);
    SumAppend(a, [x], weight);
  }

  /** Taking the trust factor away changes the score by no more than the factor. */
  lemma TrustMovesAtMostItself(
    detections: seq<Detection>, intelligence: seq<Intelligence>, a: seq<Factor>, trust: Factor, b: seq<Factor>,
    ceiling: int)
    requires trust.kind == "trust"
    ensures ScoreOf(detections, intelligence, a + b, ceiling)
         <= ScoreOf(detections, intelligence, a + [trust] + b, ceiling) + if trust.score < 0 then -trust.score else 0
    ensures ScoreOf(detections, intelligence, a + [trust] + b, ceiling)
         <= ScoreOf(detections, intelligence, a + b, ceiling) + if trust.score > 0 then trust.score else 0
  {
    FactorTotals(detections, intelligence, a, trust, b, Score);
    FactorTotals(detections, intelligence, a, trust, b, Corroborating);
    ScoreIs(detections, intelligence, a + b, ceiling);
    ScoreIs(detections, intelligence, a + [trust] + b, ceiling);
  }

  lemma {:induction false} ListedAppend(a: seq<Intelligence>, b: seq<Intelligence>)
    ensures Listed(a + b) == Listed(a) + Listed(b)
  {
    if a == [] {
      assert a + b == b;
    } else {
      assert (a + b)[1..] == a[1..] + b && (a + b)[0] == a[0];
      ListedAppend(a[1..], b);
      Assoc([Reputation(a[0])], Listed(a[1..]), Listed(b));
    }
  }

  predicate IsNewSource(results: seq<Intelligence>, x: Intelligence) {
    Lacks(Listed(results), x.source)
  }

  /** A listed result of a new source is one more listed factor. */
  lemma ListedTotals(
    detections: seq<Detection>, a: seq<Intelligence>, x: Intelligence, b: seq<Intelligence>, additional: seq<Factor>,
    weight: Factor -> int)
    requires x.listed && x.score != 0 && IsNewSource(a, x) && IsNewSource(b, x)
    ensures |BySource(Listed(a + [x] + b))| == |BySource(Listed(a + b))| + 1
    ensures Total(detections, a + [x] + b, additional, weight)
         == Total(detections, a + b, additional, weight) + weight(Reputation(x))
  {
    assert Listed([x]) == [Reputation(x)];
    ListedAppend(a, b);
    ListedAppend(a + [x], b);
    ListedAppend(a, [x]);
    NewSource(Listed(a), Reputation(x), Listed(b));
    SumWith(BySource(Listed(a + b)), |BySource(Listed(a))|, Reputation(x), weight);
  }

  /** A listed result of a new source lowers the score in one case only: it is the only one, nothing corroborates it,
      and the score was already above the ceiling. */
  lemma NewListingLowersIff(
    detections: seq<Detection>, a: seq<Intelligence>, x: Intelligence, b: seq<Intelligence>, additional: seq<Factor>,
    ceiling: int)
    requires x.listed && x.score > 0 && IsNewSource(a, x) && IsNewSource(b, x)
    ensures ScoreOf(detections, a + [x] + b, additional, ceiling) < ScoreOf(detections, a + b, additional, ceiling)
       <==> && Listed(a + b) == []
            && Total(detections, a + b, additional, Corroborating) == 0
            && ceiling < ScoreOf(detections, a + b, additional, ceiling)
  {
    ListedTotals(detections, a, x, b, additional, Score);
    ListedTotals(detections, a, x, b, additional, Corroborating);
    ScoreIs(detections, a + b, additional, ceiling);
    ScoreIs(detections, a + [x] + b, additional, ceiling);
    NothingListed(Listed(a + b));
  }

  lemma {:induction false} NothingListed(factors: seq<Factor>)
    ensures |BySource(factors)| == 0 <==> factors == []
  {
  }

  /** Without corroboration the score is what passive factors give it. */
  lemma {:induction false} PassiveBound(factors: seq<Factor>)
    ensures Sum(factors, Corroborating) >= 0
    ensures Sum(factors, Corroborating) == 0 ==> Sum(factors, Score) <= Sum(factors, Passive)
  {
    if factors != [] {
      PassiveBound(factors[1..]);
    }
  }

  lemma {:induction false} BehaviorIsActive(factors: seq<Factor>)
    requires forall i :: 0 <= i < |factors| ==> factors[i].kind == "behavior"
    ensures forall i :: 0 <= i < |BySource(factors)| ==> BySource(factors)[i].kind == "behavior"
    ensures Sum(BySource(factors), Passive) == 0
  {
    if factors != [] {
      BehaviorIsActive(factors[..|factors| - 1]);
    }
    ActiveSum(BySource(factors));
  }

  lemma {:induction false} ActiveSum(factors: seq<Factor>)
    requires forall i :: 0 <= i < |factors| ==> factors[i].kind == "behavior"
    ensures Sum(factors, Passive) == 0
  {
    if factors != [] {
      ActiveSum(factors[1..]);
    }
  }

  /** With a ceiling of 10 or more, and passive factors of at most 10 in sum, a listed result of a new source never
      lowers the score. */
  lemma NewListingNeverLowers(
    detections: seq<Detection>, a: seq<Intelligence>, x: Intelligence, b: seq<Intelligence>, additional: seq<Factor>,
    ceiling: int)
    requires x.listed && x.score > 0 && IsNewSource(a, x) && IsNewSource(b, x)
    requires 10 <= ceiling && Sum(additional, Passive) <= 10
    ensures ScoreOf(detections, a + b, additional, ceiling) <= ScoreOf(detections, a + [x] + b, additional, ceiling)
  {
    NewListingLowersIff(detections, a, x, b, additional, ceiling);
    ScoreIs(detections, a + b, additional, ceiling);
    PassiveBound(BySource(Behavior(detections)));
    PassiveBound(additional);
    BehaviorIsActive(Behavior(detections));
    if Listed(a + b) == [] {
      assert BySource(Listed(a + b)) == [];
    }
  }

  /** Below 10 it can: the ceiling then cuts a score that trust alone had raised. */
  lemma LowCeilingLowers(ceiling: int, source: string)
    requires 0 <= ceiling < 10
    ensures var trust := [Factor("trust:adaptive", 10, "", "trust")];
            ScoreOf([], [Intelligence(source, true, 1, "")], trust, ceiling) < ScoreOf([], [], trust, ceiling)
  {
    var trust, x := [Factor("trust:adaptive", 10, "", "trust")], Intelligence(source, true, 1, "");
    var none: seq<Intelligence> := [];
    assert none + [x] + none == [x] && none + none == none;
    NewListingLowersIff([], none, x, none, trust, ceiling);
    assert trust[1..] == [];
    ScoreIs([], [], trust, ceiling);
  }
}
