/** `RiskEngine`: one explainable score out of detections, reputation and adaptive factors. */
module RiskEngine {
  import opened Numbers

  datatype Detection = Detection(rule: string, score: int, reason: string)

  datatype Intelligence = Intelligence(source: string, listed: bool, score: int, reason: string)

  datatype Factor = Factor(source: string, score: int, reason: string, kind: string)

  datatype Assessment = Assessment(score: int, reasons: seq<string>, factors: seq<Factor>)

  function Behavior(detections: seq<Detection>): seq<Factor> {
    seq(|detections|, i requires 0 <= i < |detections| =>
      Factor(detections[i].rule, detections[i].score, detections[i].reason, "behavior"))
  }

  function Reputation(i: Intelligence): Factor {
    Factor(i.source, i.score, i.reason, "intelligence")
  }

  /** The listed results with a score. */
  function Listed(intelligence: seq<Intelligence>): seq<Factor> {
    if intelligence == [] then []
    else if intelligence[0].listed && intelligence[0].score != 0
    then [Reputation(intelligence[0])] + Listed(intelligence[1..])
    else Listed(intelligence[1..])
  }

  /** The position of the factor with this source, or the end. */
  function Find(factors: seq<Factor>, source: string): (i: nat)
    ensures i <= |factors| && (i < |factors| ==> factors[i].source == source)
  {
    if factors == [] then 0 else if factors[0].source == source then 0 else 1 + Find(factors[1..], source)
  }

  function Put(dictionary: seq<Factor>, f: Factor): seq<Factor> {
    var i := Find(dictionary, f.source);
    if i < |dictionary| then dictionary[i := f] else dictionary + [f]
  }

  /** A dictionary keyed by source: the last value wins, at the place of the first. */
  function BySource(factors: seq<Factor>): seq<Factor> {
    if factors == [] then [] else Put(BySource(factors[..|factors| - 1]), factors[|factors| - 1])
  }

  function Sum(factors: seq<Factor>, weight: Factor -> int): int {
    if factors == [] then 0 else weight(factors[0]) + Sum(factors[1..], weight)
  }

  function Score(f: Factor): int {
    f.score
  }

  predicate IsPassive(f: Factor) {
    f.kind == "intelligence" || f.kind == "trust"
  }

  /** Counts the factors that corroborate a reputation. */
  function Corroborating(f: Factor): int {
    if !IsPassive(f) && f.score > 0 then 1 else 0
  }

  /** The positive score of the factors that do not. */
  function Passive(f: Factor): int {
    if IsPassive(f) && f.score > 0 then f.score else 0
  }

  function Capped(total: int, listed: int, corroborating: int, ceiling: int): int {
    if listed == 1 && corroborating == 0 && ceiling < Clamp(total) then ceiling else Clamp(total)
  }

  function Factors(detections: seq<Detection>, intelligence: seq<Intelligence>, additional: seq<Factor>): seq<Factor> {
    BySource(Behavior(detections)) + (BySource(Listed(intelligence)) + additional)
  }

  function Assess(
    detections: seq<Detection>, intelligence: seq<Intelligence>, additional: seq<Factor>, ceiling: int): Assessment
  {
    var factors := Factors(detections, intelligence, additional);
    var listed := BySource(Listed(intelligence));
    Assessment(
      Capped(Sum(factors, Score), |listed|, Sum(factors, Corroborating), ceiling),
      seq(|factors|, i requires 0 <= i < |factors| => factors[i].reason),
      factors)
  }

  lemma {:induction false} SumAppend(a: seq<Factor>, b: seq<Factor>, weight: Factor -> int)
    ensures Sum(a + b, weight) == Sum(a, weight) + Sum(b, weight)
  {
    if a == [] {
      assert a + b == b;
    } else {
      assert (a + b)[1..] == a[1..] + b;
      SumAppend(a[1..], b, weight);
    }
  }

  predicate Lacks(factors: seq<Factor>, source: string) {
    forall i :: 0 <= i < |factors| ==> factors[i].source != source
  }

  lemma {:induction false} FindNone(factors: seq<Factor>, source: string)
    ensures Find(factors, source) == |factors| <==> Lacks(factors, source)
    ensures forall i :: 0 <= i < Find(factors, source) ==> factors[i].source != source
  {
    if factors != [] {
      FindNone(factors[1..], source);
      if factors[0].source != source {
        assert forall i :: 1 <= i < |factors| ==> factors[i] == factors[1..][i - 1];
      }
    }
  }

  lemma {:induction false} LacksBySource(factors: seq<Factor>, source: string)
    requires Lacks(factors, source)
    ensures Lacks(BySource(factors), source)
  {
    if factors != [] {
      LacksBySource(factors[..|factors| - 1], source);
    }
  }

  /** The last factor of its source. */
  predicate IsLast(factors: seq<Factor>, i: nat)
    requires i < |factors|
  {
    forall j :: i < j < |factors| ==> factors[j].source != factors[i].source
  }

  predicate DistinctSources(factors: seq<Factor>) {
    forall i, j :: 0 <= i < j < |factors| ==> factors[i].source != factors[j].source
  }

  lemma PutIs(d: seq<Factor>, f: Factor)
    requires DistinctSources(d)
    ensures DistinctSources(Put(d, f))
    ensures forall g :: g in Put(d, f) <==> g == f || (g in d && g.source != f.source)
  {
    FindNone(d, f.source);
    var i := Find(d, f.source);
    var after := Put(d, f);
    assert after[i] == f;
    forall g | g in d && g.source != f.source ensures g in after {
      var k :| 0 <= k < |d| && d[k] == g;
      assert after[k] == g;
    }
  }

  /** The dictionary holds exactly the last factor of every source, once. */
  lemma {:induction false} LastWins(factors: seq<Factor>, f: Factor)
    ensures DistinctSources(BySource(factors))
    ensures f in BySource(factors) <==>
              exists i {:trigger factors[i]} :: 0 <= i < |factors| && factors[i] == f && IsLast(factors, i)
  {
    if factors != [] {
      var init, last := factors[..|factors| - 1], factors[|factors| - 1];
      LastWins(init, f);
      PutIs(BySource(init), last);
      assert IsLast(factors, |init|);
      if f.source != last.source {
        forall i | 0 <= i < |init| && init[i] == f ensures IsLast(factors, i) <==> IsLast(init, i) {
          LastOfMore(factors, i);
        }
      }
    }
  }

  lemma LastOfMore(factors: seq<Factor>, i: nat)
    requires i + 1 < |factors| && factors[i].source != factors[|factors| - 1].source
    ensures IsLast(factors, i) <==> IsLast(factors[..|factors| - 1], i)
  {
  }

  /** A dictionary with `x` inserted. */
  function With(d: seq<Factor>, k: nat, x: Factor): seq<Factor>
    requires k <= |d|
  {
    d[..k] + [x] + d[k..]
  }

  lemma {:induction false} FindWith(d: seq<Factor>, k: nat, x: Factor, source: string)
    requires k <= |d| && x.source != source
    ensures Find(With(d, k, x), source) == if Find(d, source) < k then Find(d, source) else Find(d, source) + 1
  {
    if k == 0 {
      assert With(d, k, x)[1..] == d;
    } else {
      assert With(d, k, x)[1..] == With(d[1..], k - 1, x);
      FindWith(d[1..], k - 1, x, source);
    }
  }

  lemma PutWith(d: seq<Factor>, k: nat, x: Factor, f: Factor)
    requires k <= |d| && x.source != f.source
    ensures k <= |Put(d, f)| && Put(With(d, k, x), f) == With(Put(d, f), k, x)
  {
    FindWith(d, k, x, f.source);
  }

  lemma BySourceSnoc(factors: seq<Factor>, f: Factor)
    ensures BySource(factors + [f]) == Put(BySource(factors), f)
  {
    assert (factors + [f])[..|factors|] == factors;
  }

  /** A factor of a new source, wherever it comes, is one more entry of the dictionary and changes no other. */
  lemma {:induction false} NewSource(a: seq<Factor>, x: Factor, b: seq<Factor>)
    requires Lacks(a, x.source) && Lacks(b, x.source)
    ensures |BySource(a)| <= |BySource(a + b)|
    ensures BySource(a + [x] + b) == With(BySource(a + b), |BySource(a)|, x)
  {
    if b == [] {
      assert a + [x] + b == a + [x] && a + b == a;
      BySourceSnoc(a, x);
      LacksBySource(a, x.source);
      FindNone(BySource(a), x.source);
    } else {
      var init, last := b[..|b| - 1], b[|b| - 1];
      NewSource(a, x, init);
      assert a + b == (a + init) + [last];
      assert a + [x] + b == (a + [x] + init) + [last];
      BySourceSnoc(a + init, last);
      BySourceSnoc(a + [x] + init, last);
      PutWith(BySource(a + init), |BySource(a)|, x, last);
    }
  }

  lemma SumWith(d: seq<Factor>, k: nat, x: Factor, weight: Factor -> int)
    requires k <= |d|
    ensures Sum(With(d, k, x), weight) == Sum(d, weight) + weight(x)
  {
    assert d == d[..k] + d[k..];
    SumAppend(d[..k], d[k..], weight);
    SumAppend(d[..k] + [x], d[k..], weight);
    SumAppend(d[..k], [x], weight);
  }
}
