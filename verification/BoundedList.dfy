/** `_bounded`: the learned lists of a device profile, distinct values in order of first sight, the last 32 of them. */
module BoundedLists {
  import opened Collections

  const LIMIT := 32

  /** Missing values are dropped; None and the empty text are both written "". */
  function Present(values: seq<string>): seq<string> {
    if values == [] then []
    else if values[|values| - 1] == "" then Present(values[..|values| - 1])
    else Present(values[..|values| - 1]) + [values[|values| - 1]]
  }

  function Last(values: seq<string>): seq<string> {
    if |values| <= LIMIT then values else values[|values| - LIMIT..]
  }

  function Bounded(values: seq<string>): seq<string> {
    Last(Distinct(Present(values)))
  }

  function Added(list: seq<string>, value: string): seq<string> {
    Bounded(list + [value])
  }

  function AllAdded(list: seq<string>, values: seq<string>): seq<string> {
    if values == [] then list else Added(AllAdded(list, values[..|values| - 1]), values[|values| - 1])
  }

  lemma AllAddedSnoc(list: seq<string>, values: seq<string>, value: string)
    ensures AllAdded(list, values + [value]) == Added(AllAdded(list, values), value)
  {
    assert (values + [value])[..|values|] == values;
  }

  predicate IsLearned(list: seq<string>) {
    NoDuplicates(list) && |list| <= 32 && "" !in list
  }

  lemma {:induction false} PresentHas(values: seq<string>)
    ensures "" !in Present(values)
    ensures forall v :: v in Present(values) <==> v in values && v != ""
  {
    if values != [] {
      PresentHas(values[..|values| - 1]);
      assert values == values[..|values| - 1] + [values[|values| - 1]];
    }
  }

  lemma {:induction false} PresentFixed(values: seq<string>)
    requires "" !in values
    ensures Present(values) == values
  {
    if values != [] {
      var init, last := values[..|values| - 1], values[|values| - 1];
      assert values == init + [last];
      PresentFixed(init);
    }
  }

  /** Whatever was stored, what is stored next is a learned list. */
  lemma BoundedIsLearned(values: seq<string>)
    ensures IsLearned(Bounded(values))
  {
    PresentHas(values);
    DistinctProperties(Present(values));
  }

  /** Adding to a learned list is a queue insertion: a known or missing value changes nothing, a new one goes to
      the end and pushes out the oldest once there are 32. */
  lemma AddedIs(list: seq<string>, value: string)
    requires IsLearned(list)
    ensures IsLearned(Added(list, value))
    ensures Added(list, value)
         == if value == "" || value in list then list
            else if |list| < 32 then list + [value]
            else list[1..] + [value]
  {
    BoundedIsLearned(list + [value]);
    PresentFixed(list);
    assert (list + [value])[..|list|] == list;
    DistinctFixed(list);
    if value != "" {
      assert Present(list + [value]) == list + [value];
      assert (list + [value])[..|list|] == list;
    }
  }

  /** A value that is not missing is in the list it was just added to. */
  lemma AddedHas(list: seq<string>, value: string)
    requires IsLearned(list) && value != ""
    ensures value in Added(list, value)
  {
    AddedIs(list, value);
    if value !in list {
      var added := Added(list, value);
      assert added[|added| - 1] == value;
    }
  }

  /** `value` is among the last `n`. */
  ghost predicate AmongLast(list: seq<string>, value: string, n: nat) {
    exists i {:trigger list[i]} :: 0 <= i < |list| && |list| - n <= i && list[i] == value
  }

  lemma AmongLastAfter(list: seq<string>, value: string, n: nat, other: string)
    requires IsLearned(list) && AmongLast(list, value, n) && n < LIMIT
    ensures AmongLast(Added(list, other), value, n + 1)
  {
    AddedIs(list, other);
    var i :| 0 <= i < |list| && |list| - n <= i && list[i] == value;
    var added := Added(list, other);
    if |added| == |list| && added != list {
      assert added[i - 1] == value;
    } else {
      assert added[i] == value;
    }
  }

  lemma {:induction false} SurvivesAmongLast(list: seq<string>, value: string, values: seq<string>)
    requires IsLearned(list) && AmongLast(list, value, 1) && |values| < LIMIT
    ensures IsLearned(AllAdded(list, values)) && AmongLast(AllAdded(list, values), value, |values| + 1)
  {
    if values != [] {
      var init, last := values[..|values| - 1], values[|values| - 1];
      SurvivesAmongLast(list, value, init);
      AmongLastAfter(AllAdded(list, init), value, |values|, last);
      AddedIs(AllAdded(list, init), last);
    }
  }

  /** A newly learned value survives the next 31 insertions, whatever they are. */
  lemma {:induction false} NewValueSurvives(list: seq<string>, value: string, values: seq<string>)
    requires IsLearned(list) && value != "" && value !in list && |values| < 32
    ensures value in AllAdded(Added(list, value), values)
  {
    AddedIs(list, value);
    var added := Added(list, value);
    assert added[|added| - 1] == value;
    SurvivesAmongLast(added, value, values);
  }

  /** Adding one to the last 32 of a longer list. */
  lemma LastSnoc(most: seq<string>, value: string)
    requires IsLearned(Last(most)) && value != "" && value !in most
    ensures Added(Last(most), value) == Last(most + [value]) && IsLearned(Last(most + [value]))
  {
    var last := Last(most);
    assert last == most[|most| - |last|..];
    AddedIs(last, value);
    if |last| == LIMIT {
      assert Last(most + [value]) == last[1..] + [value];
    }
  }

  /** Values never seen before queue up behind the list. */
  lemma {:induction false} FreshValuesQueue(list: seq<string>, values: seq<string>)
    requires IsLearned(list) && NoDuplicates(list + values) && "" !in values
    ensures IsLearned(AllAdded(list, values)) && AllAdded(list, values) == Last(list + values)
  {
    if values == [] {
      assert list + values == list;
    } else {
      var init, last := values[..|values| - 1], values[|values| - 1];
      SplitLast(list, values);
      FreshValuesQueue(list, init);
      LastSnoc(list + init, last);
    }
  }

  lemma SplitLast(list: seq<string>, values: seq<string>)
    requires NoDuplicates(list + values) && values != []
    ensures var init, last := values[..|values| - 1], values[|values| - 1];
            list + values == list + init + [last] && NoDuplicates(list + init) && last !in list + init
  {
    var init, last := values[..|values| - 1], values[|values| - 1];
    var all, most := list + values, list + init;
    assert all == most + [last];
    assert all[|most|] == last;
    forall i | 0 <= i < |most| ensures most[i] == all[i] && most[i] != last {
    }
  }

  /** The thirty-second insertion after it can push a value out: any 32 values never seen before do. */
  lemma ThirtyTwoPushOut(list: seq<string>, value: string, values: seq<string>)
    requires IsLearned(list) && value in list
    requires NoDuplicates(list + values) && "" !in values && |values| == 32
    ensures value !in AllAdded(list, values)
  {
    FreshValuesQueue(list, values);
    var all := list + values;
    var i :| 0 <= i < |list| && list[i] == value;
    assert all[i] == value;
    assert Last(all) == values;
    forall j | 0 <= j < |values| ensures values[j] != value {
      assert all[|list| + j] == values[j];
    }
  }
}
