/** `RateBudget`: one fixed window of 60 seconds per category, opened by the first call that falls outside the last. */
module RateBudgets {
  import opened Numbers

  /** The start of a category's window and the calls counted in it, refused ones included. */
  datatype Window = Window(start: real, count: nat)

  type Windows = map<string, Window>

  datatype Call = Call(category: string, limit: int, now: real)

  /** The window a call falls in, before it is counted there. */
  function Opened(windows: Windows, category: string, now: real): Window {
    var window := if category in windows then windows[category] else Window(now, 0);
    if now - window.start >= 60.0 then Window(now, 0) else window
  }

  function Counted(w: Window): Window {
    Window(w.start, w.count + 1)
  }

  /** The windows after a trace of calls. */
  function After(calls: seq<Call>): Windows {
    if calls == [] then map[]
    else
      var before, call := After(calls[..|calls| - 1]), calls[|calls| - 1];
      before[call.category := Counted(Opened(before, call.category, call.now))]
  }

  /** Whether `call` is allowed after the trace `calls`. */
  predicate Allows(calls: seq<Call>, call: Call) {
    Opened(After(calls), call.category, call.now).count < call.limit
  }

  lemma AfterSnoc(calls: seq<Call>, call: Call)
    ensures After(calls + [call])
         == After(calls)[call.category := Counted(Opened(After(calls), call.category, call.now))]
  {
    assert (calls + [call])[..|calls|] == calls;
  }

  /** The clock never goes back. */
  predicate Ordered(calls: seq<Call>) {
    forall i, j :: 0 <= i < j < |calls| ==> calls[i].now <= calls[j].now
  }

  predicate FixedLimit(calls: seq<Call>, category: string, limit: int) {
    forall i :: 0 <= i < |calls| && calls[i].category == category ==> calls[i].limit == limit
  }

  predicate In(call: Call, category: string, from: real, to: real) {
    call.category == category && from <= call.now < to
  }

  /** The calls of a category in [from, to). */
  function Made(calls: seq<Call>, category: string, from: real, to: real): nat {
    if calls == [] then 0
    else
      Made(calls[..|calls| - 1], category, from, to) + if In(calls[|calls| - 1], category, from, to) then 1 else 0
  }

  /** How many of them were allowed. */
  function Accepted(calls: seq<Call>, category: string, from: real, to: real): nat {
    if calls == [] then 0
    else
      var before, call := calls[..|calls| - 1], calls[|calls| - 1];
      Accepted(before, category, from, to) + if In(call, category, from, to) && Allows(before, call) then 1 else 0
  }

  class RateBudget {
    var windows: Windows
    ghost var calls: seq<Call>

    ghost predicate Valid() reads this {
      windows == After(calls) && Ordered(calls)
    }

    constructor ()
      ensures Valid() && calls == []
    {
      windows := map[];
      calls := [];
    }

    /** One call; `now` is the monotonic clock. */
    method Allow(category: string, limit: int, now: real) returns (allowed: bool)
      requires Valid() && (calls == [] || calls[|calls| - 1].now <= now)
      modifies this
      ensures Valid() && calls == old(calls) + [Call(category, limit, now)]
      ensures allowed == Allows(old(calls), Call(category, limit, now))
    {
      var window := if category in windows then windows[category] else Window(now, 0);
      if now - window.start >= 60.0 {
        window := Window(now, 0);
      }
      AfterSnoc(calls, Call(category, limit, now));
      calls := calls + [Call(category, limit, now)];
      windows := windows[category := Window(window.start, window.count + 1)];
      return window.count < limit;
    }
  }

  /** No call of the category is later than its window, and the window has begun. */
  lemma {:induction false} WindowIsLast(calls: seq<Call>, category: string)
    requires Ordered(calls)
    ensures forall i :: 0 <= i < |calls| && calls[i].category == category ==>
              category in After(calls) && calls[i].now < After(calls)[category].start + 60.0
    ensures category in After(calls) ==>
              After(calls)[category].count > 0 && After(calls)[category].start <= calls[|calls| - 1].now
  {
    if calls != [] {
      var before, call := calls[..|calls| - 1], calls[|calls| - 1];
      WindowIsLast(before, category);
      assert calls == before + [call];
    }
  }

  /** Nothing is counted from a time that no call of the category has reached. */
  lemma {:induction false} NoneYet(calls: seq<Call>, category: string, from: real, to: real)
    requires forall i :: 0 <= i < |calls| && calls[i].category == category ==> calls[i].now < from
    ensures Made(calls, category, from, to) == 0 && Accepted(calls, category, from, to) == 0
  {
    if calls != [] {
      NoneYet(calls[..|calls| - 1], category, from, to);
    }
  }

  /** A window counts exactly the calls of its category since it opened, and of these the first `limit` were
      allowed and no other. */
  lemma {:induction false} WindowAllowsItsLimit(calls: seq<Call>, category: string, limit: int, to: real)
    requires Ordered(calls) && FixedLimit(calls, category, limit)
    requires forall i :: 0 <= i < |calls| ==> calls[i].now < to
    requires category in After(calls)
    ensures Made(calls, category, After(calls)[category].start, to) == After(calls)[category].count
    ensures Accepted(calls, category, After(calls)[category].start, to)
         == Min(After(calls)[category].count, Max(limit, 0))
  {
    var before, call := calls[..|calls| - 1], calls[|calls| - 1];
    WindowIsLast(before, category);
    if category in After(before) {
      WindowAllowsItsLimit(before, category, limit, to);
    }
    if call.category == category {
      var w := Opened(After(before), category, call.now);
      if w.count == 0 {
        NoneYet(before, category, call.now, to);
      }
    }
  }

  /** What a window leaves of the bound 2 * limit - 1 on the interval of 60 seconds from `t`. */
  function Bound(windows: Windows, category: string, limit: int, t: real): int {
    if category !in windows || limit <= 0 then 0
    else
      var w := windows[category];
      if w.start < t then Max(0, Min(w.count, limit) - 1)
      else if w.start < t + 60.0 then limit - 1 + Min(w.count, limit)
      else 2 * limit - 1
  }

  lemma {:induction false} AcceptedWithinBound(calls: seq<Call>, category: string, limit: int, t: real)
    requires Ordered(calls) && FixedLimit(calls, category, limit)
    ensures Accepted(calls, category, t, t + 60.0) <= Bound(After(calls), category, limit, t)
  {
    if calls != [] {
      var before, call := calls[..|calls| - 1], calls[|calls| - 1];
      AcceptedWithinBound(before, category, limit, t);
      WindowIsLast(before, category);
      if call.now < t {
        NoneYet(before, category, t, t + 60.0);
      }
    }
  }

  lemma {:induction false} AllAreCounted(calls: seq<Call>, category: string, from: real, to: real, allowed: set<nat>)
    requires forall i :: i in allowed ==> && i < |calls| && calls[i].category == category && from <= calls[i].now < to
                                          && Allows(calls[..i], calls[i])
    ensures |allowed| <= Accepted(calls, category, from, to)
  {
    if calls != [] {
      var n := |calls| - 1;
      var before := calls[..n];
      forall i | i in allowed - {n} ensures i < n && before[i] == calls[i] && before[..i] == calls[..i] {
      }
      AllAreCounted(before, category, from, to, allowed - {n});
    } else {
      assert allowed == {};
    }
  }

  /** In every half-open interval of 60 seconds of a whole trace, at most twice the limit less one are allowed. */
  lemma IntervalBound(calls: seq<Call>, category: string, limit: int, t: real, allowed: set<nat>)
    requires Ordered(calls) && FixedLimit(calls, category, limit)
    requires forall i :: i in allowed ==>
      && i < |calls| && calls[i].category == category && t <= calls[i].now < t + 60.0
      && Allows(calls[..i], calls[i])
    ensures |allowed| <= if limit <= 0 then 0 else 2 * limit - 1
  {
    AcceptedWithinBound(calls, category, limit, t);
    AllAreCounted(calls, category, t, t + 60.0, allowed);
  }

  /** A possible trace under a fixed limit, up to a time. */
  predicate Steady(calls: seq<Call>, category: string, limit: int, upTo: real) {
    && Ordered(calls)
    && FixedLimit(calls, category, limit)
    && forall i :: 0 <= i < |calls| ==> calls[i].now <= upTo
  }

  lemma SteadySnoc(calls: seq<Call>, call: Call, upTo: real)
    requires Steady(calls, call.category, call.limit, upTo) && upTo <= call.now
    ensures Steady(calls + [call], call.category, call.limit, call.now)
  {
  }

  lemma AcceptedSnoc(calls: seq<Call>, call: Call, category: string, from: real, to: real)
    ensures Accepted(calls + [call], category, from, to)
         == Accepted(calls, category, from, to) + if In(call, category, from, to) && Allows(calls, call) then 1 else 0
    ensures After(calls + [call])
         == After(calls)[call.category := Counted(Opened(After(calls), call.category, call.now))]
  {
    AfterSnoc(calls, call);
    assert (calls + [call])[..|calls|] == calls;
  }

  /** A trace whose last window is `w`, with `accepted` calls allowed from one to sixty-one. */
  ghost predicate Reaches(calls: seq<Call>, category: string, limit: int, upTo: real, w: Window, accepted: nat) {
    && Steady(calls, category, limit, upTo)
    && category in After(calls) && After(calls)[category] == w
    && Accepted(calls, category, 1.0, 61.0) == accepted
  }

  lemma OneMore(calls: seq<Call>, category: string, limit: int, upTo: real, w: Window, accepted: nat, now: real)
    requires Reaches(calls, category, limit, upTo, w, accepted) && upTo <= now && 1.0 <= now < 61.0
    requires if now < w.start + 60.0 then w.count < limit else 0 < limit
    ensures Reaches(calls + [Call(category, limit, now)], category, limit, now,
                    if now < w.start + 60.0 then w.(count := w.count + 1) else Window(now, 1), accepted + 1)
  {
    SteadySnoc(calls, Call(category, limit, now), upTo);
    AcceptedSnoc(calls, Call(category, limit, now), category, 1.0, 61.0);
  }

  /** As long as an open window has room, every call of a burst is allowed. */
  lemma Fill(calls: seq<Call>, category: string, limit: int, upTo: real, w: Window, accepted: nat, now: real)
    returns (filled: seq<Call>)
    requires Reaches(calls, category, limit, upTo, w, accepted) && w.count <= limit
    requires upTo <= now < w.start + 60.0 && 1.0 <= now < 61.0
    ensures Reaches(filled, category, limit, now, w.(count := limit), accepted + limit - w.count)
    decreases limit - w.count
  {
    if w.count == limit {
      filled := calls;
    } else {
      OneMore(calls, category, limit, upTo, w, accepted, now);
      filled := Fill(calls + [Call(category, limit, now)], category, limit, now,
                     w.(count := w.count + 1), accepted + 1, now);
    }
  }

  lemma First(call: Call)
    requires call.now == 0.0
    ensures Reaches([call], call.category, call.limit, 0.0, Window(0.0, 1), 0)
  {
    assert [call][..0] == [];
  }

  /** The bound is reached for every positive limit: the end of one window and the beginning of the next. */
  lemma IntervalBoundIsTight(category: string, limit: int) returns (calls: seq<Call>, t: real)
    requires limit > 0
    ensures Ordered(calls) && FixedLimit(calls, category, limit)
    ensures Accepted(calls, category, t, t + 60.0) == 2 * limit - 1
  {
    First(Call(category, limit, 0.0));
    calls := Fill([Call(category, limit, 0.0)], category, limit, 0.0, Window(0.0, 1), 0, 59.0);
    OneMore(calls, category, limit, 59.0, Window(0.0, limit), limit - 1, 60.0);
    calls := Fill(calls + [Call(category, limit, 60.0)], category, limit, 60.0, Window(60.0, 1), limit, 60.0);
    t := 1.0;
  }

  /** The calls of one category. */
  function Only(calls: seq<Call>, category: string): seq<Call> {
    if calls == [] then []
    else
      var last := calls[|calls| - 1];
      Only(calls[..|calls| - 1], category) + if last.category == category then [last] else []
  }

  /** Categories do not influence each other: a call is answered as if only its own category had ever been called. */
  lemma {:induction false} CategoriesAreIsolated(calls: seq<Call>, call: Call)
    ensures Allows(calls, call) == Allows(Only(calls, call.category), call)
    ensures call.category in After(calls) <==> call.category in After(Only(calls, call.category))
    ensures call.category in After(calls) ==>
              After(calls)[call.category] == After(Only(calls, call.category))[call.category]
  {
    if calls != [] {
      var before, last := calls[..|calls| - 1], calls[|calls| - 1];
      CategoriesAreIsolated(before, call);
      var own := Only(before, call.category);
      if last.category == call.category {
        AfterSnoc(own, last);
      } else {
        assert Only(calls, call.category) == own;
      }
    }
  }
}
