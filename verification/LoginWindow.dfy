/** The sliding window of failed logins: what is remembered per client, and what that bounds. */
module LoginWindow {
  /** A check of a key and a code that was carried out. */
  datatype Check = Check(client: string, at: real, passed: bool)

  const WINDOW := 300.0

  /** When a client's checks failed since its last one that passed. */
  function Failures(checks: seq<Check>, client: string): seq<real> {
    if checks == [] then []
    else
      var before, last := Failures(checks[..|checks| - 1], client), checks[|checks| - 1];
      if last.client != client then before else if last.passed then [] else before + [last.at]
  }

  lemma FailuresSnoc(checks: seq<Check>, c: Check, client: string)
    ensures Failures(checks + [c], client)
         == if c.client != client then Failures(checks, client)
            else if c.passed then [] else Failures(checks, client) + [c.at]
  {
    assert (checks + [c])[..|checks|] == checks;
  }

  /** The times less than 300 seconds before `now`. */
  function Recent(times: seq<real>, now: real): seq<real> {
    if times == [] then []
    else if times[0] <= now - WINDOW then Recent(times[1..], now)
    else [times[0]] + Recent(times[1..], now)
  }

  predicate Sorted(times: seq<real>) {
    forall i, j :: 0 <= i < j < |times| ==> times[i] <= times[j]
  }

  predicate UpTo(times: seq<real>, now: real) {
    forall i :: 0 <= i < |times| ==> times[i] <= now
  }

  /** Times at least `n` places apart are at least 300 seconds apart. */
  predicate Spaced(times: seq<real>, n: nat) {
    forall i, j :: 0 <= i <= j < |times| && i + n <= j ==> times[i] + WINDOW <= times[j]
  }

  /** Nothing is dropped when the first time is recent. */
  lemma {:induction false} AllRecent(times: seq<real>, now: real)
    requires Sorted(times) && (times == [] || now - WINDOW < times[0])
    ensures Recent(times, now) == times
  {
    if times != [] {
      AllRecent(times[1..], now);
      assert times == [times[0]] + times[1..];
    }
  }

  /** What is recent is a suffix, and all before it is too old. */
  lemma {:induction false} RecentIsSuffix(times: seq<real>, now: real)
    requires Sorted(times)
    ensures var k := |times| - |Recent(times, now)|;
            && 0 <= k && Recent(times, now) == times[k..]
            && forall i :: 0 <= i < k ==> times[i] <= now - WINDOW
  {
    if times != [] {
      if times[0] <= now - WINDOW {
        RecentIsSuffix(times[1..], now);
      } else {
        AllRecent(times, now);
      }
    }
  }

  lemma {:induction false} RecentLater(times: seq<real>, earlier: real, now: real)
    requires earlier <= now
    ensures Recent(Recent(times, earlier), now) == Recent(times, now)
  {
    if times != [] {
      var rest := Recent(times[1..], earlier);
      RecentLater(times[1..], earlier, now);
      if times[0] > earlier - WINDOW {
        assert ([times[0]] + rest)[1..] == rest;
      }
    }
  }

  lemma {:induction false} RecentSnoc(times: seq<real>, x: real, now: real)
    requires now - WINDOW < x
    ensures Recent(times + [x], now) == Recent(times, now) + [x]
  {
    if times == [] {
      assert [] + [x] == [x];
    } else {
      RecentSnoc(times[1..], x, now);
      assert (times + [x])[1..] == times[1..] + [x];
    }
  }

  /** A failure that is let through while fewer than `n` are recent keeps the spacing. */
  lemma SpacedSnoc(times: seq<real>, now: real, n: nat)
    requires Sorted(times) && UpTo(times, now) && Spaced(times, n) && |Recent(times, now)| < n
    ensures Sorted(times + [now]) && UpTo(times + [now], now) && Spaced(times + [now], n)
  {
    RecentIsSuffix(times, now);
  }

  /** How many of the times are in [from, from + 300). */
  function CountIn(times: seq<real>, from: real): nat {
    if times == [] then 0
    else
      var last := times[|times| - 1];
      CountIn(times[..|times| - 1], from) + if from <= last < from + WINDOW then 1 else 0
  }

  lemma {:induction false} NoneBefore(times: seq<real>, from: real, k: nat)
    requires k <= |times| && forall i :: 0 <= i < k ==> times[i] < from
    ensures CountIn(times, from) <= |times| - k
  {
    if times != [] {
      NoneBefore(times[..|times| - 1], from, if k == |times| then k - 1 else k);
    }
  }

  /** Spaced times: at most `n` in any half-open interval of 300 seconds. */
  lemma {:induction false} SpacedBound(times: seq<real>, n: nat, from: real)
    requires Sorted(times) && Spaced(times, n)
    ensures CountIn(times, from) <= n
  {
    if times != [] {
      var last := times[|times| - 1];
      if last >= from + WINDOW || last < from {
        SpacedBound(times[..|times| - 1], n, from);
      } else if |times| > n {
        var k := |times| - 1 - n;
        assert times[k] + WINDOW <= times[k + n];
        NoneBefore(times, from, k + 1);
      } else {
        NoneBefore(times, from, 0);
      }
    }
  }

  /** At every moment so far, the failures of `client` since its last success are spaced. */
  ghost predicate SpacedAt(checks: seq<Check>, client: string, n: nat, moment: nat) {
    moment <= |checks| ==>
      var failures := Failures(checks[..moment], client);
      Sorted(failures) && Spaced(failures, n)
  }

  ghost predicate AlwaysSpaced(checks: seq<Check>, n: nat) {
    forall client, moment: nat {:trigger SpacedAt(checks, client, n, moment)} :: SpacedAt(checks, client, n, moment)
  }

  lemma AlwaysSpacedSnoc(checks: seq<Check>, c: Check, n: nat)
    requires AlwaysSpaced(checks, n)
    requires Sorted(Failures(checks + [c], c.client)) && Spaced(Failures(checks + [c], c.client), n)
    ensures AlwaysSpaced(checks + [c], n)
  {
    forall client, moment: nat ensures SpacedAt(checks + [c], client, n, moment) {
      var all := checks + [c];
      if moment <= |checks| {
        assert SpacedAt(checks, client, n, moment);
        assert all[..moment] == checks[..moment];
      } else if moment == |all| {
        assert SpacedAt(checks, client, n, |checks|);
        assert all[..moment] == all && checks[..|checks|] == checks;
        FailuresSnoc(checks, c, client);
      }
    }
  }

  /** Check `i` of the client failed in [from, from + 300), and none of its checks has passed since. */
  predicate FailedSince(checks: seq<Check>, client: string, from: real, i: nat) {
    && i < |checks| && checks[i].client == client && !checks[i].passed && from <= checks[i].at < from + 300.0
    && forall j :: i < j < |checks| && checks[j].client == client ==> !checks[j].passed
  }

  lemma FailedBefore(checks: seq<Check>, client: string, from: real, i: nat)
    requires FailedSince(checks, client, from, i) && i < |checks| - 1
    ensures FailedSince(checks[..|checks| - 1], client, from, i)
  {
  }

  lemma CountSnoc(times: seq<real>, time: real, from: real)
    ensures CountIn(times + [time], from) == CountIn(times, from) + if from <= time < from + WINDOW then 1 else 0
  {
    assert (times + [time])[..|times|] == times;
  }

  lemma {:induction false} AllAreCounted(checks: seq<Check>, client: string, from: real, failed: set<nat>)
    requires forall i :: i in failed ==> FailedSince(checks, client, from, i)
    ensures |failed| <= CountIn(Failures(checks, client), from)
  {
    if checks != [] {
      var n := |checks| - 1;
      var before, last := checks[..n], checks[n];
      forall i | i in failed - {n} ensures FailedSince(before, client, from, i) {
        FailedBefore(checks, client, from, i);
      }
      AllAreCounted(before, client, from, failed - {n});
      if last.client == client && last.passed {
        forall i ensures i !in failed {
          assert i in failed ==> FailedSince(checks, client, from, i);
        }
      } else if last.client == client {
        CountSnoc(Failures(before, client), last.at, from);
        assert |failed| <= |failed - {n}| + 1;
      } else {
        assert n !in failed;
      }
    }
  }

  /** Between two successful checks of a client, at most `n` fail in any half-open interval of 300 seconds. */
  lemma FailuresAreBounded(checks: seq<Check>, client: string, n: nat, moment: nat, from: real, failed: set<nat>)
    requires AlwaysSpaced(checks, n) && moment <= |checks|
    requires forall i :: i in failed ==> FailedSince(checks[..moment], client, from, i)
    ensures |failed| <= n
  {
    assert SpacedAt(checks, client, n, moment);
    SpacedBound(Failures(checks[..moment], client), n, from);
    AllAreCounted(checks[..moment], client, from, failed);
  }
}
