/** Indices that go round a list of `count` entries. */
module RoundRobin {
  lemma MultipleIsFar(x: int, count: nat)
    ensures x >= 1 ==> x * count >= count
    ensures x <= -1 ==> x * count + count <= 0
  {
    if x >= 1 {
      assert x * count == (x - 1) * count + count;
    } else if x <= -1 {
      assert x * count == (x + 1) * count - count;
    }
  }

  lemma ModUnique(n: nat, count: nat, q: nat, r: nat)
    requires n == q * count + r && r < count
    ensures n % count == r
  {
    MultipleIsFar(n / count - q, count);
    assert (n / count - q) * count == r - n % count;
  }

  lemma ModAdd(n: nat, d: nat, count: nat)
    requires 0 < count
    ensures (n % count + d) % count == (n + d) % count
  {
    var q, r := (n % count + d) / count, (n % count + d) % count;
    assert n + d == (n / count + q) * count + r;
    ModUnique(n + d, count, n / count + q, r);
  }

  /** Call `i` starts at index `starts[i]` and visits `visits[i]` entries, at least one. */
  predicate IsRotation(starts: seq<nat>, visits: seq<nat>, count: nat) {
    && 0 < count <= |visits| && |starts| == |visits|
    && starts[0] < count
    && (forall i :: 0 <= i < |visits| ==> 1 <= visits[i])
    && (forall i :: 0 < i < |starts| ==> starts[i] == (starts[i - 1] + visits[i - 1]) % count)
  }

  predicate Reaches(starts: seq<nat>, visits: seq<nat>, count: nat, call: nat, j: nat, p: nat) {
    call < |starts| && call < |visits| && 0 < count && j < visits[call] && (starts[call] + j) % count == p
  }

  lemma NextStart(starts: seq<nat>, visits: seq<nat>, count: nat, i: nat, t: nat)
    requires IsRotation(starts, visits, count)
    requires i + 1 < count && t % count == starts[i]
    ensures (t + visits[i]) % count == starts[i + 1]
  {
    ModAdd(t, visits[i], count);
  }

  /** The call that reaches position `q` on the unrolled circle, `t` being the unrolled start of call `i`. */
  lemma {:induction false} FindVisit(starts: seq<nat>, visits: seq<nat>, count: nat, i: nat, t: nat, q: nat)
    returns (call: nat, j: nat)
    requires IsRotation(starts, visits, count)
    requires i < count && t % count == starts[i] && t <= q < t + (count - i)
    ensures call < count && Reaches(starts, visits, count, call, j, q % count)
    decreases count - i
  {
    if q < t + visits[i] {
      ModAdd(t, q - t, count);
      call, j := i, q - t;
      assert Reaches(starts, visits, count, i, q - t, q % count);
    } else {
      NextStart(starts, visits, count, i, t);
      call, j := FindVisit(starts, visits, count, i + 1, t + visits[i], q);
    }
  }

  /** No starvation: among any `count` consecutive calls, one visits entry `p`. */
  lemma EveryEntryVisited(starts: seq<nat>, visits: seq<nat>, count: nat, p: nat)
    requires IsRotation(starts, visits, count) && p < count
    ensures exists call: nat, j: nat :: call < count && Reaches(starts, visits, count, call, j, p)
  {
    ModUnique(starts[0], count, 0, starts[0]);
    var q := if starts[0] <= p then p else p + count;
    ModUnique(q, count, if starts[0] <= p then 0 else 1, p);
    var call, j := FindVisit(starts, visits, count, 0, starts[0], q);
  }

  /** Calls that follow one another, the next one starting at `next`. */
  predicate RotatesTo(starts: seq<nat>, visits: seq<nat>, count: nat, next: nat) {
    && 0 < count && |starts| == |visits| && next < count
    && (forall i :: 0 <= i < |starts| ==> 1 <= visits[i] && starts[i] < count)
    && (forall i :: 0 < i < |starts| ==> starts[i] == (starts[i - 1] + visits[i - 1]) % count)
    && (starts != [] ==> next == (starts[|starts| - 1] + visits[|visits| - 1]) % count)
  }

  lemma RotatesSnoc(starts: seq<nat>, visits: seq<nat>, count: nat, next: nat, n: nat)
    requires RotatesTo(starts, visits, count, next) && 1 <= n
    ensures RotatesTo(starts + [next], visits + [n], count, (next + n) % count)
  {
  }
}
