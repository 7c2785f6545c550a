/** When exactly an expiry sweep can take a live lease out of the ACL. */
module LeaseExpiry {
  import opened Wrappers
  import opened ActionStore
  import opened LeaseProtocol
  import opened LeaseSafety

  /** One lease of `a` ends later than `now`; another, and every lease of the same text as that one, has ended. */
  ghost predicate Stray(rows: seq<Row>, a: Address, now: int) {
    && (exists i :: 0 <= i < |rows| && LeaseOf(rows[i], a) && rows[i].expires.Some? && now < rows[i].expires.value)
    && (exists i :: 0 <= i < |rows| && LeaseOf(rows[i], a) && TextEnded(rows, rows[i].ip, now))
  }

  predicate TextEnded(rows: seq<Row>, text: IpText, now: int) {
    forall j :: 0 <= j < |rows| && IsLease(rows[j]) && rows[j].ip == text ==>
      rows[j].expires == None || rows[j].expires.value <= now
  }

  /** `reconcile` would attempt such a row. */
  lemma EndedIsDue(rows: seq<Row>, i: nat, now: int)
    requires i < |rows| && IsLease(rows[i])
    ensures TextEnded(rows, rows[i].ip, now) <==> IsDue(PendingActions(rows), rows[i], now)
  {
    PendingLists(rows);
    forall j: nat | j < |rows| && IsLease(rows[j]) ensures Entry(j, rows[j]) in PendingActions(rows) {
    }
    if IsDue(PendingActions(rows), rows[i], now) {
      forall j: nat | j < |rows| && IsLease(rows[j]) && rows[j].ip == rows[i].ip
        ensures rows[j].expires == None || rows[j].expires.value <= now
      {
        assert Entry(j, rows[j]) in PendingActions(rows);
      }
    }
  }

  /** A run of one sweep from `s`: it takes the lock with its first label and still holds it before the last. */
  ghost predicate IsSweep(s: State, labels: seq<Label>)
    decreases |labels|
  {
    && labels != [] && IsRun(s, labels)
    && (|labels| == 1 ==> labels[0] == BeginSweep)
    && (|labels| > 1 ==> IsSweep(s, labels[..|labels| - 1]) && !Exec(s, labels[..|labels| - 1]).pc.Idle?)
  }

  /** The sweep `labels` from `s` goes on to remove `a` from the ACL while `a` has a lease in the future. */
  ghost predicate CutsLive(s: State, labels: seq<Label>, l: Label, a: Address) {
    && IsSweep(s, labels) && Cuts(Exec(s, labels), l, a)
    && BackedLive(Exec(s, labels).rows, a, Exec(s, labels).clock)
  }

  /** The pc belongs to the sweep that took the snapshot `entries` at time `now`. */
  predicate SweepPc(pc: Pc, now: int, entries: seq<Entry>) {
    match pc
    case Sweep(t, es, _) => t == now && es == entries
    case Expire(t, es, _) => t == now && es == entries
    case Delete(Lapse(t, es, _)) => t == now && es == entries
    case Absent(Lapse(t, es, _)) => t == now && es == entries
    case _ => false
  }

  /** What a sweep has done so far: rows are untouched or ended, the ACL has only shrunk. */
  ghost predicate SweptFrom(s: State, t: State) {
    && (t.pc.Idle? || SweepPc(t.pc, s.clock, PendingActions(s.rows)))
    && s.clock <= t.clock
    && |t.rows| == |s.rows|
    && (forall i :: 0 <= i < |s.rows| ==> t.rows[i] == s.rows[i] || HasEnded(t.rows[i]))
    && (forall a :: t.acl[a] <= s.acl[a])
  }

  lemma SweepStep(s: State, t: State, l: Label)
    requires SweptFrom(s, t) && Enabled(t, l) && !t.pc.Idle?
    ensures SweptFrom(s, Apply(t, l))
  {
  }

  lemma {:induction false} SweepShape(s: State, labels: seq<Label>)
    requires IsSweep(s, labels)
    ensures SweptFrom(s, Exec(s, labels))
    decreases |labels|
  {
    var init := labels[..|labels| - 1];
    if |labels| == 1 {
      assert init == [] && Exec(s, init) == s;
    } else {
      SweepShape(s, init);
      SweepStep(s, Exec(s, init), labels[|labels| - 1]);
    }
  }

  lemma OnlyStrayIsCut(s: State, labels: seq<Label>, l: Label, a: Address)
    requires CutsLive(s, labels, l, a) && Inv(Exec(s, labels))
    ensures a in s.acl && Stray(s.rows, a, s.clock)
  {
    SweepShape(s, labels);
    PendingLists(s.rows);
    var t := Exec(s, labels);
    var i :| 0 <= i < |t.rows| && LiveLeaseOf(t.rows[i], a, t.clock);
    assert LiveLeaseOf(s.rows[i], a, s.clock);
    var e := t.pc.job.entries[t.pc.job.k];
    assert e in PendingActions(s.rows);
    assert LeaseOf(s.rows[e.id], a);
    EndedIsDue(s.rows, e.id, s.clock);
    assert s.acl[a] >= t.acl[a] > 0;
  }

  lemma Extend(s: State, labels: seq<Label>, l: Label)
    requires IsSweep(s, labels) && !Exec(s, labels).pc.Idle? && Enabled(Exec(s, labels), l)
    ensures IsSweep(s, labels + [l]) && Exec(s, labels + [l]) == Apply(Exec(s, labels), l)
  {
    assert (labels + [l])[..|labels|] == labels;
  }

  ghost predicate AtEntry(s: State, labels: seq<Label>, k: nat) {
    IsSweep(s, labels) && Exec(s, labels) == s.(pc := Sweep(s.clock, PendingActions(s.rows), k))
  }

  ghost predicate Deleting(s: State, labels: seq<Label>, k: nat) {
    IsSweep(s, labels) && Exec(s, labels) == s.(pc := Delete(Lapse(s.clock, PendingActions(s.rows), k)))
  }

  /** A failed deletion moves on to the next entry. */
  lemma FailEntry(s: State, before: seq<Label>, k: nat) returns (labels: seq<Label>)
    requires k < |PendingActions(s.rows)| && Deleting(s, before, k) && PendingActions(s.rows)[k].row.ip.Valid?
    ensures AtEntry(s, labels, k + 1)
  {
    var a := PendingActions(s.rows)[k].row.ip.address;
    Extend(s, before, SendDel(s.acl[a], false));
    labels := before + [SendDel(s.acl[a], false)];
    assert s.acl[a := s.acl[a]] == s.acl;
  }

  lemma LookAtEntry(s: State, before: seq<Label>, k: nat) returns (labels: seq<Label>)
    requires k < |PendingActions(s.rows)| && AtEntry(s, before, k)
    ensures var row := PendingActions(s.rows)[k].row;
            if IsDue(PendingActions(s.rows), row, s.clock) && row.ip.Valid?
            then Deleting(s, labels, k) else AtEntry(s, labels, k + 1)
  {
    Extend(s, before, SweepNext(false));
    labels := before + [SweepNext(false)];
  }

  /** A sweep whose deletions all fail arrives at entry `k` having changed nothing. */
  lemma {:induction false} ReachEntry(s: State, k: nat) returns (labels: seq<Label>)
    requires s.pc.Idle? && k <= |PendingActions(s.rows)|
    ensures AtEntry(s, labels, k)
  {
    if k == 0 {
      labels := [BeginSweep];
      assert labels[..0] == [];
    } else {
      var before := ReachEntry(s, k - 1);
      labels := LookAtEntry(s, before, k - 1);
      var row := PendingActions(s.rows)[k - 1].row;
      if IsDue(PendingActions(s.rows), row, s.clock) && row.ip.Valid? {
        labels := FailEntry(s, labels, k - 1);
      }
    }
  }

  lemma DeletionCuts(s: State, labels: seq<Label>, k: nat, a: Address)
    requires k < |PendingActions(s.rows)| && Deleting(s, labels, k)
    requires a in s.acl && PendingActions(s.rows)[k].row.ip.Valid? && PendingActions(s.rows)[k].row.ip.address == a
    requires BackedLive(s.rows, a, s.clock)
    ensures CutsLive(s, labels, SendDel(0, true), a)
  {
  }

  lemma StrayIsCut(s: State, a: Address) returns (labels: seq<Label>, l: Label)
    requires s.pc.Idle? && a in s.acl && Stray(s.rows, a, s.clock)
    ensures CutsLive(s, labels, l, a)
  {
    var entries := PendingActions(s.rows);
    PendingLists(s.rows);
    var i :| 0 <= i < |s.rows| && LeaseOf(s.rows[i], a) && TextEnded(s.rows, s.rows[i].ip, s.clock);
    EndedIsDue(s.rows, i, s.clock);
    assert Entry(i, s.rows[i]) in entries;
    var k :| 0 <= k < |entries| && entries[k] == Entry(i, s.rows[i]);
    var before := ReachEntry(s, k);
    labels := LookAtEntry(s, before, k);
    l := SendDel(0, true);
    DeletionCuts(s, labels, k, a);
  }

  /** The exact condition: from an idle state, some sweep (whatever fails on the way) can remove the ACL entry
      of an address with a live lease if and only if a row of that address has lapsed, no live row shares its
      text, and a row spelling the address differently is live. */
  lemma SweepCutsLiveIff(s: State, a: Address)
    requires Inv(s) && s.pc.Idle?
    ensures (exists labels, l :: CutsLive(s, labels, l, a)) <==> (a in s.acl && Stray(s.rows, a, s.clock))
  {
    if labels, l :| CutsLive(s, labels, l, a) {
      RunKeepsInv(s, labels);
      OnlyStrayIsCut(s, labels, l, a);
    }
    if a in s.acl && Stray(s.rows, a, s.clock) {
      var labels, l := StrayIsCut(s, a);
      assert CutsLive(s, labels, l, a);
    }
  }

  /** Canonical rows leave no stray lease. */
  lemma SpelledAlikeIsNotStray(rows: seq<Row>, a: Address, now: int)
    requires SpelledAlike(rows)
    ensures !Stray(rows, a, now)
  {
    if j :| 0 <= j < |rows| && LeaseOf(rows[j], a) && rows[j].expires.Some? && now < rows[j].expires.value {
      forall i | 0 <= i < |rows| && LeaseOf(rows[i], a) ensures !TextEnded(rows, rows[i].ip, now) {
        assert rows[j].ip == rows[i].ip;
      }
    }
  }

  /** A lapsed lease under one text and a live one under another. */
  lemma TwoTextsAreStray(lapsed: Row, live: Row, a: Address, now: int)
    requires LeaseOf(lapsed, a) && IsLapsed(lapsed, now) && LiveLeaseOf(live, a, now) && lapsed.ip != live.ip
    ensures Stray([lapsed, live], a, now)
  {
    var rows := [lapsed, live];
    assert rows[0] == lapsed && rows[1] == live;
  }

  /** Two spellings of one address are enough: a lapsed row under the one and a live row under the other. */
  lemma StrayExample()
    ensures Stray([Intent(Valid("2001:db8::1", 0), Some(10)), Intent(Valid("2001:db8::1", 1), Some(30))],
                  "2001:db8::1", 20)
  {
    TwoTextsAreStray(Intent(Valid("2001:db8::1", 0), Some(10)), Intent(Valid("2001:db8::1", 1), Some(30)),
                     "2001:db8::1", 20);
  }

  // ---- A run that cuts a live lease --------------------------------------------------------------------

  lemma Then(start: State, labels: seq<Label>, s: State, l: Label, t: State)
    requires IsRun(start, labels) && Exec(start, labels) == s && Enabled(s, l) && Apply(s, l) == t
    ensures IsRun(start, labels + [l]) && Exec(start, labels + [l]) == t
  {
    assert (labels + [l])[..|labels|] == labels;
  }

  /** What a confirmed block leaves. */
  function Blocked(s: State, ip: IpText, expires: Option<int>): State
    requires ip.Valid?
  {
    s.(rows := s.rows + [Intent(ip, expires).(applied := true, result := Detail(""))],
       acl := if ip.address in s.acl then s.acl else s.acl + multiset{ip.address})
  }

  lemma IntendRun(start: State, before: seq<Label>, s: State, ip: IpText, expires: Option<int>)
    requires IsRun(start, before) && Exec(start, before) == s && s.pc.Idle? && ip.Valid?
    ensures IsRun(start, before + [Intend(ip, expires)])
    ensures Exec(start, before + [Intend(ip, expires)])
         == s.(rows := s.rows + [Intent(ip, expires)], pc := Check(|s.rows|))
  {
    Then(start, before, s, Intend(ip, expires), s.(rows := s.rows + [Intent(ip, expires)], pc := Check(|s.rows|)));
  }

  /** From the first read-back to the second: the address is added if it is not there. */
  lemma AddRun(start: State, before: seq<Label>, s: State, id: nat) returns (labels: seq<Label>)
    requires IsRun(start, before) && Exec(start, before) == s.(pc := Check(id)) && RowInBounds(s, id)
    requires s.rows[id].ip.address !in s.acl
    ensures IsRun(start, labels)
    ensures Exec(start, labels) == s.(acl := s.acl + multiset{s.rows[id].ip.address}, pc := Verify(id))
  {
    Then(start, before, s.(pc := Check(id)), Show(true), s.(pc := Add(id)));
    labels := before + [Show(true)];
    Then(start, labels, s.(pc := Add(id)), SendAdd(true, true),
         s.(acl := s.acl + multiset{s.rows[id].ip.address}, pc := Verify(id)));
    labels := labels + [SendAdd(true, true)];
  }

  lemma KnownRun(start: State, before: seq<Label>, s: State, id: nat)
    requires IsRun(start, before) && Exec(start, before) == s.(pc := Check(id)) && RowInBounds(s, id)
    requires s.rows[id].ip.address in s.acl
    ensures IsRun(start, before + [Show(true)]) && Exec(start, before + [Show(true)]) == s.(pc := Verify(id))
  {
    Then(start, before, s.(pc := Check(id)), Show(true), s.(pc := Verify(id)));
  }

  /** A block in which nothing fails. */
  lemma BlockRun(start: State, before: seq<Label>, s: State, ip: IpText, expires: Option<int>)
    returns (labels: seq<Label>)
    requires IsRun(start, before) && Exec(start, before) == s && s.pc.Idle? && ip.Valid?
    ensures IsRun(start, labels) && Exec(start, labels) == Blocked(s, ip, expires)
  {
    var id, rows := |s.rows|, s.rows + [Intent(ip, expires)];
    IntendRun(start, before, s, ip, expires);
    labels := before + [Intend(ip, expires)];
    var added := s.(rows := rows, acl := Blocked(s, ip, expires).acl);
    if ip.address in s.acl {
      KnownRun(start, labels, s.(rows := rows), id);
      labels := labels + [Show(true)];
    } else {
      labels := AddRun(start, labels, s.(rows := rows), id);
    }
    BlockConfirmed(s, ip, expires);
    labels := ConfirmRun(start, labels, added, id);
  }

  lemma BlockConfirmed(s: State, ip: IpText, expires: Option<int>)
    requires ip.Valid?
    ensures var rows, id := s.rows + [Intent(ip, expires)], |s.rows|;
            rows[id := rows[id].(applied := true, result := Detail(""))] == Blocked(s, ip, expires).rows
    ensures ip.address in Blocked(s, ip, expires).acl
  {
  }

  lemma ConfirmRun(start: State, before: seq<Label>, s: State, id: nat) returns (labels: seq<Label>)
    requires IsRun(start, before) && Exec(start, before) == s.(pc := Verify(id)) && s.pc.Idle?
    requires RowInBounds(s, id) && s.rows[id].ip.address in s.acl
    ensures IsRun(start, labels)
    ensures Exec(start, labels)
         == s.(rows := s.rows[id := s.rows[id].(applied := true, result := Detail(""))])
  {
    Then(start, before, s.(pc := Verify(id)), Show(true), s.(pc := Confirm(id)));
    labels := before + [Show(true)];
    Then(start, labels, s.(pc := Confirm(id)), ConfirmRow(""),
         s.(rows := s.rows[id := s.rows[id].(applied := true, result := Detail(""))]));
    labels := labels + [ConfirmRow("")];
  }

  /** It happens from the empty state: block one spelling until 10, block the other until 30, and sweep at 20. */
  lemma StrayRun(a: Address) returns (start: State, labels: seq<Label>, sweep: seq<Label>, l: Label)
    ensures IsInitial(start) && IsRun(start, labels) && CutsLive(Exec(start, labels), sweep, l, a)
  {
    start := State([], multiset{}, 0, Idle);
    var first := Blocked(start, Valid(a, 0), Some(10));
    labels := BlockRun(start, [], start, Valid(a, 0), Some(10));
    var second := Blocked(first, Valid(a, 1), Some(30));
    labels := BlockRun(start, labels, first, Valid(a, 1), Some(30));
    Then(start, labels, second, Tick(20), second.(clock := 20));
    labels := labels + [Tick(20)];
    var s := second.(clock := 20);
    TwoTextsAreStray(s.rows[0], s.rows[1], a, 20);
    assert s.rows == [s.rows[0], s.rows[1]];
    sweep, l := StrayIsCut(s, a);
  }
}
