/** What holds in every state of every run of the block-lease protocol. */
module LeaseSafety {
  import opened ActionStore
  import opened LeaseProtocol

  /** Each address in the ACL has a pending HAProxy block row, whatever fails or crashes and wherever. */
  lemma WriteAheadSafety(s: State, labels: seq<Label>, a: Address)
    requires IsInitial(s) && IsRun(s, labels)
    ensures a in Exec(s, labels).acl ==> Backed(Exec(s, labels).rows, a)
  {
    RunKeepsInv(s, labels);
  }

  /** The ACL never holds an address twice, although `add acl` itself would store a duplicate. */
  lemma SingleEntry(s: State, labels: seq<Label>, a: Address)
    requires IsInitial(s) && IsRun(s, labels)
    ensures Exec(s, labels).acl[a] <= 1
  {
    RunKeepsInv(s, labels);
  }

  lemma StepKeepsEnded(s: State, l: Label, i: nat)
    requires Inv(s) && Enabled(s, l) && i < |s.rows|
    ensures i < |Apply(s, l).rows| && SameLease(Apply(s, l).rows[i], s.rows[i])
    ensures HasEnded(s.rows[i]) ==> HasEnded(Apply(s, l).rows[i])
  {
  }

  lemma {:induction false} RunPrefix(s: State, labels: seq<Label>, n: nat)
    requires IsRun(s, labels) && n <= |labels|
    ensures IsRun(s, labels[..n])
    decreases |labels|
  {
    if n == |labels| {
      assert labels[..n] == labels;
    } else {
      var init := labels[..|labels| - 1];
      RunPrefix(s, init, n);
      assert init[..n] == labels[..n];
    }
  }

  /** A row is never deleted or re-addressed, and once `revoked` or `expired` it never becomes pending again. */
  lemma {:induction false} SingleEnding(s: State, labels: seq<Label>, n: nat, i: nat)
    requires IsInitial(s) && IsRun(s, labels) && n <= |labels|
    ensures IsRun(s, labels[..n])
    ensures i < |Exec(s, labels[..n]).rows| ==>
      && i < |Exec(s, labels).rows| && SameLease(Exec(s, labels).rows[i], Exec(s, labels[..n]).rows[i])
      && (HasEnded(Exec(s, labels[..n]).rows[i]) ==> HasEnded(Exec(s, labels).rows[i]))
      && (HasEnded(Exec(s, labels[..n]).rows[i]) ==> !IsPending(Exec(s, labels).rows[i]))
  {
    RunPrefix(s, labels, n);
    if i < |Exec(s, labels[..n]).rows| {
      EndedStays(s, labels, n, i);
    }
  }

  lemma {:induction false} EndedStays(s: State, labels: seq<Label>, n: nat, i: nat)
    requires Inv(s) && IsRun(s, labels) && n <= |labels|
    requires IsRun(s, labels[..n]) && i < |Exec(s, labels[..n]).rows|
    ensures i < |Exec(s, labels).rows| && SameLease(Exec(s, labels).rows[i], Exec(s, labels[..n]).rows[i])
    ensures HasEnded(Exec(s, labels[..n]).rows[i]) ==> HasEnded(Exec(s, labels).rows[i])
    decreases |labels|
  {
    if n == |labels| {
      assert labels[..n] == labels;
    } else {
      var init := labels[..|labels| - 1];
      assert init[..n] == labels[..n];
      EndedStays(s, init, n, i);
      RunKeepsInv(s, init);
      StepKeepsEnded(Exec(s, init), labels[|labels| - 1], i);
    }
  }

  // ---- Expiry never cuts a live lease -----------------------------------------------------------

  /** The step is `reconcile` taking a copy of `a` out of the ACL. */
  predicate Cuts(s: State, l: Label, a: Address) {
    && Enabled(s, l) && l.SendDel? && s.pc.job.Lapse?
    && JobText(s.pc.job).address == a && l.left < s.acl[a]
  }

  /** Leases of one address spell it alike, as when every row holds the canonical text. */
  predicate SpelledAlike(rows: seq<Row>) {
    forall i, j :: 0 <= i < |rows| && 0 <= j < |rows| && IsLease(rows[i]) && IsLease(rows[j])
      && rows[i].ip.Valid? && rows[j].ip.Valid? && rows[i].ip.address == rows[j].ip.address
      ==> rows[i].ip == rows[j].ip
  }

  /** As when every row holds the canonical text of its address. */
  lemma CanonicalIsAlike(rows: seq<Row>)
    requires forall i :: 0 <= i < |rows| && rows[i].ip.Valid? ==> rows[i].ip.spelling == 0
    ensures SpelledAlike(rows)
  {
  }

  /** In every state of every run: no expiry step takes out a copy of an address that has a lease in the future. */
  lemma ExpiryKeepsLiveLeases(s: State, labels: seq<Label>, l: Label, i: nat)
    requires IsInitial(s) && IsRun(s, labels) && SpelledAlike(Exec(s, labels).rows)
    requires Enabled(Exec(s, labels), l) && l.SendDel? && Exec(s, labels).pc.job.Lapse?
    requires var t := Exec(s, labels);
             && i < |t.rows| && IsLease(t.rows[i]) && t.rows[i].ip.Valid?
             && t.rows[i].expires.Some? && t.clock < t.rows[i].expires.value
    ensures var t, a := Exec(s, labels), Exec(s, labels).rows[i].ip.address; Apply(t, l).acl[a] == t.acl[a]
  {
    RunKeepsInv(s, labels);
    var t := Exec(s, labels);
    var Lapse(now, entries, k) := t.pc.job;
    if JobText(t.pc.job).address == t.rows[i].ip.address {
      LiveTwin(t, entries, now, k, i);
    }
  }

  /** A live lease of the due entry's address, spelled alike, would have made the entry not due. */
  lemma LiveTwin(t: State, entries: seq<Entry>, now: int, k: nat, i: nat)
    requires SnapshotHolds(t.rows, entries, k) && SpelledAlike(t.rows)
    requires k < |entries| && IsLease(entries[k].row) && entries[k].row.ip.Valid?
    requires i < |t.rows| && LiveLeaseOf(t.rows[i], entries[k].row.ip.address, now)
    ensures !IsDue(entries, entries[k].row, now)
  {
    var e := Entry(i, t.rows[i]);
    assert e in entries && !IsLapsed(e.row, now);
    assert t.rows[entries[k].id] == entries[k].row;
  }
}
