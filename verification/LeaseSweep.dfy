/** What one complete `reconcile` does, as a relation between the table and the ACL before and after it. */
module LeaseSweep {
  import opened Wrappers
  import opened ActionStore
  import opened LeaseProtocol
  import opened LeaseSafety

  /** A row that the sweep at time `now` tries to expire. */
  predicate Attempted(rows: seq<Row>, i: nat, now: int) {
    i < |rows| && IsDue(PendingActions(rows), rows[i], now) && rows[i].ip.Valid?
  }

  ghost predicate AttemptedAddress(rows: seq<Row>, a: Address, now: int) {
    exists i: nat :: Attempted(rows, i, now) && rows[i].ip.address == a
  }

  /** `faults` are the addresses for which some runtime command of the sweep failed. */
  ghost predicate SweepOutcome(
    rows: seq<Row>, acl: multiset<Address>, now: int, faults: set<Address>,
    rows': seq<Row>, acl': multiset<Address>)
  {
    && |rows'| == |rows|
    && (forall i: nat :: i < |rows| ==>
          if Attempted(rows, i, now) then
            && (rows'[i] == rows[i] || rows'[i] == Finished(rows[i], Expired))
            && (rows[i].ip.address !in faults ==> rows'[i] == Finished(rows[i], Expired))
          else rows'[i] == rows[i])
    && (forall a ::
          if AttemptedAddress(rows, a, now) then acl'[a] <= acl[a] && (a !in faults ==> acl'[a] == 0)
          else acl'[a] == acl[a])
  }

  /** A lease of an address without a live lease. */
  ghost predicate Unentitled(rows: seq<Row>, row: Row, now: int) {
    IsLease(row) && row.ip.Valid? && !BackedLive(rows, row.ip.address, now)
  }

  /** With leases spelled alike, a row is attempted exactly when no lease of its address ends later. */
  lemma AttemptedIff(rows: seq<Row>, i: nat, now: int)
    requires SpelledAlike(rows) && i < |rows| && IsLease(rows[i]) && rows[i].ip.Valid?
    ensures Attempted(rows, i, now)
       <==> NoneLater(rows, rows[i].ip.address, now)
  {
    AttemptedIffUnbacked(rows, i, now);
  }

  lemma AttemptedIffUnbacked(rows: seq<Row>, i: nat, now: int)
    requires SpelledAlike(rows) && i < |rows| && IsLease(rows[i]) && rows[i].ip.Valid?
    ensures Attempted(rows, i, now) <==> !BackedLive(rows, rows[i].ip.address, now)
  {
    PendingLists(rows);
    var a := rows[i].ip.address;
    if BackedLive(rows, a, now) {
      var j :| 0 <= j < |rows| && LiveLeaseOf(rows[j], a, now);
      var e := Entry(j, rows[j]);
      assert e in PendingActions(rows) && e.row.ip == rows[i].ip && !IsLapsed(e.row, now);
    } else {
      assert !LiveLeaseOf(rows[i], a, now);
      forall e | e in PendingActions(rows) && IsLease(e.row) && e.row.ip == rows[i].ip
        ensures IsLapsed(e.row, now)
      {
        assert !LiveLeaseOf(rows[e.id], a, now);
      }
    }
  }

  /** The ACL has kept exactly the entries with a live lease, every lease of an address without one is `expired`
      (no expiry counts as lapsed), and no other row has changed. */
  ghost predicate SweptClean(
    rows: seq<Row>, acl: multiset<Address>, now: int, rows': seq<Row>, acl': multiset<Address>)
  {
    && |rows'| == |rows|
    && (forall a :: acl'[a] == if BackedLive(rows, a, now) then acl[a] else 0)
    && (forall i :: 0 <= i < |rows| ==>
          rows'[i] == if Unentitled(rows, rows[i], now) then Finished(rows[i], Expired) else rows[i])
  }

  /** Completeness: that is what a sweep leaves when every command succeeds. */
  lemma SweepComplete(
    s: State, now: int, rows': seq<Row>, acl': multiset<Address>)
    requires Inv(s) && SpelledAlike(s.rows) && SweepOutcome(s.rows, s.acl, now, {}, rows', acl')
    ensures SweptClean(s.rows, s.acl, now, rows', acl')
  {
    forall i | 0 <= i < |s.rows| && IsLease(s.rows[i]) && s.rows[i].ip.Valid?
      ensures Attempted(s.rows, i, now) <==> !BackedLive(s.rows, s.rows[i].ip.address, now)
    {
      AttemptedIffUnbacked(s.rows, i, now);
    }
    forall a ensures acl'[a] == if BackedLive(s.rows, a, now) then s.acl[a] else 0 {
      if a in s.acl && !BackedLive(s.rows, a, now) {
        var i :| 0 <= i < |s.rows| && LeaseOf(s.rows[i], a);
        assert Attempted(s.rows, i, now);
      }
    }
  }

  /** What keeps a lease: a row whose end lies in the future stays, and so do the copies of its address, if no other
      lease spells it differently. */
  lemma LaterLeaseStays(
    rows: seq<Row>, acl: multiset<Address>, now: int, faults: set<Address>,
    rows': seq<Row>, acl': multiset<Address>, i: nat)
    requires SweepOutcome(rows, acl, now, faults, rows', acl')
    requires i < |rows| && IsLease(rows[i]) && rows[i].expires.Some? && now < rows[i].expires.value
    ensures rows'[i] == rows[i]
    ensures rows[i].ip.Valid?
              && (forall j :: 0 <= j < |rows| && LeaseOf(rows[j], rows[i].ip.address) ==> rows[j].ip == rows[i].ip) ==>
              acl'[rows[i].ip.address] == acl[rows[i].ip.address]
  {
    PendingLists(rows);
    assert Entry(i, rows[i]) in PendingActions(rows);
  }

  /** Every lease of the address has ended, or has no end. */
  predicate NoneLater(rows: seq<Row>, a: Address, now: int) {
    forall i :: 0 <= i < |rows| && LeaseOf(rows[i], a) ==> rows[i].expires == None || rows[i].expires.value <= now
  }

  /** What ends them: if every lease of an address has ended and no command for it failed, none is left, and no copy. */
  lemma EndedLeasesGo(
    s: State, now: int, faults: set<Address>, rows': seq<Row>, acl': multiset<Address>, a: Address)
    requires AclBacked(s) && SweepOutcome(s.rows, s.acl, now, faults, rows', acl') && a !in faults
    requires NoneLater(s.rows, a, now)
    ensures acl'[a] == 0
    ensures forall i :: 0 <= i < |s.rows| && LeaseOf(s.rows[i], a) ==>
      rows'[i] == s.rows[i].(applied := false, result := Expired)
  {
    PendingLists(s.rows);
    forall i: nat | i < |s.rows| && LeaseOf(s.rows[i], a) ensures Attempted(s.rows, i, now) {
      forall e | e in PendingActions(s.rows) && IsLease(e.row) && e.row.ip == s.rows[i].ip
        ensures IsLapsed(e.row, now)
      {
        assert LeaseOf(s.rows[e.id], a);
      }
    }
    if a in s.acl {
      var i :| 0 <= i < |s.rows| && LeaseOf(s.rows[i], a);
      assert Attempted(s.rows, i, now);
    }
  }

  /** Isolation: what happens to an address does not depend on failures at other addresses. */
  lemma SweepIsolated(
    rows: seq<Row>, acl: multiset<Address>, now: int, a: Address,
    faults1: set<Address>, rows1: seq<Row>, acl1: multiset<Address>,
    faults2: set<Address>, rows2: seq<Row>, acl2: multiset<Address>)
    requires SweepOutcome(rows, acl, now, faults1, rows1, acl1)
    requires SweepOutcome(rows, acl, now, faults2, rows2, acl2)
    requires a !in faults1 && a !in faults2
    ensures acl1[a] == acl2[a]
    ensures forall i :: 0 <= i < |rows| && rows[i].ip.Valid? && rows[i].ip.address == a ==> rows1[i] == rows2[i]
  {
  }

  // ---- The sweep entry by entry -------------------------------------------------------------------

  predicate Tried(entries: seq<Entry>, j: nat, now: int) {
    j < |entries| && IsDue(entries, entries[j].row, now) && entries[j].row.ip.Valid?
  }

  ghost predicate TriedAddress(entries: seq<Entry>, k: nat, a: Address, now: int) {
    exists j: nat :: j < k && Tried(entries, j, now) && entries[j].row.ip.address == a
  }

  /** The snapshot lists the pending rows in id order. */
  predicate Listed(entries: seq<Entry>, rows: seq<Row>) {
    && (forall i, j :: 0 <= i < j < |entries| ==> entries[i].id < entries[j].id)
    && (forall j :: 0 <= j < |entries| ==> entries[j].id < |rows| && entries[j].row == rows[entries[j].id])
  }

  ghost predicate RowsSwept(
    entries: seq<Entry>, now: int, k: nat, faults: set<Address>, rows: seq<Row>, rows': seq<Row>)
    requires Listed(entries, rows) && k <= |entries|
  {
    && |rows'| == |rows|
    && (forall i :: 0 <= i < |rows| && !IsPending(rows[i]) ==> rows'[i] == rows[i])
    && (forall j :: k <= j < |entries| ==> rows'[entries[j].id] == entries[j].row)
    && (forall j :: 0 <= j < k ==> EntrySwept(entries, j, now, faults, rows'[entries[j].id]))
  }

  ghost predicate AclSwept(
    entries: seq<Entry>, now: int, k: nat, faults: set<Address>, acl: multiset<Address>, acl': multiset<Address>)
  {
    && (forall a :: a in faults ==> TriedAddress(entries, k, a, now))
    && (forall a ::
          if TriedAddress(entries, k, a, now) then acl'[a] <= acl[a] && (a !in faults ==> acl'[a] == 0)
          else acl'[a] == acl[a])
  }

  predicate EntrySwept(entries: seq<Entry>, j: nat, now: int, faults: set<Address>, row: Row)
    requires j < |entries|
  {
    if Tried(entries, j, now) then
      && (row == entries[j].row || row == Finished(entries[j].row, Expired))
      && (entries[j].row.ip.address !in faults ==> row == Finished(entries[j].row, Expired))
    else row == entries[j].row
  }

  lemma SkipAcl(
    entries: seq<Entry>, now: int, k: nat, faults: set<Address>, acl: multiset<Address>, acl': multiset<Address>)
    requires AclSwept(entries, now, k, faults, acl, acl') && !Tried(entries, k, now)
    ensures AclSwept(entries, now, k + 1, faults, acl, acl')
  {
    assert forall a :: TriedAddress(entries, k + 1, a, now) <==> TriedAddress(entries, k, a, now);
  }

  lemma TryAcl(
    entries: seq<Entry>, now: int, k: nat, ok: bool, acl: multiset<Address>,
    faults: set<Address>, acl': multiset<Address>, faults2: set<Address>, acl2: multiset<Address>)
    requires AclSwept(entries, now, k, faults, acl, acl') && Tried(entries, k, now)
    requires var a := entries[k].row.ip.address;
             && faults2 == (if ok then faults else faults + {a})
             && acl2[a] <= acl'[a] && (ok ==> acl2[a] == 0)
             && forall b :: b != a ==> acl2[b] == acl'[b]
    ensures AclSwept(entries, now, k + 1, faults2, acl, acl2)
  {
    assert forall a :: TriedAddress(entries, k + 1, a, now) <==>
      TriedAddress(entries, k, a, now) || a == entries[k].row.ip.address;
  }

  lemma TryRows(
    entries: seq<Entry>, now: int, k: nat, ok: bool, rows: seq<Row>,
    faults: set<Address>, rows': seq<Row>, faults2: set<Address>, rows2: seq<Row>)
    requires Listed(entries, rows) && k < |entries| && RowsSwept(entries, now, k, faults, rows, rows')
    requires Tried(entries, k, now) && IsPending(entries[k].row)
    requires rows2 == (if ok then rows'[entries[k].id := Finished(entries[k].row, Expired)] else rows')
    requires faults2 == (if ok then faults else faults + {entries[k].row.ip.address})
    ensures RowsSwept(entries, now, k + 1, faults2, rows, rows2)
  {
    forall j | 0 <= j < k + 1
      ensures EntrySwept(entries, j, now, faults2, rows2[entries[j].id])
    {
      if j < k {
        assert entries[j].id < entries[k].id;
        assert EntrySwept(entries, j, now, faults, rows'[entries[j].id]);
      }
    }
  }

  /** All entries done: the outcome of the whole sweep. */
  lemma SweptAll(
    rows: seq<Row>, acl: multiset<Address>, now: int, faults: set<Address>,
    rows': seq<Row>, acl': multiset<Address>)
    requires Listed(PendingActions(rows), rows)
    requires RowsSwept(PendingActions(rows), now, |PendingActions(rows)|, faults, rows, rows')
    requires AclSwept(PendingActions(rows), now, |PendingActions(rows)|, faults, acl, acl')
    ensures SweepOutcome(rows, acl, now, faults, rows', acl')
  {
    var entries := PendingActions(rows);
    PendingLists(rows);
    forall i: nat | i < |rows|
      ensures if Attempted(rows, i, now) then
                && (rows'[i] == rows[i] || rows'[i] == Finished(rows[i], Expired))
                && (rows[i].ip.address !in faults ==> rows'[i] == Finished(rows[i], Expired))
              else rows'[i] == rows[i]
    {
      if IsPending(rows[i]) {
        assert Entry(i, rows[i]) in entries;
        var j :| 0 <= j < |entries| && entries[j] == Entry(i, rows[i]);
        assert EntrySwept(entries, j, now, faults, rows'[entries[j].id]);
      }
    }
    forall a ensures TriedAddress(entries, |entries|, a, now) <==> AttemptedAddress(rows, a, now) {
      TriedIsAttempted(rows, a, now);
    }
  }

  lemma TriedIsAttempted(rows: seq<Row>, a: Address, now: int)
    requires Listed(PendingActions(rows), rows)
    ensures TriedAddress(PendingActions(rows), |PendingActions(rows)|, a, now) <==> AttemptedAddress(rows, a, now)
  {
    var entries := PendingActions(rows);
    PendingLists(rows);
    if TriedAddress(entries, |entries|, a, now) {
      var j: nat :| j < |entries| && Tried(entries, j, now) && entries[j].row.ip.address == a;
      assert Attempted(rows, entries[j].id, now);
    }
    if AttemptedAddress(rows, a, now) {
      var i: nat :| Attempted(rows, i, now) && rows[i].ip.address == a;
      assert Entry(i, rows[i]) in entries;
      var j :| 0 <= j < |entries| && entries[j] == Entry(i, rows[i]);
      assert Tried(entries, j, now);
    }
  }

  lemma PendingIsListed(rows: seq<Row>)
    ensures Listed(PendingActions(rows), rows)
    ensures forall j :: 0 <= j < |PendingActions(rows)| ==> IsPending(PendingActions(rows)[j].row)
  {
    var entries := PendingActions(rows);
    PendingLists(rows);
    forall j | 0 <= j < |entries|
      ensures entries[j].id < |rows| && entries[j].row == rows[entries[j].id] && IsPending(entries[j].row)
    {
      assert entries[j] in entries;
    }
  }
}
