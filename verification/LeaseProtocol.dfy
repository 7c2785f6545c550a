/** The block-lease protocol as a machine of atomic steps: one database statement, one runtime command or
    one environment event each. A label carries everything the environment chose, so a list of labels
    is a run. The lock holder's program counter is part of the state; `Idle` means the lock is free. */
module LeaseProtocol {
  import opened Actions
  import opened Wrappers
  import opened ActionStore

  /** Why an ACL entry is being deleted: an operator's release, or row `k` of an expiry sweep. */
  datatype Job = Release(text: IpText) | Lapse(now: int, entries: seq<Entry>, k: nat)

  datatype Pc =
    | Idle
    | Check(id: nat)                                // intent stored, first `show acl` next
    | Add(id: nat)                                  // address absent, `add acl` next
    | Verify(id: nat)                               // read-back `show acl` next
    | Confirm(id: nat)                              // read back, `confirm_action` next
    | Delete(job: Job)                              // `del acl` next
    | Absent(job: Job)                              // deletion acknowledged, read-back next
    | Finish(text: IpText, ids: seq<nat>)           // released, rows still to be finished
    | Sweep(now: int, entries: seq<Entry>, k: nat)  // `reconcile` looks at entry k
    | Expire(now: int, entries: seq<Entry>, k: nat) // entry k deleted, its row to be finished

  datatype State = State(rows: seq<Row>, acl: multiset<Address>, clock: int, pc: Pc)

  datatype Label =
    | Intend(ip: IpText, expires: Option<int>)
    | Note(row: Row)
    | Show(ok: bool)
    | SendAdd(added: bool, empty: bool)
    | ConfirmRow(detail: string)
    | BeginRelease(text: IpText)
    | MarkRevoked(id: nat)
    | SendDel(left: nat, empty: bool)
    | FinishNext
    | BeginSweep
    | SweepNext(refused: bool)
    | ExpireRow
    | Crash
    | Tick(to: int)
    | OutsideRemoval(a: Address, copies: nat)

  function Intent(ip: IpText, expires: Option<int>): Row {
    Row(ip, Block, HAProxy, false, expires, Applying)
  }

  function JobText(job: Job): IpText
    requires job.Lapse? ==> job.k < |job.entries|
  {
    match job
    case Release(text) => text
    case Lapse(_, entries, k) => entries[k].row.ip
  }

  predicate JobInBounds(job: Job) {
    (job.Lapse? ==> job.k < |job.entries|) && JobText(job).Valid?
  }

  function Done(job: Job, rows: seq<Row>): Pc {
    match job
    case Release(text) => Finish(text, LeaseIds(PendingActions(rows), text))
    case Lapse(now, entries, k) => Expire(now, entries, k)
  }

  function Failed(job: Job): Pc {
    match job
    case Release(_) => Idle
    case Lapse(now, entries, k) => Sweep(now, entries, k + 1)
  }

  /** The rows that `unblock` and `revoke` finish: pending HAProxy blocks whose text is exactly `text`. */
  function LeaseIds(entries: seq<Entry>, text: IpText): seq<nat> {
    if entries == [] then []
    else
      var mine := IsLease(entries[0].row) && entries[0].row.ip == text;
      (if mine then [entries[0].id] else []) + LeaseIds(entries[1..], text)
  }

  lemma {:induction false} LeaseIdsAre(entries: seq<Entry>, text: IpText, id: nat)
    requires id in LeaseIds(entries, text)
    ensures exists e :: e in entries && e.id == id && IsLease(e.row) && e.row.ip == text
  {
    if !(IsLease(entries[0].row) && entries[0].row.ip == text && entries[0].id == id) {
      LeaseIdsAre(entries[1..], text, id);
      var e :| e in entries[1..] && e.id == id && IsLease(e.row) && e.row.ip == text;
      assert e in entries;
    }
  }

  /** What releasing `text` makes of a row. */
  function ReleasedRow(row: Row, text: IpText): Row {
    if IsLease(row) && row.ip == text then Finished(row, Revoked) else row
  }

  /** A release of `text`: its pending HAProxy block rows are `revoked`, all others are as they were. */
  ghost predicate Released(rows: seq<Row>, text: IpText, rows': seq<Row>) {
    && |rows'| == |rows|
    && forall i :: 0 <= i < |rows| ==> rows'[i] == ReleasedRow(rows[i], text)
  }

  /** `reconcile` attempts row `row`: a lapsed lease, and no entry with the same text is live. */
  predicate IsDue(entries: seq<Entry>, row: Row, now: int) {
    && IsLease(row) && IsLapsed(row, now)
    && forall e :: e in entries && IsLease(e.row) && e.row.ip == row.ip ==> IsLapsed(e.row, now)
  }

  predicate RowInBounds(s: State, id: nat) {
    id < |s.rows| && s.rows[id].ip.Valid?
  }

  predicate Enabled(s: State, l: Label) {
    match l
    case Intend(_, _) => s.pc.Idle?
    case Note(row) => s.pc.Idle? && !IsLease(row)
    case Show(_) =>
      || ((s.pc.Check? || s.pc.Verify?) && RowInBounds(s, s.pc.id))
      || (s.pc.Absent? && JobInBounds(s.pc.job))
    case SendAdd(_, _) => s.pc.Add? && RowInBounds(s, s.pc.id)
    case ConfirmRow(_) => s.pc.Confirm? && s.pc.id < |s.rows|
    case BeginRelease(text) => s.pc.Idle? && text.Valid?
    case MarkRevoked(id) => s.pc.Idle? && id < |s.rows| && !s.rows[id].applied && s.rows[id].result != Applying
    case SendDel(left, _) => s.pc.Delete? && JobInBounds(s.pc.job) && left <= s.acl[JobText(s.pc.job).address]
    case FinishNext => s.pc.Finish? && (s.pc.ids != [] ==> s.pc.ids[0] < |s.rows|)
    case BeginSweep => s.pc.Idle?
    case SweepNext(_) => s.pc.Sweep?
    case ExpireRow => s.pc.Expire? && s.pc.k < |s.pc.entries| && s.pc.entries[s.pc.k].id < |s.rows|
    case Crash => true
    case Tick(to) => s.clock <= to
    case OutsideRemoval(a, copies) => copies <= s.acl[a]
  }

  /** The address that a `show acl` looks for. */
  function Sought(s: State): Address
    requires Enabled(s, Show(true))
  {
    match s.pc
    case Check(id) => s.rows[id].ip.address
    case Verify(id) => s.rows[id].ip.address
    case Absent(job) => JobText(job).address
  }

  /** How the code goes on once it has read that the address is there, or is not. */
  function Answered(s: State, found: bool): Pc
    requires Enabled(s, Show(true))
  {
    match s.pc
    case Check(id) => if found then Verify(id) else Add(id)
    case Verify(id) => if found then Confirm(id) else Idle
    case Absent(job) => if found then Failed(job) else Done(job, s.rows)
  }

  function ShowNext(s: State, ok: bool): Pc
    requires Enabled(s, Show(ok))
  {
    if ok then Answered(s, Sought(s) in s.acl)
    else if s.pc.Absent? then Failed(s.pc.job)
    else Idle
  }

  function Apply(s: State, l: Label): State
    requires Enabled(s, l)
  {
    match l
    case Intend(ip, expires) =>
      s.(rows := s.rows + [Intent(ip, expires)], pc := if ip.Valid? then Check(|s.rows|) else Idle)
    case Note(row) =>
      s.(rows := s.rows + [row])
    case Show(ok) =>
      s.(pc := ShowNext(s, ok))
    case SendAdd(added, empty) =>
      var a := s.rows[s.pc.id].ip.address;
      s.(acl := if added then s.acl + multiset{a} else s.acl, pc := if empty then Verify(s.pc.id) else Idle)
    case ConfirmRow(detail) =>
      s.(rows := s.rows[s.pc.id := s.rows[s.pc.id].(applied := true, result := Detail(detail))], pc := Idle)
    case BeginRelease(text) =>
      s.(pc := Delete(Release(text)))
    case MarkRevoked(id) =>
      s.(rows := s.rows[id := Finished(s.rows[id], Revoked)])
    case SendDel(left, empty) =>
      s.(acl := s.acl[JobText(s.pc.job).address := left],
         pc := if empty then Absent(s.pc.job) else Failed(s.pc.job))
    case FinishNext =>
      if s.pc.ids == [] then s.(pc := Idle)
      else
        s.(rows := s.rows[s.pc.ids[0] := Finished(s.rows[s.pc.ids[0]], Revoked)],
           pc := Finish(s.pc.text, s.pc.ids[1..]))
    case BeginSweep =>
      s.(pc := Sweep(s.clock, PendingActions(s.rows), 0))
    case SweepNext(refused) =>
      var Sweep(now, entries, k) := s.pc;
      s.(pc :=
        if k >= |entries| then Idle
        else if IsDue(entries, entries[k].row, now) && entries[k].row.ip.Valid? && !refused then
          Delete(Lapse(now, entries, k))
        else Sweep(now, entries, k + 1))
    case ExpireRow =>
      var Expire(now, entries, k) := s.pc;
      s.(rows := s.rows[entries[k].id := Finished(s.rows[entries[k].id], Expired)],
         pc := Sweep(now, entries, k + 1))
    case Crash => s.(pc := Idle)
    case Tick(to) => s.(clock := to)
    case OutsideRemoval(a, copies) => s.(acl := s.acl[a := copies])
  }

  /** The labels form a run from `s`. */
  predicate IsRun(s: State, labels: seq<Label>)
    decreases |labels|, 0
  {
    labels == [] ||
    (IsRun(s, labels[..|labels| - 1]) && Enabled(Exec(s, labels[..|labels| - 1]), labels[|labels| - 1]))
  }

  function Exec(s: State, labels: seq<Label>): State
    requires IsRun(s, labels)
    decreases |labels|, 1
  {
    if labels == [] then s
    else Apply(Exec(s, labels[..|labels| - 1]), labels[|labels| - 1])
  }

  predicate IsInitial(s: State) {
    s.rows == [] && s.acl == multiset{} && s.pc.Idle?
  }

  // ---- Invariant -----------------------------------------------------------------------------

  predicate SameLease(row: Row, was: Row) {
    row.ip == was.ip && row.action == was.action && row.provider == was.provider && row.expires == was.expires
  }

  /** The snapshot still lists every pending row, and from entry `k` on it is up to date: since it was
      taken, only the sweep itself has changed rows, those of earlier entries. */
  ghost predicate SnapshotHolds(rows: seq<Row>, entries: seq<Entry>, k: nat) {
    && (forall i, j :: 0 <= i < j < |entries| ==> entries[i].id < entries[j].id)
    && (forall i :: k <= i < |entries| ==> entries[i].id < |rows| && rows[entries[i].id] == entries[i].row)
    && (forall e :: e in entries ==> e.id < |rows| && SameLease(rows[e.id], e.row))
    && (forall i :: 0 <= i < |rows| && IsPending(rows[i]) ==> Entry(i, rows[i]) in entries)
  }

  ghost predicate JobInv(s: State, job: Job) {
    && JobInBounds(job)
    && (job.Lapse? ==>
          job.now <= s.clock && SnapshotHolds(s.rows, job.entries, job.k) && IsDue(job.entries, job.entries[job.k].row, job.now))
  }

  ghost predicate PcInv(s: State) {
    match s.pc
    case Idle => true
    case Check(id) => RowInBounds(s, id) && IsLease(s.rows[id])
    case Add(id) => RowInBounds(s, id) && IsLease(s.rows[id])
    case Verify(id) => RowInBounds(s, id) && IsLease(s.rows[id])
    case Confirm(id) => RowInBounds(s, id) && IsLease(s.rows[id])
    case Delete(job) => JobInv(s, job)
    case Absent(job) => JobInv(s, job)
    case Finish(text, ids) =>
      && text.Valid? && text.address !in s.acl
      && forall id :: id in ids ==> id < |s.rows| && s.rows[id].ip == text
    case Sweep(now, entries, k) => now <= s.clock && SnapshotHolds(s.rows, entries, k)
    case Expire(now, entries, k) =>
      && JobInv(s, Lapse(now, entries, k))
      && entries[k].row.ip.address !in s.acl
  }

  /** Write-ahead: whatever is enforced is on record. */
  ghost predicate AclBacked(s: State) {
    forall a :: a in s.acl ==> Backed(s.rows, a)
  }

  ghost predicate SingleEntries(s: State) {
    forall a :: s.acl[a] <= 1
  }

  /** What does not depend on whether a listing before a block told the truth. */
  ghost predicate Covered(s: State) {
    AclBacked(s) && PcInv(s)
  }

  /** The copy of `a` that the lock holder is about to add. */
  function Adding(s: State, a: Address): nat {
    if s.pc.Add? && RowInBounds(s, s.pc.id) && s.rows[s.pc.id].ip.address == a then 1 else 0
  }

  /** No address is listed more than `n` times, the copy about to be added included. */
  ghost predicate CopiesWithin(s: State, n: nat) {
    forall a :: s.acl[a] + Adding(s, a) <= n
  }

  ghost predicate Inv(s: State) {
    Covered(s) && CopiesWithin(s, 1)
  }

  /** Rewriting one row keeps an address backed if another row backs it or the new row still does. */
  lemma BackedAfterUpdate(rows: seq<Row>, id: nat, row: Row, a: Address)
    requires id < |rows| && Backed(rows, a)
    requires LeaseOf(rows[id], a) ==> LeaseOf(row, a)
    ensures Backed(rows[id := row], a)
  {
    var i :| 0 <= i < |rows| && LeaseOf(rows[i], a);
    assert LeaseOf(rows[id := row][i], a);
  }

  lemma BackedAfterAppend(rows: seq<Row>, row: Row, a: Address)
    requires Backed(rows, a)
    ensures Backed(rows + [row], a)
  {
    var i :| 0 <= i < |rows| && LeaseOf(rows[i], a);
    assert LeaseOf((rows + [row])[i], a);
  }

  /** Finishing a row whose address is not in the ACL. */
  lemma FinishKeepsBacked(s: State, id: nat, result: Outcome)
    requires AclBacked(s) && id < |s.rows| && (result.Revoked? || result.Expired?)
    requires s.rows[id].ip.Valid? ==> s.rows[id].ip.address !in s.acl || !IsLease(s.rows[id])
    ensures forall a :: a in s.acl ==> Backed(s.rows[id := Finished(s.rows[id], result)], a)
  {
    forall a | a in s.acl ensures Backed(s.rows[id := Finished(s.rows[id], result)], a) {
      BackedAfterUpdate(s.rows, id, Finished(s.rows[id], result), a);
    }
  }

  lemma StepAppend(s: State, l: Label)
    requires Covered(s) && Enabled(s, l) && (l.Intend? || l.Note?)
    ensures Covered(Apply(s, l))
  {
    forall a | a in s.acl ensures Backed(Apply(s, l).rows, a) {
      BackedAfterAppend(s.rows, if l.Intend? then Intent(l.ip, l.expires) else l.row, a);
    }
  }

  lemma StepAdd(s: State, l: Label)
    requires Covered(s) && Enabled(s, l) && l.SendAdd?
    ensures Covered(Apply(s, l))
  {
    assert LeaseOf(s.rows[s.pc.id], s.rows[s.pc.id].ip.address);
  }

  lemma StepConfirm(s: State, l: Label)
    requires Covered(s) && Enabled(s, l) && l.ConfirmRow?
    ensures Covered(Apply(s, l))
  {
    forall a | a in s.acl ensures Backed(Apply(s, l).rows, a) {
      BackedAfterUpdate(s.rows, s.pc.id, Apply(s, l).rows[s.pc.id], a);
    }
  }

  lemma StepFinish(s: State, l: Label)
    requires Covered(s) && Enabled(s, l) && (l.FinishNext? || l.MarkRevoked?)
    ensures Covered(Apply(s, l))
  {
    if l.MarkRevoked? {
      FinishKeepsBacked(s, l.id, Revoked);
    } else if s.pc.ids != [] {
      FinishKeepsBacked(s, s.pc.ids[0], Revoked);
      assert forall id :: id in s.pc.ids[1..] ==> id in s.pc.ids;
    }
  }

  lemma StepExpire(s: State, l: Label)
    requires Covered(s) && Enabled(s, l) && l.ExpireRow?
    ensures Covered(Apply(s, l))
  {
    FinishKeepsBacked(s, s.pc.entries[s.pc.k].id, Expired);
    var t := Apply(s, l);
    forall i | 0 <= i < |t.rows| && IsPending(t.rows[i])
      ensures Entry(i, t.rows[i]) in s.pc.entries
    {
      assert i != s.pc.entries[s.pc.k].id;
      assert t.rows[i] == s.rows[i];
    }
  }

  lemma StepShowBlock(s: State, l: Label)
    requires Covered(s) && Enabled(s, l) && l.Show? && !s.pc.Absent?
    ensures Covered(Apply(s, l))
  {
  }

  lemma StepShowAbsent(s: State, l: Label)
    requires Covered(s) && Enabled(s, l) && l.Show? && s.pc.Absent?
    ensures Covered(Apply(s, l))
  {
    var job := s.pc.job;
    if job.Release? && Apply(s, l).pc.Finish? {
      forall id | id in Apply(s, l).pc.ids
        ensures id < |s.rows| && s.rows[id].ip == job.text
      {
        LeaseIdsAre(PendingActions(s.rows), job.text, id);
        PendingLists(s.rows);
      }
    }
  }

  lemma StepBeginSweep(s: State, l: Label)
    requires Covered(s) && Enabled(s, l) && l.BeginSweep?
    ensures Covered(Apply(s, l))
  {
    PendingLists(s.rows);
    var entries := PendingActions(s.rows);
    assert forall i :: 0 <= i < |entries| ==> entries[i] in entries;
  }

  lemma StepSweepNext(s: State, l: Label)
    requires Covered(s) && Enabled(s, l) && l.SweepNext?
    ensures Covered(Apply(s, l))
  {
  }

  lemma StepSendDel(s: State, l: Label)
    requires Covered(s) && Enabled(s, l) && l.SendDel?
    ensures Covered(Apply(s, l))
  {
    assert forall a :: a in Apply(s, l).acl ==> a in s.acl;
  }

  lemma StepBeginRelease(s: State, l: Label)
    requires Covered(s) && Enabled(s, l) && l.BeginRelease?
    ensures Covered(Apply(s, l))
  {
  }

  lemma StepCrash(s: State, l: Label)
    requires Covered(s) && Enabled(s, l) && l.Crash?
    ensures Covered(Apply(s, l))
  {
  }

  lemma StepTick(s: State, l: Label)
    requires Covered(s) && Enabled(s, l) && l.Tick?
    ensures Covered(Apply(s, l))
  {
  }

  lemma StepOutsideRemoval(s: State, l: Label)
    requires Covered(s) && Enabled(s, l) && l.OutsideRemoval?
    ensures Covered(Apply(s, l))
  {
    assert forall a :: a in Apply(s, l).acl ==> a in s.acl;
  }

  lemma StepKeepsCovered(s: State, l: Label)
    requires Covered(s) && Enabled(s, l)
    ensures Covered(Apply(s, l))
  {
    match l
    case Intend(_, _) => StepAppend(s, l);
    case Note(_) => StepAppend(s, l);
    case Show(_) => if s.pc.Absent? { StepShowAbsent(s, l); } else { StepShowBlock(s, l); }
    case SendAdd(_, _) => StepAdd(s, l);
    case ConfirmRow(_) => StepConfirm(s, l);
    case FinishNext => StepFinish(s, l);
    case MarkRevoked(_) => StepFinish(s, l);
    case ExpireRow => StepExpire(s, l);
    case SendDel(_, _) => StepSendDel(s, l);
    case BeginRelease(_) => StepBeginRelease(s, l);
    case BeginSweep => StepBeginSweep(s, l);
    case SweepNext(_) => StepSweepNext(s, l);
    case Crash => StepCrash(s, l);
    case Tick(_) => StepTick(s, l);
    case OutsideRemoval(_, _) => StepOutsideRemoval(s, l);
  }

  lemma ShowKeepsCopies(s: State, l: Label, n: nat)
    requires Covered(s) && CopiesWithin(s, n) && 0 < n && Enabled(s, l) && l.Show?
    ensures CopiesWithin(Apply(s, l), n)
  {
    forall a ensures s.acl[a] + Adding(Apply(s, l), a) <= n {
      assert s.acl[a] + Adding(s, a) <= n;
    }
  }

  lemma AddKeepsCopies(s: State, l: Label, n: nat)
    requires Covered(s) && CopiesWithin(s, n) && Enabled(s, l) && l.SendAdd?
    ensures CopiesWithin(Apply(s, l), n)
  {
    var t := Apply(s, l);
    forall a ensures t.acl[a] <= n {
      assert s.acl[a] + Adding(s, a) <= n;
    }
  }

  lemma NoAddKeepsCopies(s: State, t: State, n: nat)
    requires CopiesWithin(s, n) && (forall a :: t.acl[a] <= s.acl[a])
    requires t.pc.Add? ==> t.pc == s.pc && t.rows == s.rows
    ensures CopiesWithin(t, n)
  {
    forall a ensures t.acl[a] + Adding(t, a) <= n {
      assert s.acl[a] + Adding(s, a) <= n;
    }
  }

  /** A second copy is never made unless the entry was missed before. */
  lemma StepKeepsCopies(s: State, l: Label, n: nat)
    requires Covered(s) && CopiesWithin(s, n) && 0 < n && Enabled(s, l)
    ensures CopiesWithin(Apply(s, l), n)
  {
    match l
    case Show(_) => ShowKeepsCopies(s, l, n);
    case SendAdd(_, _) => AddKeepsCopies(s, l, n);
    case _ => NoAddKeepsCopies(s, Apply(s, l), n);
  }

  lemma StepKeepsInv(s: State, l: Label)
    requires Inv(s) && Enabled(s, l)
    ensures Inv(Apply(s, l))
  {
    StepKeepsCovered(s, l);
    StepKeepsCopies(s, l, 1);
  }

  lemma {:induction false} RunKeepsInv(s: State, labels: seq<Label>)
    requires Inv(s) && IsRun(s, labels)
    ensures Inv(Exec(s, labels))
  {
    if labels != [] {
      RunKeepsInv(s, labels[..|labels| - 1]);
      StepKeepsInv(Exec(s, labels[..|labels| - 1]), labels[|labels| - 1]);
    }
  }
}
