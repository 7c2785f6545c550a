/** What a wrong `show acl` reply can do. The runtime client reads a reply once, so a long listing may be cut short. An
    entry behind the cut is missed, and a line cut inside an address may list another address that is not there. */
module LeaseListing {
  import opened Wrappers
  import opened ActionStore
  import opened LeaseProtocol

  /** How a reply that parses can be wrong about the address sought: an entry that is there is missed, or one that is
      not is invented. */
  datatype Mistake = MissBeforeBlock | MissConfirmation | MissAfterDeletion | Invention

  predicate IsMistake(s: State, m: Mistake) {
    Enabled(s, Show(true)) &&
    match m
    case MissBeforeBlock => s.pc.Check? && Sought(s) in s.acl
    case MissConfirmation => s.pc.Verify? && Sought(s) in s.acl
    case MissAfterDeletion => s.pc.Absent? && Sought(s) in s.acl
    case Invention => Sought(s) !in s.acl
  }

  /** The code goes on as after a true reply of the other kind. */
  function Mistaken(s: State, m: Mistake): State
    requires IsMistake(s, m)
  {
    s.(pc := Answered(s, m.Invention?))
  }

  /** A step of the machine, or a wrong reply. */
  datatype Step = Real(l: Label) | Wrong(mistake: Mistake)

  predicate Possible(s: State, step: Step) {
    match step
    case Real(l) => Enabled(s, l)
    case Wrong(m) => IsMistake(s, m)
  }

  function Take(s: State, step: Step): State
    requires Possible(s, step)
  {
    match step
    case Real(l) => Apply(s, l)
    case Wrong(m) => Mistaken(s, m)
  }

  /** The steps form a run from `s`, wrong replies among them. */
  predicate IsMisledRun(s: State, steps: seq<Step>)
    decreases |steps|, 0
  {
    steps == [] ||
    (IsMisledRun(s, steps[..|steps| - 1]) && Possible(ExecMisled(s, steps[..|steps| - 1]), steps[|steps| - 1]))
  }

  function ExecMisled(s: State, steps: seq<Step>): State
    requires IsMisledRun(s, steps)
    decreases |steps|, 1
  {
    if steps == [] then s
    else Take(ExecMisled(s, steps[..|steps| - 1]), steps[|steps| - 1])
  }

  function Misses(steps: seq<Step>): nat {
    multiset(steps)[Wrong(MissBeforeBlock)]
  }

  // ---- Before a block and its confirmation ------------------------------------------------------------

  lemma MistakeKeepsCovered(s: State, m: Mistake)
    requires Covered(s) && IsMistake(s, m) && m != MissAfterDeletion
    ensures Covered(Mistaken(s, m))
  {
  }

  lemma MistakeAddsACopy(s: State, m: Mistake, n: nat)
    requires CopiesWithin(s, n) && IsMistake(s, m)
    ensures CopiesWithin(Mistaken(s, m), if m == MissBeforeBlock then n + 1 else n)
  {
    var t := Mistaken(s, m);
    forall a ensures t.acl[a] + Adding(t, a) <= if m == MissBeforeBlock then n + 1 else n {
      assert s.acl[a] + Adding(s, a) <= n;
    }
  }

  lemma MisledStep(s: State, step: Step, n: nat)
    requires Covered(s) && CopiesWithin(s, n) && 0 < n && Possible(s, step) && step != Wrong(MissAfterDeletion)
    ensures Covered(Take(s, step))
    ensures CopiesWithin(Take(s, step), if step == Wrong(MissBeforeBlock) then n + 1 else n)
  {
    match step
    case Real(l) =>
      StepKeepsCovered(s, l);
      StepKeepsCopies(s, l, n);
    case Wrong(m) =>
      MistakeKeepsCovered(s, m);
      MistakeAddsACopy(s, m, n);
  }

  lemma {:induction false} MisledRunIsCovered(s: State, steps: seq<Step>)
    requires IsInitial(s) && IsMisledRun(s, steps) && Wrong(MissAfterDeletion) !in steps
    ensures Covered(ExecMisled(s, steps)) && CopiesWithin(ExecMisled(s, steps), 1 + Misses(steps))
  {
    if steps != [] {
      var init, last := steps[..|steps| - 1], steps[|steps| - 1];
      assert steps == init + [last];
      MisledRunIsCovered(s, init);
      MisledStep(ExecMisled(s, init), last, 1 + Misses(init));
    }
  }

  /** Write-ahead survives all wrong replies but those that miss an entry after its deletion: whatever a run misses or
      invents before, each enforced address is on record, and every miss before a block lists it at most once more. */
  lemma OnlyDeletionsMatter(s: State, steps: seq<Step>, a: Address)
    requires IsInitial(s) && IsMisledRun(s, steps) && Wrong(MissAfterDeletion) !in steps
    ensures a in ExecMisled(s, steps).acl ==> Backed(ExecMisled(s, steps).rows, a)
    ensures ExecMisled(s, steps).acl[a] <= 1 + Misses(steps)
  {
    MisledRunIsCovered(s, steps);
    var t := ExecMisled(s, steps);
    assert t.acl[a] + Adding(t, a) <= 1 + Misses(steps);
  }

  /** The steps lead to `t`, with `n` misses before blocks and none after a deletion. */
  ghost predicate Leads(s: State, steps: seq<Step>, t: State, n: nat) {
    && IsMisledRun(s, steps) && ExecMisled(s, steps) == t
    && Wrong(MissAfterDeletion) !in steps && Misses(steps) == n
  }

  lemma Onward(s: State, steps: seq<Step>, t: State, n: nat, step: Step) returns (more: seq<Step>)
    requires Leads(s, steps, t, n) && Possible(t, step) && step != Wrong(MissAfterDeletion)
    ensures steps <= more && Leads(s, more, Take(t, step), if step == Wrong(MissBeforeBlock) then n + 1 else n)
  {
    more := steps + [step];
    assert more[..|steps|] == steps;
  }

  lemma Intended(s: State, steps: seq<Step>, t: State, n: nat, ip: IpText) returns (more: seq<Step>, u: State)
    requires Leads(s, steps, t, n) && t.pc.Idle? && ip.Valid?
    ensures steps <= more && Leads(s, more, u, n)
    ensures u == t.(rows := t.rows + [Intent(ip, None)], pc := Check(|t.rows|))
    ensures Enabled(u, Show(true)) && Sought(u) == ip.address
  {
    more := Onward(s, steps, t, n, Real(Intend(ip, None)));
    u := Apply(t, Intend(ip, None));
  }

  /** A block up to its `add acl`, after which the process dies. */
  lemma BlockedAgain(s: State, steps: seq<Step>, t: State, n: nat, ip: IpText)
    returns (more: seq<Step>, u: State)
    requires Leads(s, steps, t, n) && t.pc.Idle? && ip.Valid?
    ensures u.pc.Idle? && u.acl == t.acl + multiset{ip.address}
    ensures Leads(s, more, u, if ip.address in t.acl then n + 1 else n)
  {
    more, u := Intended(s, steps, t, n, ip);
    var reply := if ip.address in t.acl then Wrong(MissBeforeBlock) else Real(Show(true));
    var n' := if ip.address in t.acl then n + 1 else n;
    more := Onward(s, more, u, n, reply);
    u := u.(pc := Add(|t.rows|));
    more := Onward(s, more, u, n', Real(SendAdd(true, false)));
    u := Apply(u, SendAdd(true, false));
  }

  /** That many copies are reached. */
  lemma CopiesAreReached(ip: IpText, n: nat) returns (s: State, steps: seq<Step>)
    requires ip.Valid?
    ensures IsInitial(s) && IsMisledRun(s, steps) && Wrong(MissAfterDeletion) !in steps && Misses(steps) == n
    ensures ExecMisled(s, steps).acl[ip.address] == 1 + n
  {
    var t;
    s, steps, t := ManyCopies(ip, n);
  }

  lemma {:induction false} ManyCopies(ip: IpText, n: nat) returns (s: State, steps: seq<Step>, t: State)
    requires ip.Valid?
    ensures IsInitial(s) && Leads(s, steps, t, n) && t.pc.Idle? && t.acl[ip.address] == 1 + n
  {
    if n == 0 {
      s := State([], multiset{}, 0, Idle);
      steps, t := BlockedAgain(s, [], s, 0, ip);
    } else {
      s, steps, t := ManyCopies(ip, n - 1);
      steps, t := BlockedAgain(s, steps, t, n - 1, ip);
    }
  }

  /** Inventing the entry twice confirms a block that has never been sent. */
  lemma InventionConfirms(s: State, steps: seq<Step>, t: State, n: nat, ip: IpText, detail: string)
    returns (more: seq<Step>, u: State)
    requires Leads(s, steps, t, n) && t.pc.Idle? && ip.Valid? && ip.address !in t.acl
    ensures steps <= more && Leads(s, more, u, n) && u.acl == t.acl
    ensures u.rows == t.rows + [Intent(ip, None).(applied := true, result := Detail(detail))]
  {
    more, u := Intended(s, steps, t, n, ip);
    more := Onward(s, more, u, n, Wrong(Invention));
    u := u.(pc := Verify(|t.rows|));
    more := Onward(s, more, u, n, Wrong(Invention));
    u := u.(pc := Confirm(|t.rows|));
    more := Onward(s, more, u, n, Real(ConfirmRow(detail)));
    u := Apply(u, ConfirmRow(detail));
  }

  // ---- After a deletion ---------------------------------------------------------------------------------

  /** Another pending block row entitles the address. */
  ghost predicate HasOther(rows: seq<Row>, a: Address, id: nat) {
    exists i {:trigger rows[i]} :: 0 <= i < |rows| && i != id && LeaseOf(rows[i], a)
  }

  /** Missing an entry after an expiry's deletion: the row is expired although the address is still enforced, without a
      record exactly if it was the last one of the address. */
  lemma MissedAfterExpiryIff(s: State)
    requires Covered(s) && IsMistake(s, MissAfterDeletion) && s.pc.job.Lapse?
    ensures var m := Mistaken(s, MissAfterDeletion);
            m.pc.Expire? && Enabled(m, ExpireRow) && Apply(m, ExpireRow).acl == s.acl
    ensures var t, e := Apply(Mistaken(s, MissAfterDeletion), ExpireRow), s.pc.job.entries[s.pc.job.k];
            AclBacked(t) <==> HasOther(s.rows, Sought(s), e.id)
  {
    var t, e := Apply(Mistaken(s, MissAfterDeletion), ExpireRow), s.pc.job.entries[s.pc.job.k];
    EndedRow(s.rows, e.id, Expired);
    ExpiredBacks(s, t, e);
  }

  lemma EndedRow(rows: seq<Row>, id: nat, result: Outcome)
    requires id < |rows| && (result.Revoked? || result.Expired?)
    ensures forall a :: Backed(rows[id := Finished(rows[id], result)], a) <==> HasOther(rows, a, id)
  {
    var after := rows[id := Finished(rows[id], result)];
    forall a ensures Backed(after, a) <==> HasOther(rows, a, id) {
      if Backed(after, a) {
        var i :| 0 <= i < |after| && LeaseOf(after[i], a);
        assert rows[i] == after[i];
      }
      if i :| 0 <= i < |rows| && i != id && LeaseOf(rows[i], a) {
        assert after[i] == rows[i];
      }
    }
  }

  lemma ExpiredBacks(s: State, t: State, e: Entry)
    requires AclBacked(s) && e.id < |s.rows| && e.row.ip.Valid? && LeaseOf(s.rows[e.id], e.row.ip.address)
    requires t.acl == s.acl && e.row.ip.address in s.acl
    requires forall a :: Backed(t.rows, a) <==> HasOther(s.rows, a, e.id)
    ensures AclBacked(t) <==> HasOther(s.rows, e.row.ip.address, e.id)
  {
    if HasOther(s.rows, e.row.ip.address, e.id) {
      forall a | a in t.acl ensures Backed(t.rows, a) {
        var i :| 0 <= i < |s.rows| && LeaseOf(s.rows[i], a);
        assert i == e.id ==> a == e.row.ip.address;
      }
    }
  }

  lemma {:induction false} LeaseIdsHas(entries: seq<Entry>, text: IpText, e: Entry)
    requires e in entries && IsLease(e.row) && e.row.ip == text
    ensures e.id in LeaseIds(entries, text)
  {
    if e != entries[0] {
      LeaseIdsHas(entries[1..], text, e);
    }
  }

  /** A release is to finish exactly the leases with its text. */
  lemma LeaseIdsIff(rows: seq<Row>, text: IpText, i: nat)
    ensures i in LeaseIds(PendingActions(rows), text) <==> i < |rows| && IsLease(rows[i]) && rows[i].ip == text
  {
    var entries := PendingActions(rows);
    PendingLists(rows);
    if i < |rows| && IsLease(rows[i]) && rows[i].ip == text {
      LeaseIdsHas(entries, text, Entry(i, rows[i]));
    }
    if i in LeaseIds(entries, text) {
      LeaseIdsAre(entries, text, i);
    }
  }

  ghost predicate AreFinished(rows: seq<Row>, ids: seq<nat>, rows': seq<Row>) {
    && |rows'| == |rows|
    && forall i :: 0 <= i < |rows| ==> rows'[i] == if i in ids then Finished(rows[i], Revoked) else rows[i]
  }

  /** The machine's own steps finish the rows `ids`. */
  lemma {:induction false} ReleaseFinishes(s: State, labels: seq<Label>, ids: seq<nat>) returns (more: seq<Label>)
    requires IsRun(s, labels) && Exec(s, labels).pc.Finish? && Exec(s, labels).pc.ids == ids
    requires forall k :: 0 <= k < |ids| ==> ids[k] < |Exec(s, labels).rows|
    ensures IsRun(s, more) && Exec(s, more).pc.Idle? && Exec(s, more).acl == Exec(s, labels).acl
    ensures AreFinished(Exec(s, labels).rows, ids, Exec(s, more).rows)
    decreases ids
  {
    more := labels + [FinishNext];
    assert more[..|labels|] == labels;
    if ids != [] {
      more := ReleaseFinishes(s, more, ids[1..]);
      assert ids == [ids[0]] + ids[1..];
    }
  }

  /** A lease of the address under another text. */
  ghost predicate HasOtherText(rows: seq<Row>, a: Address, text: IpText) {
    exists i {:trigger rows[i]} :: 0 <= i < |rows| && LeaseOf(rows[i], a) && rows[i].ip != text
  }

  lemma BackedAfterRelease(rows: seq<Row>, text: IpText, rows': seq<Row>, a: Address)
    requires Released(rows, text, rows')
    ensures Backed(rows', a) <==> HasOtherText(rows, a, text)
  {
    assert forall i :: 0 <= i < |rows| ==> (LeaseOf(rows'[i], a) <==> LeaseOf(rows[i], a) && rows[i].ip != text);
  }

  /** Missing an entry after a release's deletion: the run goes on to revoke the rows although the address is still
      enforced, without a record exactly if no lease spells the address differently. */
  lemma MissedAfterReleaseIff(s: State) returns (more: seq<Label>, t: State)
    requires Covered(s) && IsMistake(s, MissAfterDeletion) && s.pc.job.Release?
    ensures IsRun(Mistaken(s, MissAfterDeletion), more) && Exec(Mistaken(s, MissAfterDeletion), more) == t
    ensures t.pc.Idle? && t.acl == s.acl && Released(s.rows, s.pc.job.text, t.rows)
    ensures AclBacked(t) <==> HasOtherText(s.rows, Sought(s), s.pc.job.text)
  {
    var m, text := Mistaken(s, MissAfterDeletion), s.pc.job.text;
    forall i: nat ensures i in m.pc.ids <==> i < |s.rows| && IsLease(s.rows[i]) && s.rows[i].ip == text {
      LeaseIdsIff(s.rows, text, i);
    }
    forall k | 0 <= k < |m.pc.ids| ensures m.pc.ids[k] < |s.rows| {
      assert m.pc.ids[k] in m.pc.ids;
    }
    more := ReleaseFinishes(m, [], m.pc.ids);
    t := Exec(m, more);
    forall a ensures Backed(t.rows, a) <==> HasOtherText(s.rows, a, text) {
      BackedAfterRelease(s.rows, text, t.rows, a);
    }
    ReleasedBacks(s, t, text);
  }

  lemma ReleasedBacks(s: State, t: State, text: IpText)
    requires AclBacked(s) && text.Valid? && t.acl == s.acl && text.address in s.acl
    requires forall a :: Backed(t.rows, a) <==> HasOtherText(s.rows, a, text)
    ensures AclBacked(t) <==> HasOtherText(s.rows, text.address, text)
  {
    if HasOtherText(s.rows, text.address, text) {
      forall a | a in t.acl ensures Backed(t.rows, a) {
        var i :| 0 <= i < |s.rows| && LeaseOf(s.rows[i], a);
        assert s.rows[i].ip == text ==> a == text.address;
      }
    }
  }
}
