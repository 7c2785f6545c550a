/** `ActionLifecycle` with the parts it drives under its lock: the actions table, the HAProxy runtime ACL and
    the adapter's read-back-confirmed commands. The ghost field `labels` records every atomic step, and
    `Valid` says that the record is a run of the protocol machine that ends in the present state. */
module ActionLifecycle {
  import opened Actions
  import opened Wrappers
  import opened ActionStore
  import opened LeaseProtocol
  import opened LeaseSafety
  import opened LeaseSweep

  /** A reply to `add acl` or `del acl`: an exception, blank text, or any other text. */
  datatype CommandReply = Raised | Blank | Message

  datatype AclLine = Ignored | ListedIp(text: IpText) | Malformed

  datatype ShowReply = ShowRaised | Lines(lines: seq<AclLine>)

  datatype RevokeResult = Missing | Refused | Revoked

  /** What becomes of an Anubis challenge: issued, or declined for an error that the adapter catches, or broken, as by a
      JSON reply that is no object. */
  datatype Challenged = Issued | Declined | Broken

  predicate ParsesLine(line: AclLine) {
    !line.Malformed? && (line.ListedIp? ==> line.text.Valid?)
  }

  predicate Parses(reply: ShowReply) {
    reply.Lines? && AllParse(reply.lines, |reply.lines|)
  }

  predicate AllParse(lines: seq<AclLine>, n: nat)
    requires n <= |lines|
  {
    forall i :: 0 <= i < n ==> ParsesLine(lines[i])
  }

  /** The canonical addresses of the first `n` lines of a reply. */
  function Listing(lines: seq<AclLine>, n: nat): seq<Address>
    requires n <= |lines| && AllParse(lines, n)
  {
    if n == 0 then []
    else if lines[n - 1].ListedIp? then Listing(lines, n - 1) + [lines[n - 1].text.address]
    else Listing(lines, n - 1)
  }

  /** Some line lists this address. */
  predicate Lists(lines: seq<AclLine>, a: Address) {
    exists i :: 0 <= i < |lines| && lines[i].ListedIp? && lines[i].text.Valid? && lines[i].text.address == a
  }

  lemma {:induction false} ListingHas(lines: seq<AclLine>, n: nat)
    requires n <= |lines|
    ensures AllParse(lines, n) ==> forall a :: a in Listing(lines, n) <==> Lists(lines[..n], a)
  {
    if n > 0 && AllParse(lines, n) {
      ListingHas(lines, n - 1);
      forall a ensures a in Listing(lines, n) <==> Lists(lines[..n], a) {
        assert lines[..n] == lines[..n - 1] + [lines[n - 1]];
        if Lists(lines[..n - 1], a) {
          var i :| 0 <= i < n - 1 && lines[i].ListedIp? && lines[i].text.Valid? && lines[i].text.address == a;
          assert lines[..n][i] == lines[i];
        }
        if lines[n - 1].ListedIp? && lines[n - 1].text.address == a {
          assert lines[..n][n - 1] == lines[n - 1];
        }
      }
    }
  }

  /** A reply that parses lists the ACL. */
  predicate Honest(reply: ShowReply, acl: multiset<Address>) {
    Parses(reply) ==> multiset(Listing(reply.lines, |reply.lines|)) == acl
  }

  function Canonical(ip: IpText): IpText
    requires ip.Valid?
  {
    Valid(ip.address, 0)
  }

  /** The loop of `_contains` over the lines of a reply. */
  method ParseListing(lines: seq<AclLine>) returns (entries: Option<seq<Address>>)
    ensures entries.Some? <==>
              forall i :: 0 <= i < |lines| ==> !lines[i].Malformed? && (lines[i].ListedIp? ==> lines[i].text.Valid?)
    ensures entries.Some? <==> AllParse(lines, |lines|)
    ensures entries.Some? ==> entries.value == Listing(lines, |lines|)
    ensures entries.Some? ==> forall a :: a in entries.value <==> Lists(lines, a)
  {
    ListingHas(lines, |lines|);
    var found: seq<Address> := [];
    for i := 0 to |lines|
      invariant AllParse(lines, i) && found == Listing(lines, i)
    {
      if !ParsesLine(lines[i]) {
        return None;
      }
      if lines[i].ListedIp? {
        found := found + [lines[i].text.address];
      }
    }
    entries := Some(found);
  }

  /** Another record of the same text holds a longer lease (the `any(...)` of `reconcile`). */
  predicate HasLiveTwin(entries: seq<Entry>, row: Row, now: int) {
    exists e :: e in entries && e.row.ip == row.ip && e.row.provider == HAProxy && e.row.action == Block
      && !IsLapsed(e.row, now)
  }

  /** `rows'` after the first `k` entries of a release of `text`. */
  ghost predicate ReleasedSoFar(entries: seq<Entry>, k: nat, text: IpText, rows: seq<Row>, rows': seq<Row>)
    requires Listed(entries, rows) && k <= |entries|
  {
    && |rows'| == |rows|
    && (forall j :: 0 <= j < k ==> rows'[entries[j].id] == ReleasedRow(entries[j].row, text))
    && (forall j :: k <= j < |entries| ==> rows'[entries[j].id] == entries[j].row)
    && (forall i :: 0 <= i < |rows| && !IsPending(rows[i]) ==> rows'[i] == rows[i])
  }

  lemma ReleaseNext(entries: seq<Entry>, k: nat, text: IpText, rows: seq<Row>, rows': seq<Row>)
    requires Listed(entries, rows) && k < |entries| && IsPending(entries[k].row)
    requires ReleasedSoFar(entries, k, text, rows, rows')
    ensures ReleasedSoFar(entries, k + 1, text, rows, rows'[entries[k].id := ReleasedRow(entries[k].row, text)])
  {
  }

  lemma ReleasedAll(text: IpText, rows: seq<Row>, rows': seq<Row>)
    requires Listed(PendingActions(rows), rows)
    requires ReleasedSoFar(PendingActions(rows), |PendingActions(rows)|, text, rows, rows')
    ensures Released(rows, text, rows')
  {
    PendingLists(rows);
    forall i | 0 <= i < |rows|
      ensures rows'[i] == ReleasedRow(rows[i], text)
    {
      if IsPending(rows[i]) {
        assert Entry(i, rows[i]) in PendingActions(rows);
      }
    }
  }

  /** Provider and applied flag of the responses other than an enforced block (`SentinelService._act`); None stands
      for an exception. */
  function OtherResponse(ip: IpText, action: Action, dryRun: bool, challenged: Challenged): Option<(Provider, bool)> {
    if dryRun then Some((OtherProvider("dry_run"), false))
    else match action
      case Block => if ip.Valid? then Some((HAProxy, false)) else None
      case Challenge => if challenged.Broken? then None else Some((OtherProvider("anubis"), challenged.Issued?))
      case RateLimit => if ip.Valid? then Some((HAProxy, false)) else None
      case LogOnly => Some((OtherProvider("policy"), false))
      case Alert => Some((OtherProvider("policy"), false))
      case Allow => Some((OtherProvider("policy"), true))
  }

  class Lifecycle {
    const enabled: bool
    var actions: seq<Row>
    var acl: multiset<Address>
    var clock: int

    ghost const start: State
    ghost var pc: Pc
    ghost var labels: seq<Label>
    /** Addresses for which a runtime command of the current operation has failed. */
    ghost var faults: set<Address>

    ghost function Current(): State
      reads this
    {
      State(actions, acl, clock, pc)
    }

    ghost predicate Valid()
      reads this
    {
      RunTo(Current())
    }

    /** The recorded labels are a run to `s`, and the process may have crashed after any of them. */
    ghost predicate RunTo(s: State)
      reads this`labels
    {
      IsInitial(start) && forall n :: 0 <= n <= |labels| ==> SafePoint(n, s)
    }

    ghost predicate SafePoint(n: nat, s: State)
      requires n <= |labels|
      reads this`labels
    {
      && IsRun(start, labels[..n]) && Inv(Exec(start, labels[..n]))
      && (n == |labels| ==> Exec(start, labels[..n]) == s)
    }

    constructor (enabled: bool, clock: int)
      ensures Valid() && pc.Idle? && actions == [] && acl == multiset{}
      ensures this.enabled == enabled && this.clock == clock
    {
      this.enabled := enabled;
      this.clock := clock;
      actions, acl := [], multiset{};
      start := State([], multiset{}, clock, Idle);
      pc, labels, faults := Idle, [], {};
    }

    /** After every step so far, and so wherever a crash may strike, each enforced address is on record, none
        is listed twice, and the database and the ACL are those of a state of the protocol machine. */
    lemma SafeAtEveryPoint(n: nat)
      requires Valid() && n <= |labels|
      ensures IsRun(start, labels[..n]) && AclBacked(Exec(start, labels[..n])) && SingleEntries(Exec(start, labels[..n]))
      ensures n == |labels| ==> Exec(start, labels[..n]) == Current()
    {
      assert SafePoint(n, Current());
    }

    lemma AtMostOnce(a: Address)
      requires Valid()
      ensures acl[a] <= 1
    {
      SafeAtEveryPoint(|labels|);
    }

    lemma PresentIsSafe()
      requires Valid()
      ensures Inv(Current())
    {
      assert SafePoint(|labels|, Current());
    }

    ghost method Record(l: Label, s: State)
      requires RunTo(s) && Enabled(s, l)
      requires State(actions, acl, clock, Apply(s, l).pc) == Apply(s, l)
      modifies this`pc, this`labels
      ensures Valid() && labels == old(labels) + [l] && pc == Apply(s, l).pc
    {
      ghost var before := labels;
      assert SafePoint(|labels|, s) && labels[..|labels|] == labels;
      pc := Apply(s, l).pc;
      labels := labels + [l];
      StepKeepsInv(s, l);
      forall n | 0 <= n <= |labels|
        ensures SafePoint(n, Current())
      {
        if n < |labels| {
          assert old(SafePoint(n, s));
          assert labels[..n] == before[..n];
        } else {
          assert labels[..n] == labels && labels[..|labels| - 1] == before;
        }
      }
    }

    // ---- HAProxy runtime: the commands, with every outcome the environment may choose ---------------

    method ShowAcl(ghost a: Address) returns (reply: ShowReply)
      modifies this`faults
      ensures Honest(reply, acl)
      ensures faults == if Parses(reply) then old(faults) else old(faults) + {a}
    {
      reply := *;
      if !Honest(reply, acl) {
        reply := ShowRaised;
      }
      faults := if Parses(reply) then faults else faults + {a};
    }

    method AddAcl(a: Address) returns (reply: CommandReply, ghost added: bool)
      modifies this`acl, this`faults
      ensures acl == if added then old(acl) + multiset{a} else old(acl)
      ensures faults == if reply == Blank && added then old(faults) else old(faults) + {a}
    {
      reply := *;
      var takesEffect: bool := *;
      if takesEffect {
        acl := acl + multiset{a};
      }
      added := takesEffect;
      faults := if reply == Blank && added then faults else faults + {a};
    }

    method DelAcl(a: Address) returns (reply: CommandReply, ghost left: nat)
      modifies this`acl, this`faults
      ensures left <= old(acl)[a] && acl == old(acl)[a := left]
      ensures faults == if reply == Blank && left == 0 then old(faults) else old(faults) + {a}
    {
      reply := *;
      var remaining: nat :| remaining <= acl[a];
      acl := acl[a := remaining];
      left := remaining;
      faults := if reply == Blank && left == 0 then faults else faults + {a};
    }

    // ---- HAProxyActionAdapter ----------------------------------------------------------------------

    /** `_contains`; None stands for the exception. */
    method Contains(a: Address) returns (found: Option<bool>)
      modifies this`faults
      ensures found == None || found == Some(a in acl)
      ensures faults == if found == None then old(faults) + {a} else old(faults)
    {
      var reply := ShowAcl(a);
      if reply.ShowRaised? {
        return None;
      }
      var entries := ParseListing(reply.lines);
      found := if entries == None then None else Some(a in entries.value);
    }

    /** `block` with actions enabled, from the intent row on; false stands for the exception. It succeeds
        exactly when no runtime command failed. */
    method BlockAddress(ghost id: nat, a: Address) returns (ok: bool)
      requires Valid() && pc == Check(id) && RowInBounds(Current(), id) && actions[id].ip.address == a
      modifies this`acl, this`pc, this`labels, this`faults
      ensures Valid() && old(labels) <= labels && pc == if ok then Confirm(id) else Idle
      ensures ok ==> a in acl
      ensures forall b :: b != a ==> acl[b] == old(acl)[b]
      ensures faults == if ok then old(faults) else old(faults) + {a}
    {
      ghost var s := Current();
      var found := Contains(a);
      Record(Show(found.Some?), s);
      if found == None {
        return false;
      }
      if !found.value {
        var acknowledged := InsertAddress(id, a);
        if !acknowledged {
          return false;
        }
      }
      s := Current();
      var confirmed := Contains(a);
      Record(Show(confirmed.Some?), s);
      ok := confirmed == Some(true);
    }

    /** The `add acl` of `block`: true when the reply was blank, whether or not the command took effect. */
    method InsertAddress(ghost id: nat, a: Address) returns (ok: bool)
      requires a !in acl
      requires Valid() && pc == Add(id) && RowInBounds(Current(), id) && actions[id].ip.address == a
      modifies this`acl, this`pc, this`labels, this`faults
      ensures Valid() && old(labels) <= labels && pc == if ok then Verify(id) else Idle
      ensures forall b :: b != a ==> acl[b] == old(acl)[b]
      ensures faults == if ok && a in acl then old(faults) else old(faults) + {a}
      ensures !ok ==> a in faults
    {
      ghost var s := Current();
      var reply;
      ghost var added;
      reply, added := AddAcl(a);
      Record(SendAdd(added, reply == Blank), s);
      ok := reply == Blank;
    }

    /** `unblock` with actions enabled. It succeeds exactly when no runtime command failed. */
    method UnblockAddress(ghost job: Job, a: Address) returns (ok: bool)
      requires Valid() && pc == Delete(job) && JobInBounds(job) && JobText(job).address == a
      modifies this`acl, this`pc, this`labels, this`faults
      ensures Valid() && old(labels) <= labels && pc == if ok then Done(job, actions) else Failed(job)
      ensures acl[a] <= old(acl)[a] && (ok ==> acl[a] == 0)
      ensures forall b :: b != a ==> acl[b] == old(acl)[b]
      ensures faults == if ok then old(faults) else old(faults) + {a}
    {
      ghost var s := Current();
      var reply;
      ghost var left;
      reply, left := DelAcl(a);
      Record(SendDel(left, reply == Blank), s);
      if reply != Blank {
        return false;
      }
      s := Current();
      var found := Contains(a);
      Record(Show(found.Some?), s);
      ok := found == Some(false);
    }

    // ---- SentinelService.process, the part under the lock -------------------------------------------

    /** Store the intent, block, confirm; or store the record of any other response. False stands for an
        exception: an enforced block's intent row is then still pending, and any other response leaves no row. */
    method Respond(
      ip: IpText, action: Action, dryRun: bool, challenged: Challenged, expires: Option<int>, detail: string)
      returns (ok: bool)
      requires Valid() && pc.Idle?
      modifies this`actions, this`acl, this`pc, this`labels, this`faults
      ensures Valid() && old(labels) <= labels && pc.Idle?
      ensures action == Block && !dryRun && enabled ==>
        && (ok <==> ip.Valid? && faults == {})
        && (ok ==> actions == old(actions) + [Row(ip, Block, HAProxy, true, expires, Detail(detail))])
        && (!ok ==> actions == old(actions) + [Row(ip, Block, HAProxy, false, expires, Applying)])
        && (ok ==> acl == old(acl)[ip.address := 1])
        && (!ok ==> acl == old(acl) || (ip.Valid? && acl == old(acl)[ip.address := acl[ip.address]]))
      ensures !(action == Block && !dryRun && enabled) ==> acl == old(acl) && (!ok ==> actions == old(actions))
      ensures dryRun ==>
        ok && actions == old(actions) + [Row(ip, action, OtherProvider("dry_run"), false, expires, Detail(detail))]
      ensures !dryRun && (action.RateLimit? || (action.Block? && !enabled)) ==>
        && (ok <==> ip.Valid?)
        && (ok ==> actions == old(actions) + [Row(ip, action, HAProxy, false, expires, Detail(detail))])
      ensures !dryRun && action.Challenge? ==>
        && (ok <==> !challenged.Broken?)
        && (ok ==>
              var row := Row(ip, Challenge, OtherProvider("anubis"), challenged.Issued?, expires, Detail(detail));
              actions == old(actions) + [row])
      ensures !dryRun && (action.Allow? || action.LogOnly? || action.Alert?) ==>
        ok && actions == old(actions)
          + [Row(ip, action, OtherProvider("policy"), action.Allow?, expires, Detail(detail))]
    {
      faults := {};
      if action == Block && !dryRun && enabled {
        ok := EnforceBlock(ip, expires, detail);
      } else {
        var response := OtherResponse(ip, action, dryRun, challenged);
        ok := response.Some?;
        if ok {
          ghost var s := Current();
          var row := Row(ip, action, response.value.0, response.value.1, expires, Detail(detail));
          actions := actions + [row];
          Record(Note(row), s);
        }
      }
    }

    method EnforceBlock(ip: IpText, expires: Option<int>, detail: string) returns (ok: bool)
      requires Valid() && pc.Idle? && faults == {}
      modifies this`actions, this`acl, this`pc, this`labels, this`faults
      ensures Valid() && old(labels) <= labels && pc.Idle?
      ensures ok <==> ip.Valid? && faults == {}
      ensures ok ==> actions == old(actions) + [Row(ip, Block, HAProxy, true, expires, Detail(detail))]
      ensures !ok ==> actions == old(actions) + [Row(ip, Block, HAProxy, false, expires, Applying)]
      ensures ok ==> acl == old(acl)[ip.address := 1]
      ensures !ok ==> acl == old(acl) || (ip.Valid? && acl == old(acl)[ip.address := acl[ip.address]])
    {
      var id := StoreIntent(ip, expires);
      if !ip.Valid? {
        return false;
      }
      ok := BlockAddress(id, ip.address);
      if ok {
        ConfirmIntent(id, detail);
        AtMostOnce(ip.address);
      }
    }

    /** `add_action` of the row that records the intent. */
    method StoreIntent(ip: IpText, expires: Option<int>) returns (id: nat)
      requires Valid() && pc.Idle?
      modifies this`actions, this`pc, this`labels
      ensures Valid() && old(labels) <= labels && pc == if ip.Valid? then Check(id) else Idle
      ensures id == |old(actions)| && actions == old(actions) + [Row(ip, Block, HAProxy, false, expires, Applying)]
    {
      ghost var s := Current();
      id := |actions|;
      actions := actions + [Intent(ip, expires)];
      Record(Intend(ip, expires), s);
    }

    /** `confirm_action` of an intent row whose block was confirmed. */
    method ConfirmIntent(id: nat, detail: string)
      requires Valid() && pc == Confirm(id) && id < |actions|
      modifies this`actions, this`pc, this`labels
      ensures Valid() && old(labels) <= labels && pc.Idle?
      ensures actions == old(actions)[id := old(actions)[id].(applied := true, result := Detail(detail))]
    {
      ghost var s := Current();
      actions := actions[id := actions[id].(applied := true, result := Detail(detail))];
      Record(ConfirmRow(detail), s);
    }

    // ---- What the environment may do between and during the calls ------------------------------------

    /** The process dies and restarts: rows and ACL survive, lock and program counter do not. */
    method CrashAndRestart()
      requires Valid()
      modifies this`pc, this`labels
      ensures Valid() && old(labels) <= labels && pc.Idle?
    {
      Record(Crash, Current());
    }

    method TimePasses(to: int)
      requires Valid() && clock <= to
      modifies this`clock, this`pc, this`labels
      ensures Valid() && old(labels) <= labels && pc == old(pc) && clock == to
    {
      ghost var s := Current();
      clock := to;
      Record(Tick(to), s);
    }

    /** Someone other than Sentinel takes copies of an address out of the ACL. */
    method RemoveOutside(a: Address, copies: nat)
      requires Valid() && copies <= acl[a]
      modifies this`acl, this`pc, this`labels
      ensures Valid() && old(labels) <= labels && pc == old(pc) && acl == old(acl)[a := copies]
    {
      ghost var s := Current();
      acl := acl[a := copies];
      Record(OutsideRemoval(a, copies), s);
    }

    // ---- ActionLifecycle -----------------------------------------------------------------------------

    /** One round of the loop of `unblock` and `revoke` over the pending rows. */
    method FinishLease(text: IpText, ghost rows: seq<Row>, entries: seq<Entry>, k: nat)
      requires Valid() && Listed(entries, rows) && k < |entries| && IsPending(entries[k].row)
      requires pc == Finish(text, LeaseIds(entries[k..], text))
      requires ReleasedSoFar(entries, k, text, rows, actions)
      modifies this`actions, this`pc, this`labels
      ensures Valid() && old(labels) <= labels && pc == Finish(text, LeaseIds(entries[k + 1..], text))
      ensures ReleasedSoFar(entries, k + 1, text, rows, actions)
    {
      var e := entries[k];
      assert entries[k..][0] == e && entries[k..][1..] == entries[k + 1..];
      ReleaseNext(entries, k, text, rows, actions);
      if IsLease(e.row) && e.row.ip == text {
        ghost var s := Current();
        actions := actions[e.id := Finished(actions[e.id], Outcome.Revoked)];
        Record(FinishNext, s);
      } else {
        assert actions[e.id := ReleasedRow(e.row, text)] == actions;
      }
    }

    method FinishLeases(text: IpText)
      requires Valid() && pc == Finish(text, LeaseIds(PendingActions(actions), text))
      modifies this`actions, this`pc, this`labels
      ensures Valid() && old(labels) <= labels && pc.Idle?
      ensures Released(old(actions), text, actions)
    {
      var entries := PendingActions(actions);
      ghost var rows := actions;
      PendingIsListed(rows);
      for k := 0 to |entries|
        invariant Valid() && old(labels) <= labels && pc == Finish(text, LeaseIds(entries[k..], text))
        invariant ReleasedSoFar(entries, k, text, rows, actions)
      {
        FinishLease(text, rows, entries, k);
      }
      Record(FinishNext, Current());
      ReleasedAll(text, rows, actions);
    }

    /** Delete `text`'s address from the ACL and, once that is confirmed, end the leases of `text`. */
    method ReleaseText(text: IpText) returns (ok: bool)
      requires Valid() && pc.Idle? && enabled && text.Valid?
      modifies this`actions, this`acl, this`pc, this`labels, this`faults
      ensures Valid() && old(labels) <= labels && pc.Idle?
      ensures faults == if ok then old(faults) else old(faults) + {text.address}
      ensures acl == old(acl)[text.address := acl[text.address]] && acl[text.address] <= old(acl)[text.address]
      ensures if ok then Released(old(actions), text, actions) && acl[text.address] == 0 else actions == old(actions)
    {
      Record(BeginRelease(text), Current());
      ok := UnblockAddress(Release(text), text.address);
      if ok {
        FinishLeases(text);
      }
    }

    /** False stands for an exception: the rows are then as they were. */
    method Unblock(ip: IpText) returns (ok: bool)
      requires Valid() && pc.Idle?
      modifies this`actions, this`acl, this`pc, this`labels, this`faults
      ensures Valid() && old(labels) <= labels && pc.Idle?
      ensures ok <==> enabled && ip.Valid? && faults == {}
      ensures ok ==> acl == old(acl)[ip.address := 0] && |actions| == |old(actions)|
      ensures ok ==> forall i :: 0 <= i < |actions| ==>
        var row := old(actions)[i];
        actions[i] ==
          if (row.applied || row.result == Applying) && row.action == Block && row.provider == HAProxy
             && row.ip == IpText.Valid(ip.address, 0)
          then row.(applied := false, result := Outcome.Revoked)
          else row
      ensures !ok ==> actions == old(actions)
      ensures !ok ==> acl == old(acl) || (enabled && ip.Valid? && acl == old(acl)[ip.address := acl[ip.address]])
    {
      faults := {};
      if !ip.Valid? || !enabled {
        return false;
      }
      ok := ReleaseText(Canonical(ip));
    }

    /** What a refused revocation of `row` may have done to the ACL: taken out copies of its address, and nothing at all
        if the row is no enforceable lease. */
    ghost predicate RefusedAcl(row: Row, before: multiset<Address>)
      reads this
    {
      if IsLease(row) && enabled && row.ip.Valid? then
        var a := row.ip.address;
        acl == before[a := acl[a]] && acl[a] <= before[a]
      else acl == before
    }

    method Revoke(id: int) returns (r: RevokeResult)
      requires Valid() && pc.Idle?
      modifies this`actions, this`acl, this`pc, this`labels, this`faults
      ensures Valid() && old(labels) <= labels && pc.Idle?
      ensures r == Missing <==> !(0 <= id < |old(actions)|)
      ensures r != RevokeResult.Revoked ==> actions == old(actions)
      ensures r == Missing ==> acl == old(acl)
      ensures r == Refused ==> 0 <= id < |old(actions)| && RefusedAcl(old(actions)[id], old(acl))
      ensures 0 <= id < |old(actions)| && (old(actions)[id].applied || old(actions)[id].result == Applying) ==>
        var row := old(actions)[id];
        && (r == RevokeResult.Revoked <==> IsLease(row) && enabled && row.ip.Valid? && faults == {})
        && (r == RevokeResult.Revoked ==> acl == old(acl)[row.ip.address := 0] && |actions| == |old(actions)|)
        && (r == RevokeResult.Revoked ==>
              forall i :: 0 <= i < |actions| ==>
                var other := old(actions)[i];
                actions[i] ==
                  if (other.applied || other.result == Applying) && other.action == Block && other.provider == HAProxy
                     && other.ip == row.ip
                  then other.(applied := false, result := Outcome.Revoked)
                  else other)
      ensures 0 <= id < |old(actions)| && !old(actions)[id].applied && old(actions)[id].result != Applying ==>
        && r == RevokeResult.Revoked && acl == old(acl)
        && actions == old(actions)[id := Finished(old(actions)[id], Outcome.Revoked)]
    {
      faults := {};
      if id < 0 || id >= |actions| {
        return Missing;
      }
      var row := actions[id];
      if row.applied || row.result == Applying {
        if row.provider != HAProxy || row.action != Block || !row.ip.Valid? || !enabled {
          return Refused;
        }
        var ok := ReleaseText(row.ip);
        return if ok then RevokeResult.Revoked else Refused;
      }
      MarkRevokedRow(id);
      r := RevokeResult.Revoked;
    }

    method MarkRevokedRow(id: nat)
      requires Valid() && pc.Idle? && id < |actions| && !actions[id].applied && actions[id].result != Applying
      modifies this`actions, this`pc, this`labels
      ensures Valid() && old(labels) <= labels && pc.Idle?
      ensures actions == old(actions)[id := Finished(old(actions)[id], Outcome.Revoked)]
    {
      ghost var s := Current();
      actions := actions[id := Finished(actions[id], Outcome.Revoked)];
      Record(MarkRevoked(id), s);
    }

    /** The body of the sweep's `try` for an entry that is due. */
    method ExpireEntry(now: int, entries: seq<Entry>, k: nat) returns (ok: bool)
      requires enabled && Valid() && k < |entries| && pc == Sweep(now, entries, k) && Tried(entries, k, now)
      requires entries[k].id < |actions| && actions[entries[k].id] == entries[k].row
      modifies this`actions, this`acl, this`pc, this`labels, this`faults
      ensures Valid() && old(labels) <= labels && pc == Sweep(now, entries, k + 1)
      ensures actions ==
        if ok then old(actions)[entries[k].id := Finished(entries[k].row, Expired)] else old(actions)
      ensures acl[entries[k].row.ip.address] <= old(acl)[entries[k].row.ip.address]
      ensures ok ==> acl[entries[k].row.ip.address] == 0
      ensures forall b :: b != entries[k].row.ip.address ==> acl[b] == old(acl)[b]
      ensures faults == if ok then old(faults) else old(faults) + {entries[k].row.ip.address}
    {
      Record(SweepNext(false), Current());
      ok := UnblockAddress(Lapse(now, entries, k), entries[k].row.ip.address);
      if ok {
        ghost var s := Current();
        actions := actions[entries[k].id := Finished(actions[entries[k].id], Expired)];
        Record(ExpireRow, s);
      }
    }

    /** The lock is held by a sweep that has done the first `k` entries of its snapshot of `rows`. */
    ghost predicate Sweeping(rows: seq<Row>, was: multiset<Address>, now: int, entries: seq<Entry>, k: nat)
      reads this
    {
      && k <= |entries| && Listed(entries, rows) && Valid() && pc == Sweep(now, entries, k)
      && (enabled ==>
            RowsSwept(entries, now, k, faults, rows, actions) && AclSwept(entries, now, k, faults, was, acl))
      && (!enabled ==> actions == rows && acl == was)
    }

    method SkipEntry(
      ghost rows: seq<Row>, ghost was: multiset<Address>, ghost now: int, ghost entries: seq<Entry>, ghost k: nat)
      requires Sweeping(rows, was, now, entries, k) && k < |entries|
      requires Tried(entries, k, now) ==> !enabled
      modifies this`pc, this`labels
      ensures old(labels) <= labels && Sweeping(rows, was, now, entries, k + 1)
    {
      Record(SweepNext(!enabled), Current());
      if enabled {
        SkipAcl(entries, now, k, faults, was, acl);
      }
    }

    method TryEntry(ghost rows: seq<Row>, ghost was: multiset<Address>, now: int, entries: seq<Entry>, k: nat)
      requires Sweeping(rows, was, now, entries, k) && k < |entries|
      requires enabled && Tried(entries, k, now) && IsPending(entries[k].row)
      modifies this`actions, this`acl, this`pc, this`labels, this`faults
      ensures old(labels) <= labels && Sweeping(rows, was, now, entries, k + 1)
    {
      ghost var faults0, rows0, acl0 := faults, actions, acl;
      var ok := ExpireEntry(now, entries, k);
      TryRows(entries, now, k, ok, rows, faults0, rows0, faults, actions);
      TryAcl(entries, now, k, ok, was, faults0, acl0, faults, acl);
    }

    /** One round of the loop of `reconcile`. */
    method SweepEntry(ghost rows: seq<Row>, ghost was: multiset<Address>, now: int, entries: seq<Entry>, k: nat)
      requires Sweeping(rows, was, now, entries, k) && k < |entries|
      requires forall j :: 0 <= j < |entries| ==> IsPending(entries[j].row)
      modifies this`actions, this`acl, this`pc, this`labels, this`faults
      ensures old(labels) <= labels && Sweeping(rows, was, now, entries, k + 1)
    {
      assert forall e :: e in entries ==> IsPending(e.row);
      var row := entries[k].row;
      if row.provider != HAProxy || row.action != Block || !IsLapsed(row, now) || HasLiveTwin(entries, row, now)
        || !row.ip.Valid? || !enabled
      {
        SkipEntry(rows, was, now, entries, k);
      } else {
        TryEntry(rows, was, now, entries, k);
      }
    }

    method EndSweep(ghost rows: seq<Row>, ghost was: multiset<Address>, ghost now: int)
      requires Sweeping(rows, was, now, PendingActions(rows), |PendingActions(rows)|)
      modifies this`pc, this`labels
      ensures Valid() && old(labels) <= labels && pc.Idle?
      ensures enabled ==> SweepOutcome(rows, was, now, faults, actions, acl)
      ensures !enabled ==> actions == rows && acl == was
    {
      Record(SweepNext(false), Current());
      if enabled {
        SweptAll(rows, was, now, faults, actions, acl);
      }
    }

    /** The snapshot a sweep works on. */
    method BeginSweepOf(ghost rows: seq<Row>) returns (now: int, entries: seq<Entry>)
      requires Valid() && pc.Idle? && faults == {} && rows == actions
      modifies this`pc, this`labels
      ensures old(labels) <= labels && now == clock && entries == PendingActions(rows)
      ensures Sweeping(rows, acl, now, entries, 0)
      ensures forall k :: 0 <= k < |entries| ==> IsPending(entries[k].row)
    {
      now, entries := clock, PendingActions(actions);
      PendingIsListed(rows);
      Record(BeginSweep, Current());
    }

    method SweepEntries(ghost rows: seq<Row>, ghost was: multiset<Address>, now: int, entries: seq<Entry>)
      requires Sweeping(rows, was, now, entries, 0)
      requires forall k :: 0 <= k < |entries| ==> IsPending(entries[k].row)
      modifies this`actions, this`acl, this`pc, this`labels, this`faults
      ensures old(labels) <= labels && Sweeping(rows, was, now, entries, |entries|)
    {
      for k := 0 to |entries|
        invariant old(labels) <= labels && Sweeping(rows, was, now, entries, k)
      {
        SweepEntry(rows, was, now, entries, k);
      }
    }

    method SweepOnce()
      requires Valid() && pc.Idle? && faults == {}
      modifies this`actions, this`acl, this`pc, this`labels, this`faults
      ensures Valid() && old(labels) <= labels && pc.Idle?
      ensures enabled ==> SweepOutcome(old(actions), old(acl), clock, faults, actions, acl)
      ensures !enabled ==> actions == old(actions) && acl == old(acl)
    {
      ghost var rows, was := actions, acl;
      var now, entries := BeginSweepOf(rows);
      SweepEntries(rows, was, now, entries);
      EndSweep(rows, was, now);
    }

    /** One sweep. When every runtime command succeeds and leases of one address spell it alike, the ACL keeps
        exactly the entries with a live lease. */
    method SweepClean()
      requires Valid() && pc.Idle? && faults == {}
      modifies this`actions, this`acl, this`pc, this`labels, this`faults
      ensures Valid() && old(labels) <= labels && pc.Idle?
      ensures enabled ==> SweepOutcome(old(actions), old(acl), clock, faults, actions, acl)
      ensures !enabled ==> actions == old(actions) && acl == old(acl)
      ensures enabled && faults == {} && SpelledAlike(old(actions)) ==>
        SweptClean(old(actions), old(acl), clock, actions, acl)
    {
      ghost var s := Current();
      PresentIsSafe();
      SweepOnce();
      if enabled && faults == {} && SpelledAlike(s.rows) {
        SweepComplete(s, clock, actions, acl);
      }
    }

    /** What the outcome of a sweep means in terms of the columns. */
    lemma SweptByDate(s: State)
      requires Inv(s) && clock == s.clock && SweepOutcome(s.rows, s.acl, clock, faults, actions, acl)
      ensures forall i :: 0 <= i < |actions| ==>
        actions[i] == s.rows[i]
        || (&& IsLease(s.rows[i]) && (s.rows[i].expires == None || s.rows[i].expires.value <= clock)
            && actions[i] == s.rows[i].(applied := false, result := Expired))
      ensures SpelledAlike(s.rows) ==> forall i :: 0 <= i < |actions| ==>
        var row := s.rows[i];
        IsLease(row) && row.ip.Valid? && row.expires.Some? && clock < row.expires.value ==>
          acl[row.ip.address] == s.acl[row.ip.address]
      ensures forall a {:trigger acl[a]} :: a !in faults && NoneLater(s.rows, a, clock) ==>
          && acl[a] == 0
          && forall i :: 0 <= i < |actions| && LeaseOf(s.rows[i], a) ==>
               actions[i] == s.rows[i].(applied := false, result := Expired)
    {
      forall i: nat | i < |actions| && IsLease(s.rows[i]) && s.rows[i].expires.Some? && clock < s.rows[i].expires.value
        ensures actions[i] == s.rows[i]
        ensures s.rows[i].ip.Valid? && SpelledAlike(s.rows) ==>
                  acl[s.rows[i].ip.address] == s.acl[s.rows[i].ip.address]
      {
        LaterLeaseStays(s.rows, s.acl, clock, faults, actions, acl, i);
      }
      forall a | a !in faults && NoneLater(s.rows, a, clock)
        ensures acl[a] == 0
        ensures forall i :: 0 <= i < |actions| && LeaseOf(s.rows[i], a) ==>
          actions[i] == s.rows[i].(applied := false, result := Expired)
      {
        EndedLeasesGo(s, clock, faults, actions, acl, a);
      }
    }

    /** `reconcile`. A row changes only if it is a pending HAProxy block that has no end or has ended, and then to
        `expired`; with leases spelled alike, no copy of an address goes while one of its leases ends later; and if no
        command for an address failed and all its leases have ended, they are `expired` and no copy is left. */
    method Reconcile()
      requires Valid() && pc.Idle?
      modifies this`actions, this`acl, this`pc, this`labels, this`faults
      ensures Valid() && old(labels) <= labels && pc.Idle?
      ensures enabled ==> SweepOutcome(old(actions), old(acl), clock, faults, actions, acl)
      ensures !enabled ==> actions == old(actions) && acl == old(acl)
      ensures enabled && faults == {} && SpelledAlike(old(actions)) ==>
        SweptClean(old(actions), old(acl), clock, actions, acl)
      ensures |actions| == |old(actions)|
      ensures forall i :: 0 <= i < |actions| ==>
        var row := old(actions)[i];
        || actions[i] == row
        || (&& (row.applied || row.result == Applying) && row.action == Block && row.provider == HAProxy
            && (row.expires == None || row.expires.value <= clock)
            && actions[i] == row.(applied := false, result := Expired))
      ensures SpelledAlike(old(actions)) ==> forall i :: 0 <= i < |actions| ==>
        var row := old(actions)[i];
        (row.applied || row.result == Applying) && row.action == Block && row.provider == HAProxy && row.ip.Valid?
        && row.expires.Some? && clock < row.expires.value ==>
          acl[row.ip.address] == old(acl)[row.ip.address]
      ensures enabled ==> forall a {:trigger acl[a]} ::
        a !in faults
        && (forall i :: 0 <= i < |actions| && LeaseOf(old(actions)[i], a) ==>
              old(actions)[i].expires == None || old(actions)[i].expires.value <= clock) ==>
          && acl[a] == 0
          && forall i :: 0 <= i < |actions| && LeaseOf(old(actions)[i], a) ==>
               actions[i] == old(actions)[i].(applied := false, result := Expired)
    {
      ghost var before := Current();
      PresentIsSafe();
      faults := {};
      SweepClean();
      if enabled {
        SweptByDate(before);
      }
    }
  }
}
