/** The `actions` table (database/store.py) as a sequence of rows: the id of a row is its position. */
module ActionStore {
  import opened Actions
  import opened Wrappers

  type Address = string

  /** The text of an IP column. Two texts may spell one address (compressed and expanded IPv6, say);
      spelling 0 is the canonical one that `str(ipaddress.ip_address(text))` returns. */
  datatype IpText = Valid(address: Address, spelling: nat) | Invalid(text: string)

  datatype Provider = HAProxy | OtherProvider(name: string)

  /** The `result` column: the three words the protocol writes, or any other text. */
  datatype Outcome = Applying | Revoked | Expired | Detail(text: string)

  datatype Row = Row(
    ip: IpText, action: Action, provider: Provider, applied: bool, expires: Option<int>, result: Outcome)

  predicate IsPending(row: Row) {
    (row.applied || row.result == Applying) && row.action != Allow
  }

  /** A pending HAProxy block: the rows that entitle an address to an ACL entry. */
  predicate IsLease(row: Row) {
    IsPending(row) && row.provider == HAProxy && row.action == Block
  }

  predicate IsLapsed(row: Row, now: int) {
    row.expires == None || row.expires.value <= now
  }

  predicate LeaseOf(row: Row, a: Address) {
    IsLease(row) && row.ip.Valid? && row.ip.address == a
  }

  predicate LiveLeaseOf(row: Row, a: Address, now: int) {
    LeaseOf(row, a) && row.expires.Some? && now < row.expires.value
  }

  /** `finish_action`. */
  function Finished(row: Row, result: Outcome): (r: Row)
    requires result.Revoked? || result.Expired?
    ensures !IsPending(r) && HasEnded(r)
    ensures r.(applied := row.applied, result := row.result) == row
  {
    row.(applied := false, result := result)
  }

  predicate HasEnded(row: Row) {
    !row.applied && (row.result.Revoked? || row.result.Expired?)
  }

  predicate Backed(rows: seq<Row>, a: Address) {
    exists i :: 0 <= i < |rows| && LeaseOf(rows[i], a)
  }

  predicate BackedLive(rows: seq<Row>, a: Address, now: int) {
    exists i :: 0 <= i < |rows| && LiveLeaseOf(rows[i], a, now)
  }

  /** A row together with its id, as `pending_actions` returns it. */
  datatype Entry = Entry(id: nat, row: Row)

  /** `pending_actions`, in id order. */
  function PendingActions(rows: seq<Row>): seq<Entry> {
    if rows == [] then []
    else
      var n := |rows| - 1;
      var init := PendingActions(rows[..n]);
      if IsPending(rows[n]) then init + [Entry(n, rows[n])] else init
  }

  /** `pending_actions` lists exactly the rows that are applied or applying and do not allow, each once. */
  lemma {:induction false} PendingLists(rows: seq<Row>)
    ensures forall e :: e in PendingActions(rows) <==>
      e.id < |rows| && rows[e.id] == e.row && (e.row.applied || e.row.result == Applying) && e.row.action != Allow
    ensures forall i, j :: 0 <= i < j < |PendingActions(rows)| ==>
      PendingActions(rows)[i].id < PendingActions(rows)[j].id
  {
    if rows != [] {
      PendingLists(rows[..|rows| - 1]);
      var init := PendingActions(rows[..|rows| - 1]);
      assert forall j :: 0 <= j < |init| ==> init[j] in init;
    }
  }
}
