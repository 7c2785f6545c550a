/** Incidents of the store: created or updated for risky events, moved through their statuses by operators. */
module Incidents {
  import opened Numbers
  import opened Wrappers

  datatype Status = New | Analyzed | Confirmed | Closed

  datatype Entry = Entry(at: int, status: Status, note: string, risk: Option<int>)

  datatype Incident = Incident(
    id: string, source: string, component: string, status: Status, risk: int, updatedAt: int, timeline: seq<Entry>)

  /** The row of this id, or the number of rows. */
  function Find(rows: seq<Incident>, id: string): (i: nat)
    ensures i <= |rows|
    ensures i < |rows| ==> rows[i].id == id
  {
    if rows == [] then 0 else if rows[0].id == id then 0 else 1 + Find(rows[1..], id)
  }

  predicate Has(rows: seq<Incident>, id: string) {
    Find(rows, id) < |rows|
  }

  predicate IsOpenFor(i: Incident, source: string, component: string) {
    i.status != Closed && i.source == source && i.component == component
  }

  function Appended(i: Incident, e: Entry): Incident {
    i.(status := e.status, updatedAt := e.at, timeline := i.timeline + [e])
  }

  function Created(id: string, source: string, component: string, risk: int, now: int): Incident {
    Incident(id, source, component, New, Clamp(risk), now, [Entry(now, New, "Incident erstellt", None)])
  }

  /** A row of this id, unless the key is taken. */
  function Create(rows: seq<Incident>, i: Incident): seq<Incident> {
    if Has(rows, i.id) then rows else rows + [i]
  }

  function Record(rows: seq<Incident>, id: string, risk: int, now: int): seq<Incident> {
    var k := Find(rows, id);
    if k == |rows| then rows
    else
      rows[k := Appended(rows[k].(risk := Clamp(risk)), Entry(now, rows[k].status, "Risiko aktualisiert", Some(risk)))]
  }

  function SetStatus(rows: seq<Incident>, id: string, status: Status, note: string, now: int): seq<Incident> {
    var k := Find(rows, id);
    if k == |rows| then rows else rows[k := Appended(rows[k], Entry(now, status, note, None))]
  }

  function Note(note: string): string {
    if |note| <= 500 then note else note[..500]
  }

  /** The open incident of this source and component that was updated last. */
  predicate IsLatestOpen(rows: seq<Incident>, source: string, component: string, k: nat) {
    && k < |rows| && IsOpenFor(rows[k], source, component)
    && forall j :: 0 <= j < |rows| && IsOpenFor(rows[j], source, component) ==> rows[j].updatedAt <= rows[k].updatedAt
  }

  predicate NoneOpen(rows: seq<Incident>, source: string, component: string) {
    forall j :: 0 <= j < |rows| ==> !IsOpenFor(rows[j], source, component)
  }

  predicate UniqueIds(rows: seq<Incident>) {
    forall i, j :: 0 <= i < j < |rows| ==> rows[i].id != rows[j].id
  }

  /** The last entry of a timeline carries the current status. */
  predicate IsCurrent(i: Incident) {
    i.timeline != [] && i.timeline[|i.timeline| - 1].status == i.status
  }

  predicate AllCurrent(rows: seq<Incident>) {
    forall i :: 0 <= i < |rows| ==> IsCurrent(rows[i])
  }

  predicate SameKey(a: Incident, b: Incident) {
    a.source == b.source && a.component == b.component
  }

  /** At most one open incident per source and component. */
  predicate SingleOpen(rows: seq<Incident>) {
    forall i, j :: 0 <= i < j < |rows| && rows[i].status != Closed && rows[j].status != Closed ==>
      !SameKey(rows[i], rows[j])
  }

  /** Incidents stay, and their timelines only grow at the end. */
  predicate Grows(before: seq<Incident>, after: seq<Incident>) {
    && |before| <= |after|
    && forall i :: 0 <= i < |before| ==>
         && after[i].id == before[i].id && SameKey(after[i], before[i])
         && before[i].timeline <= after[i].timeline
  }

  lemma GrowsTransitive(a: seq<Incident>, b: seq<Incident>, c: seq<Incident>)
    requires Grows(a, b) && Grows(b, c)
    ensures Grows(a, c)
  {
  }

  lemma UpdateKeeps(rows: seq<Incident>, k: nat, risk: int, e: Entry)
    requires UniqueIds(rows) && AllCurrent(rows) && k < |rows|
    ensures var after := rows[k := Appended(rows[k].(risk := risk), e)];
            UniqueIds(after) && AllCurrent(after) && Grows(rows, after)
  {
  }

  lemma {:induction false} NotFound(rows: seq<Incident>, id: string, j: nat)
    requires !Has(rows, id) && j < |rows|
    ensures rows[j].id != id
  {
    if j > 0 {
      NotFound(rows[1..], id, j - 1);
    }
  }

  lemma CreateKeepsIds(rows: seq<Incident>, i: Incident)
    requires UniqueIds(rows)
    ensures UniqueIds(Create(rows, i))
  {
    if !Has(rows, i.id) {
      forall j | 0 <= j < |rows| ensures rows[j].id != i.id {
        NotFound(rows, i.id, j);
      }
    }
  }

  lemma CreateKeepsCurrent(rows: seq<Incident>, i: Incident)
    requires AllCurrent(rows) && IsCurrent(i)
    ensures AllCurrent(Create(rows, i))
  {
  }

  lemma CreateGrows(rows: seq<Incident>, i: Incident)
    ensures Grows(rows, Create(rows, i))
  {
    forall j | 0 <= j < |rows| ensures Create(rows, i)[j] == rows[j] {
    }
  }

  /** Whether an update would give a closed incident an open status. */
  predicate Reopens(rows: seq<Incident>, id: string, status: Status) {
    Has(rows, id) && rows[Find(rows, id)].status == Closed && status != Closed
  }

  /** Another open incident has the key of this one. */
  predicate HasOpenTwin(rows: seq<Incident>, id: string) {
    && Has(rows, id)
    && exists j :: 0 <= j < |rows| && j != Find(rows, id) && rows[j].status != Closed
                   && SameKey(rows[j], rows[Find(rows, id)])
  }

  /** A status update keeps single open incidents single, unless it reopens one whose key has an open incident. */
  lemma StatusKeepsSingleIff(rows: seq<Incident>, id: string, status: Status, note: string, now: int)
    requires SingleOpen(rows)
    ensures SingleOpen(SetStatus(rows, id, status, note, now))
       <==> !(Reopens(rows, id, status) && HasOpenTwin(rows, id))
  {
    var after := SetStatus(rows, id, status, note, now);
    if Reopens(rows, id, status) && HasOpenTwin(rows, id) {
      var k := Find(rows, id);
      var j :| 0 <= j < |rows| && j != k && rows[j].status != Closed && SameKey(rows[j], rows[k]);
      assert after[j] == rows[j] && after[k].status == status;
    }
  }

  class IncidentStore {
    var rows: seq<Incident>

    constructor ()
      ensures rows == []
    {
      rows := [];
    }

    /** The open incident of a source and component that was updated last, if one is open. */
    method OpenIncident(source: string, component: string) returns (found: Option<string>)
      ensures match found
              case None => NoneOpen(rows, source, component)
              case Some(id) => exists k: nat :: IsLatestOpen(rows, source, component, k) && rows[k].id == id
      ensures match found
              case None =>
                forall i :: i in rows && i.source == source && i.component == component ==> i.status == Closed
              case Some(id) =>
                exists i ::
                  && i in rows && i.id == id && i.source == source && i.component == component && i.status != Closed
                  && forall j :: j in rows && j.source == source && j.component == component && j.status != Closed ==>
                       j.updatedAt <= i.updatedAt
    {
      var best: nat := |rows|;
      for k := 0 to |rows|
        invariant best < k || best == |rows|
        invariant best < |rows| ==> IsOpenFor(rows[best], source, component)
        invariant forall j :: 0 <= j < k && IsOpenFor(rows[j], source, component) ==>
                    best < |rows| && rows[j].updatedAt <= rows[best].updatedAt
      {
        if IsOpenFor(rows[k], source, component) && (best == |rows| || rows[best].updatedAt < rows[k].updatedAt) {
          best := k;
        }
      }
      assert best < |rows| ==> rows[best] in rows;
      return if best == |rows| then None else Some(rows[best].id);
    }

    /** INSERT of a new incident; a taken key raises. */
    method CreateIncident(id: string, source: string, component: string, risk: int, now: int) returns (raised: bool)
      modifies this
      ensures raised == Has(old(rows), id)
      ensures rows == Create(old(rows), Created(id, source, component, risk, now))
    {
      if Has(rows, id) {
        return true;
      }
      var timeline := [Entry(now, New, "Incident erstellt", None)];
      rows := rows + [Incident(id, source, component, New, Clamp(risk), now, timeline)];
      return false;
    }

    method RecordIncidentRisk(id: string, risk: int, now: int) returns (known: bool)
      modifies this
      ensures known == Has(old(rows), id)
      ensures rows == Record(old(rows), id, risk, now)
    {
      var k := Find(rows, id);
      if k == |rows| {
        return false;
      }
      var timeline := rows[k].timeline + [Entry(now, rows[k].status, "Risiko aktualisiert", Some(risk))];
      rows := rows[k := rows[k].(risk := Clamp(risk), updatedAt := now, timeline := timeline)];
      return true;
    }

    /** An operator's update; a status that does not exist raises and changes nothing. */
    method UpdateIncidentStatus(id: string, status: Option<Status>, note: string, now: int)
      returns (known: Option<bool>)
      modifies this
      ensures known == if status == None then None else Some(Has(old(rows), id))
      ensures rows == if status == None then old(rows)
                      else SetStatus(old(rows), id, status.value, if |note| <= 500 then note else note[..500], now)
    {
      if status == None {
        return None;
      }
      var k := Find(rows, id);
      if k == |rows| {
        return Some(false);
      }
      var timeline := rows[k].timeline + [Entry(now, status.value, Note(note), None)];
      rows := rows[k := rows[k].(status := status.value, updatedAt := now, timeline := timeline)];
      return Some(true);
    }
  }
}
