/** Runs of the incident store: one event being processed at a time, operators acting at any moment, crashes. */
module IncidentRuns {
  import opened Wrappers
  import opened Incidents
  import opened Numbers

  /** Between the service's lookup and its write: what it looked for, and what it found. */
  datatype Pending = Pending(source: string, component: string, found: Option<string>)

  datatype State = State(rows: seq<Incident>, pending: Option<Pending>)

  datatype Step =
    | Look(source: string, component: string, found: Option<string>)
    | Write(id: string, risk: int, now: int)
    | Update(id: string, status: Status, note: string, now: int)
    | Crash

  ghost predicate Finds(rows: seq<Incident>, source: string, component: string, found: Option<string>) {
    match found
    case None => NoneOpen(rows, source, component)
    case Some(id) => exists k: nat :: IsLatestOpen(rows, source, component, k) && rows[k].id == id
  }

  ghost predicate Enabled(s: State, step: Step) {
    match step
    case Look(source, component, found) => s.pending == None && Finds(s.rows, source, component, found)
    case Write(_, _, _) => s.pending.Some?
    case Update(_, _, _, _) => true
    case Crash => true
  }

  function Apply(s: State, step: Step): State {
    match step
    case Look(source, component, found) => s.(pending := Some(Pending(source, component, found)))
    case Write(id, risk, now) =>
      (match s.pending
       case None => s
       case Some(p) =>
         State(if p.found.Some? then Record(s.rows, p.found.value, risk, now)
               else Create(s.rows, Created(id, p.source, p.component, risk, now)), None))
    case Update(id, status, note, now) => s.(rows := SetStatus(s.rows, id, status, note, now))
    case Crash => s.(pending := None)
  }

  function Exec(steps: seq<Step>): State {
    if steps == [] then State([], None) else Apply(Exec(steps[..|steps| - 1]), steps[|steps| - 1])
  }

  ghost predicate IsRun(steps: seq<Step>) {
    steps != [] ==> IsRun(steps[..|steps| - 1]) && Enabled(Exec(steps[..|steps| - 1]), steps[|steps| - 1])
  }

  predicate Sound(rows: seq<Incident>) {
    UniqueIds(rows) && AllCurrent(rows)
  }

  lemma SetStatusKeeps(rows: seq<Incident>, id: string, status: Status, note: string, now: int)
    requires Sound(rows)
    ensures Sound(SetStatus(rows, id, status, note, now)) && Grows(rows, SetStatus(rows, id, status, note, now))
  {
    if Has(rows, id) {
      var k := Find(rows, id);
      UpdateKeeps(rows, k, rows[k].risk, Entry(now, status, note, None));
    }
  }

  lemma RecordKeeps(rows: seq<Incident>, id: string, risk: int, now: int)
    requires Sound(rows)
    ensures Sound(Record(rows, id, risk, now)) && Grows(rows, Record(rows, id, risk, now))
  {
    if Has(rows, id) {
      var k := Find(rows, id);
      UpdateKeeps(rows, k, Clamp(risk), Entry(now, rows[k].status, "Risiko aktualisiert", Some(risk)));
    }
  }

  lemma RecordKeepsSingle(rows: seq<Incident>, id: string, risk: int, now: int)
    requires SingleOpen(rows)
    ensures SingleOpen(Record(rows, id, risk, now))
  {
  }

  lemma CreateKeeps(rows: seq<Incident>, i: Incident)
    requires Sound(rows) && IsCurrent(i)
    ensures Sound(Create(rows, i)) && Grows(rows, Create(rows, i))
  {
    CreateKeepsIds(rows, i);
    CreateKeepsCurrent(rows, i);
    CreateGrows(rows, i);
  }

  lemma ApplyKeeps(s: State, step: Step)
    requires Sound(s.rows)
    ensures Sound(Apply(s, step).rows) && Grows(s.rows, Apply(s, step).rows)
  {
    match step
    case Look(_, _, _) =>
    case Crash =>
    case Update(id, status, note, now) => SetStatusKeeps(s.rows, id, status, note, now);
    case Write(id, risk, now) =>
      if s.pending.Some? {
        var p := s.pending.value;
        if p.found.Some? {
          RecordKeeps(s.rows, p.found.value, risk, now);
        } else {
          CreateKeeps(s.rows, Created(id, p.source, p.component, risk, now));
        }
      }
  }

  lemma ExecSnoc(steps: seq<Step>, step: Step)
    ensures Exec(steps + [step]) == Apply(Exec(steps), step)
    ensures IsRun(steps + [step]) <==> IsRun(steps) && Enabled(Exec(steps), step)
  {
    assert (steps + [step])[..|steps|] == steps;
  }

  /** In every run ids are unique, and the last entry of every timeline is the current status. */
  lemma {:induction false} StatusIsLastEntry(steps: seq<Step>)
    ensures Sound(Exec(steps).rows)
    ensures var rows := Exec(steps).rows;
            && (forall i :: 0 <= i < |rows| ==>
                  rows[i].timeline != [] && rows[i].timeline[|rows[i].timeline| - 1].status == rows[i].status)
            && forall i, j :: 0 <= i < j < |rows| ==> rows[i].id != rows[j].id
  {
    if steps != [] {
      StatusIsLastEntry(steps[..|steps| - 1]);
      ApplyKeeps(Exec(steps[..|steps| - 1]), steps[|steps| - 1]);
    }
  }

  /** From any moment of a run on, incidents stay and their timelines only grow at the end. */
  lemma {:induction false} TimelinesOnlyGrow(steps: seq<Step>, more: seq<Step>)
    ensures Grows(Exec(steps).rows, Exec(steps + more).rows)
    ensures var before, after := Exec(steps).rows, Exec(steps + more).rows;
            |before| <= |after|
            && forall i :: 0 <= i < |before| ==>
                 && after[i].id == before[i].id && after[i].source == before[i].source
                 && after[i].component == before[i].component && before[i].timeline <= after[i].timeline
  {
    if more == [] {
      assert steps + more == steps;
    } else {
      var init, last := more[..|more| - 1], more[|more| - 1];
      TimelinesOnlyGrow(steps, init);
      assert steps + more == (steps + init) + [last];
      ExecSnoc(steps + init, last);
      StatusIsLastEntry(steps + init);
      ApplyKeeps(Exec(steps + init), last);
      GrowsTransitive(Exec(steps).rows, Exec(steps + init).rows, Exec(steps + more).rows);
    }
  }

  // ---- At most one open incident per source and component ---------------------------------------------

  /** The service found no open incident, there is one by now, and it creates another. */
  predicate CreatesTwin(s: State, step: Step) {
    && step.Write? && s.pending.Some? && s.pending.value.found == None && !Has(s.rows, step.id)
    && !NoneOpen(s.rows, s.pending.value.source, s.pending.value.component)
  }

  /** An operator reopens an incident whose source and component have an open one. */
  predicate ReopensTwin(s: State, step: Step) {
    step.Update? && Reopens(s.rows, step.id, step.status) && HasOpenTwin(s.rows, step.id)
  }

  predicate Breaks(s: State, step: Step) {
    CreatesTwin(s, step) || ReopensTwin(s, step)
  }

  lemma CreateKeepsSingleIff(rows: seq<Incident>, id: string, source: string, component: string, risk: int, now: int)
    requires SingleOpen(rows)
    ensures SingleOpen(Create(rows, Created(id, source, component, risk, now)))
       <==> Has(rows, id) || NoneOpen(rows, source, component)
  {
    var after := Create(rows, Created(id, source, component, risk, now));
    if !Has(rows, id) && !NoneOpen(rows, source, component) {
      var j :| 0 <= j < |rows| && IsOpenFor(rows[j], source, component);
      assert after[j] == rows[j] && SameKey(after[j], after[|rows|]);
    }
  }

  /** The exact steps that give a source and component a second open incident. */
  lemma StepKeepsSingleIff(s: State, step: Step)
    requires Sound(s.rows) && SingleOpen(s.rows) && Enabled(s, step)
    ensures SingleOpen(Apply(s, step).rows) <==> !Breaks(s, step)
  {
    match step
    case Look(_, _, _) =>
    case Crash =>
    case Update(id, status, note, now) => StatusKeepsSingleIff(s.rows, id, status, note, now);
    case Write(id, risk, now) =>
      var p := s.pending.value;
      if p.found.Some? {
        RecordKeepsSingle(s.rows, p.found.value, risk, now);
      } else {
        CreateKeepsSingleIff(s.rows, id, p.source, p.component, risk, now);
      }
  }

  /** At every moment of the run there is at most one open incident per source and component. */
  ghost predicate AlwaysSingle(steps: seq<Step>) {
    SingleOpen(Exec(steps).rows) && (steps != [] ==> AlwaysSingle(steps[..|steps| - 1]))
  }

  predicate NeverBreaks(steps: seq<Step>) {
    steps != [] ==>
      NeverBreaks(steps[..|steps| - 1]) && !Breaks(Exec(steps[..|steps| - 1]), steps[|steps| - 1])
  }

  /** A run keeps at most one open incident per source and component, at every moment, exactly if no operator reopens
      one beside an open one, and the service creates none beside one that was opened after its lookup. */
  lemma {:induction false} AlwaysSingleIff(steps: seq<Step>)
    requires IsRun(steps)
    ensures AlwaysSingle(steps) <==> NeverBreaks(steps)
  {
    if steps != [] {
      var before := steps[..|steps| - 1];
      AlwaysSingleIff(before);
      if NeverBreaks(before) {
        StatusIsLastEntry(before);
        StepKeepsSingleIff(Exec(before), steps[|steps| - 1]);
      }
    }
  }

  // ---- How the service can come to create a second one -------------------------------------------------

  /** Step `n` reopens an incident of the source and component that `p` looked for. */
  predicate ReopensFor(steps: seq<Step>, n: nat, p: Pending) {
    n < |steps| && steps[n].Update?
    && Reopens(Exec(steps[..n]).rows, steps[n].id, steps[n].status)
    && IsFor(Exec(steps[..n]).rows[Find(Exec(steps[..n]).rows, steps[n].id)], p)
  }

  predicate PendingAt(steps: seq<Step>, m: nat, p: Pending) {
    m <= |steps| ==> Exec(steps[..m]).pending == Some(p)
  }

  /** The lookup is pending from before step `n` to the end. */
  ghost predicate PendingSince(steps: seq<Step>, n: nat, p: Pending) {
    forall m: nat {:trigger PendingAt(steps, m, p)} :: n <= m ==> PendingAt(steps, m, p)
  }

  predicate IsFor(i: Incident, p: Pending) {
    i.source == p.source && i.component == p.component
  }

  lemma NoneOpenAfterUpdateIff(
    rows: seq<Incident>, p: Pending, id: string, status: Status, note: string, now: int)
    requires NoneOpen(rows, p.source, p.component)
    ensures NoneOpen(SetStatus(rows, id, status, note, now), p.source, p.component)
       <==> !(Reopens(rows, id, status) && IsFor(rows[Find(rows, id)], p))
  {
    var after := SetStatus(rows, id, status, note, now);
    if Reopens(rows, id, status) && IsFor(rows[Find(rows, id)], p) {
      assert IsOpenFor(after[Find(rows, id)], p.source, p.component);
    }
  }

  lemma StillPending(steps: seq<Step>, n: nat, p: Pending)
    requires steps != [] && PendingSince(steps[..|steps| - 1], n, p) && Exec(steps).pending == Some(p)
    ensures PendingSince(steps, n, p)
  {
    var before := steps[..|steps| - 1];
    forall m: nat | n <= m ensures PendingAt(steps, m, p) {
      if m <= |before| {
        assert PendingAt(before, m, p) && steps[..m] == before[..m];
      } else if m == |steps| {
        assert steps[..m] == steps;
      }
    }
  }

  /** What the service found missing is no longer missing only if an operator reopened it since the lookup. */
  lemma {:induction false} FoundOpenSince(steps: seq<Step>, p: Pending) returns (n: nat)
    requires IsRun(steps) && Exec(steps).pending == Some(p) && p.found == None
    requires !NoneOpen(Exec(steps).rows, p.source, p.component)
    ensures ReopensFor(steps, n, p) && PendingSince(steps, n, p)
  {
    var before, last := steps[..|steps| - 1], steps[|steps| - 1];
    var s := Exec(before);
    assert last.Update? && s.pending == Some(p);
    if NoneOpen(s.rows, p.source, p.component) {
      n := |before|;
      NoneOpenAfterUpdateIff(s.rows, p, last.id, last.status, last.note, last.now);
      forall m: nat | n <= m ensures PendingAt(before, m, p) {
        assert before[..|before|] == before;
      }
    } else {
      n := FoundOpenSince(before, p);
      assert steps[..n] == before[..n] && steps[n] == before[n];
    }
    StillPending(steps, n, p);
  }

  /** The service creates a second open incident only after an operator reopened one of the source and component it
      had looked for, between its lookup and its write. */
  lemma CreatesTwinOnlyIfReopened(steps: seq<Step>, step: Step) returns (n: nat)
    requires IsRun(steps) && CreatesTwin(Exec(steps), step)
    ensures ReopensFor(steps, n, Exec(steps).pending.value) && PendingSince(steps, n, Exec(steps).pending.value)
    ensures var p, rows := Exec(steps).pending.value, Exec(steps[..n]).rows;
            && steps[n].Update? && steps[n].status != Closed
            && exists i :: i in rows && i.id == steps[n].id && i.status == Closed
                           && i.source == p.source && i.component == p.component
  {
    n := FoundOpenSince(steps, Exec(steps).pending.value);
    var rows := Exec(steps[..n]).rows;
    assert rows[Find(rows, steps[n].id)] in rows;
  }

  /** No update of the run reopens a closed incident. */
  predicate NeverReopens(steps: seq<Step>) {
    forall n {:trigger steps[n]} :: 0 <= n < |steps| && steps[n].Update? ==>
      !Reopens(Exec(steps[..n]).rows, steps[n].id, steps[n].status)
  }

  lemma NeverReopensBefore(steps: seq<Step>)
    requires NeverReopens(steps) && steps != []
    ensures NeverReopens(steps[..|steps| - 1])
  {
    var before := steps[..|steps| - 1];
    forall n | 0 <= n < |before| && before[n].Update?
      ensures !Reopens(Exec(before[..n]).rows, before[n].id, before[n].status)
    {
      assert steps[n] == before[n] && steps[..n] == before[..n];
    }
  }

  /** A run without reopening keeps at most one open incident per source and component at every moment. */
  lemma {:induction false} OneOpenIncident(steps: seq<Step>)
    requires IsRun(steps) && NeverReopens(steps)
    ensures NeverBreaks(steps) && AlwaysSingle(steps) && SingleOpen(Exec(steps).rows)
    ensures var rows := Exec(steps).rows;
            forall i, j :: 0 <= i < j < |rows| ==>
              || rows[i].source != rows[j].source || rows[i].component != rows[j].component
              || rows[i].status == Closed || rows[j].status == Closed
  {
    if steps != [] {
      var before, last := steps[..|steps| - 1], steps[|steps| - 1];
      NeverReopensBefore(steps);
      OneOpenIncident(before);
      assert steps[|before|] == last;
      if CreatesTwin(Exec(before), last) {
        var n := CreatesTwinOnlyIfReopened(before, last);
      }
    }
    AlwaysSingleIff(steps);
  }

  lemma Then(steps: seq<Step>, step: Step, before: State, after: State)
    requires IsRun(steps) && Exec(steps) == before && Enabled(before, step) && after == Apply(before, step)
    ensures IsRun(steps + [step]) && Exec(steps + [step]) == after
  {
    ExecSnoc(steps, step);
  }

  lemma LookedRun(before: seq<Step>, rows: seq<Incident>, p: Pending) returns (steps: seq<Step>)
    requires IsRun(before) && Exec(before) == State(rows, None)
    requires NoneOpen(rows, p.source, p.component) && p.found == None
    ensures IsRun(steps) && Exec(steps) == State(rows, Some(p))
  {
    Then(before, Look(p.source, p.component, None), State(rows, None), State(rows, Some(p)));
    steps := before + [Look(p.source, p.component, None)];
  }

  lemma ClosedRun(before: seq<Step>, i: Incident, p: Pending) returns (steps: seq<Step>, closed: Incident)
    requires IsRun(before) && Exec(before) == State([], Some(p)) && p.found == None
    requires i == Created(i.id, p.source, p.component, i.risk, i.updatedAt) && 0 <= i.risk <= 100
    ensures IsRun(steps) && Exec(steps) == State([closed], None)
    ensures closed.id == i.id && closed.status == Closed && IsFor(closed, p)
  {
    assert [] + [i] == [i];
    Then(before, Write(i.id, i.risk, i.updatedAt), State([], Some(p)), State([i], None));
    steps := before + [Write(i.id, i.risk, i.updatedAt)];
    closed := Appended(i, Entry(0, Closed, "", None));
    assert [i][0 := closed] == [closed];
    Then(steps, Update(i.id, Closed, "", 0), State([i], None), State([closed], None));
    steps := steps + [Update(i.id, Closed, "", 0)];
  }

  /** A run that creates an incident, closes it, and looks for an open one again: it finds none. */
  lemma ClosedAndLookedFor(id: string, p: Pending) returns (steps: seq<Step>, closed: Incident)
    requires p.found == None
    ensures IsRun(steps) && Exec(steps) == State([closed], Some(p))
    ensures closed.id == id && closed.status == Closed && IsFor(closed, p)
  {
    steps := LookedRun([], [], p);
    steps, closed := ClosedRun(steps, Created(id, p.source, p.component, 70, 0), p);
    steps := LookedRun(steps, [closed], p);
  }

  /** The service creates the second incident and the operator reopens the first, in either order. */
  lemma BothOrders(before: seq<Step>, closed: Incident, id: string, p: Pending, createFirst: bool)
    returns (steps: seq<Step>, s: State, last: Step)
    requires IsRun(before) && Exec(before) == State([closed], Some(p)) && p.found == None
    requires closed.id != id && closed.status == Closed && IsFor(closed, p)
    ensures IsRun(steps) && Exec(steps) == s && Enabled(s, last) && SingleOpen(s.rows)
    ensures if createFirst then ReopensTwin(s, last) else CreatesTwin(s, last)
  {
    var second := Created(id, p.source, p.component, 70, 0);
    var reopened := Appended(closed, Entry(0, New, "", None));
    if createFirst {
      s, last := State([closed] + [second], None), Update(closed.id, New, "", 0);
      Then(before, Write(id, 70, 0), State([closed], Some(p)), s);
      steps := before + [Write(id, 70, 0)];
      assert s.rows[0] == closed && s.rows[1] == second && Find(s.rows, closed.id) == 0;
    } else {
      s, last := State([closed][0 := reopened], Some(p)), Write(id, 70, 0);
      Then(before, Update(closed.id, New, "", 0), State([closed], Some(p)), s);
      steps := before + [Update(closed.id, New, "", 0)];
      assert IsOpenFor(s.rows[0], p.source, p.component);
    }
  }

  /** Reopening breaks it, whether the new incident is created before or after. */
  lemma ReopeningBreaksIt(source: string, component: string, first: string, second: string, createFirst: bool)
    returns (steps: seq<Step>, last: Step)
    requires first != second
    ensures IsRun(steps + [last]) && SingleOpen(Exec(steps).rows) && !SingleOpen(Exec(steps + [last]).rows)
    ensures if createFirst then ReopensTwin(Exec(steps), last) else CreatesTwin(Exec(steps), last)
  {
    var p := Pending(source, component, None);
    var before, closed := ClosedAndLookedFor(first, p);
    var s;
    steps, s, last := BothOrders(before, closed, second, p, createFirst);
    StatusIsLastEntry(steps);
    StepKeepsSingleIff(s, last);
    ExecSnoc(steps, last);
  }

  /** The part of the service that reports incidents. Operators may update statuses between its store calls. */
  class IncidentService {
    const store: IncidentStore
    ghost var pending: Option<Pending>
    ghost var steps: seq<Step>

    ghost predicate Valid() reads this, store {
      IsRun(steps) && Exec(steps) == State(store.rows, pending)
    }

    constructor ()
      ensures Valid() && pending == None && steps == [] && fresh(store)
    {
      store := new IncidentStore();
      pending := None;
      steps := [];
    }

    method OperatorUpdate(id: string, status: Option<Status>, note: string, now: int)
      requires Valid()
      modifies this`steps, store
      ensures Valid()
      ensures steps == if status == None then old(steps)
                       else old(steps) + [Update(id, status.value, Note(note), now)]
    {
      if status.Some? {
        ExecSnoc(steps, Update(id, status.value, Note(note), now));
        steps := steps + [Update(id, status.value, Note(note), now)];
      }
      var known := store.UpdateIncidentStatus(id, status, note, now);
    }

    /** Any number of operator updates. */
    method OperatorsAct()
      requires Valid()
      modifies this`steps, store
      ensures Valid() && old(steps) <= steps
    {
      var n: nat :| 0 <= n;
      for i := 0 to n
        invariant Valid() && old(steps) <= steps
      {
        var id: string, status: Option<Status>, note: string, now: int := *, *, *, *;
        OperatorUpdate(id, status, note, now);
      }
    }

    /** The service's lookup. */
    method LookUp(source: string, component: string) returns (existing: Option<string>)
      requires Valid() && pending == None
      modifies this
      ensures Valid() && pending == Some(Pending(source, component, existing))
      ensures steps == old(steps) + [Look(source, component, existing)]
    {
      existing := store.OpenIncident(source, component);
      ExecSnoc(steps, Look(source, component, existing));
      steps, pending := steps + [Look(source, component, existing)], Some(Pending(source, component, existing));
    }

    /** The service's write. */
    method WriteDown(source: string, component: string, existing: Option<string>, score: int, id: string, now: int)
      requires Valid() && pending == Some(Pending(source, component, existing))
      modifies this, store
      ensures Valid() && pending == None && steps == old(steps) + [Write(id, score, now)]
    {
      ExecSnoc(steps, Write(id, score, now));
      steps, pending := steps + [Write(id, score, now)], None;
      match existing {
        case Some(found) => var known := store.RecordIncidentRisk(found, score, now);
        case None => var raised := store.CreateIncident(id, source, component, score, now);
      }
    }

    /** A risky or severe event updates the open incident of its source and component, or creates one. */
    method Report(source: string, component: string, score: int, severe: bool, id: string, now: int)
      requires Valid() && pending == None
      modifies this, store
      ensures Valid() && pending == None && old(steps) <= steps
      ensures score < 70 && !severe ==> steps == old(steps)
      ensures score >= 70 || severe ==> steps != old(steps) && steps[|steps| - 1] == Write(id, score, now)
    {
      if score < 70 && !severe {
        return;
      }
      var existing := LookUp(source, component);
      OperatorsAct();
      WriteDown(source, component, existing, score, id, now);
    }

    /** A restart between the lookup and the write forgets the lookup. */
    method Restart()
      requires Valid()
      modifies this
      ensures Valid() && pending == None && steps == old(steps) + [Crash]
    {
      ExecSnoc(steps, Crash);
      steps, pending := steps + [Crash], None;
    }

    /** What every run of the service keeps. */
    lemma IncidentsAreConsistent()
      requires Valid() && NeverReopens(steps)
      ensures SingleOpen(store.rows) && AllCurrent(store.rows)
    {
      OneOpenIncident(steps);
      StatusIsLastEntry(steps);
    }
  }
}
