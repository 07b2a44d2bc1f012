/** Steps: creation with defaults, merge update, delete, the status cycle,
    assignee and file lists, and the "my steps" and "overdue" queries. */
module Steps {

  import opened Records
  import opened Seqs
  import opened Storage
  import UI
  import Resources

  const STEP_NOT_FOUND := "Step not found"

  /** The fields a caller may pass to `createStep_`; `projectId` and `phase`
      are copied unchecked, the others default when absent or empty. */
  datatype StepData = StepData(
    projectId: Id,
    phase: string,
    name: Option<string>,
    dueDate: Option<int>,
    assigneeIds: Option<seq<Id>>,
    status: Option<string>,
    notes: Option<string>,
    linkedCalendarEventId: Option<Id>,
    linkedDriveFileIds: Option<seq<Id>>)

  /** The step `createStep_` builds from `data` under a new id at time `clock`. */
  function NewStep(id: Id, data: StepData, clock: int): Step
  {
    Step(id, data.projectId, data.phase, OrDefault(data.name, "New Step"), data.dueDate,
         OrElse(data.assigneeIds, []), OrDefault(data.status, "Open"), OrDefault(data.notes, ""),
         OrNull(data.linkedCalendarEventId), OrElse(data.linkedDriveFileIds, []), clock, clock)
  }

  /** With nothing but a project and a phase given, a step is an unnamed,
      unassigned, undated Open step. */
  lemma NewStepDefaults(id: Id, projectId: Id, phase: string, clock: int)
    ensures NewStep(id, StepData(projectId, phase, None, None, None, None, None, None, None), clock)
         == Step(id, projectId, phase, "New Step", None, [], "Open", "", None, [], clock, clock)
  {
  }

  /** `createStep_`: a fresh id, defaults, saved. */
  method CreateStep(st: Store, data: StepData, clock: int) returns (step: Step)
    requires st.Valid()
    modifies st`steps
    ensures st.Valid()
    ensures step.id !in old(st.Ids())
    ensures step == NewStep(step.id, data, clock)
    ensures st.steps == old(st.steps).Put(step.id, step)
  {
    step := NewStep(st.NewId(), data, clock);
    st.steps := st.steps.Put(step.id, step);
  }

  /** The fields a caller may pass to `updateStep_`; `None` leaves a field
      alone, and nullable fields can be set to null. */
  datatype StepPatch = StepPatch(
    projectId: Option<Id>,
    phase: Option<string>,
    name: Option<string>,
    dueDate: Option<Option<int>>,
    assigneeIds: Option<seq<Id>>,
    status: Option<string>,
    notes: Option<string>,
    linkedCalendarEventId: Option<Option<Id>>,
    linkedDriveFileIds: Option<seq<Id>>,
    createdAt: Option<int>)

  const NO_CHANGE := StepPatch(None, None, None, None, None, None, None, None, None, None)

  /** The object-spread merge of a patch into a step: the patch's fields win,
      the id is kept and the update time is refreshed. */
  function ApplyPatch(s: Step, p: StepPatch, id: Id, clock: int): (r: Step)
    ensures r.id == id && r.updatedAt == clock
    ensures Takes(p.projectId, s.projectId, r.projectId) && Takes(p.phase, s.phase, r.phase)
    ensures Takes(p.name, s.name, r.name) && Takes(p.dueDate, s.dueDate, r.dueDate)
    ensures Takes(p.assigneeIds, s.assigneeIds, r.assigneeIds) && Takes(p.status, s.status, r.status)
    ensures Takes(p.notes, s.notes, r.notes)
    ensures Takes(p.linkedCalendarEventId, s.linkedCalendarEventId, r.linkedCalendarEventId)
    ensures Takes(p.linkedDriveFileIds, s.linkedDriveFileIds, r.linkedDriveFileIds)
    ensures Takes(p.createdAt, s.createdAt, r.createdAt)
  {
    Step(id, OrElse(p.projectId, s.projectId), OrElse(p.phase, s.phase), OrElse(p.name, s.name),
         OrElse(p.dueDate, s.dueDate), OrElse(p.assigneeIds, s.assigneeIds), OrElse(p.status, s.status),
         OrElse(p.notes, s.notes), OrElse(p.linkedCalendarEventId, s.linkedCalendarEventId),
         OrElse(p.linkedDriveFileIds, s.linkedDriveFileIds), OrElse(p.createdAt, s.createdAt), clock)
  }

  /** `p` then `q` as one patch: `q`'s fields win. */
  function Then(p: StepPatch, q: StepPatch): StepPatch
  {
    StepPatch(
      if q.projectId.Some? then q.projectId else p.projectId,
      if q.phase.Some? then q.phase else p.phase,
      if q.name.Some? then q.name else p.name,
      if q.dueDate.Some? then q.dueDate else p.dueDate,
      if q.assigneeIds.Some? then q.assigneeIds else p.assigneeIds,
      if q.status.Some? then q.status else p.status,
      if q.notes.Some? then q.notes else p.notes,
      if q.linkedCalendarEventId.Some? then q.linkedCalendarEventId else p.linkedCalendarEventId,
      if q.linkedDriveFileIds.Some? then q.linkedDriveFileIds else p.linkedDriveFileIds,
      if q.createdAt.Some? then q.createdAt else p.createdAt)
  }

  /** An empty patch on a stored step only refreshes `updatedAt`. */
  lemma ApplyNoChange(s: Step, clock: int)
    ensures ApplyPatch(s, NO_CHANGE, s.id, clock) == s.(updatedAt := clock)
  {
  }

  /** Two merges in a row are the merge of the combined patch. */
  lemma ApplyPatchThen(s: Step, p: StepPatch, q: StepPatch, id: Id, c1: int, c2: int)
    ensures ApplyPatch(ApplyPatch(s, p, id, c1), q, id, c2) == ApplyPatch(s, Then(p, q), id, c2)
  {
  }

  /** `updateStep_`: fails for an unknown id; otherwise saves the merged step
      and leaves every other step as it was. */
  method UpdateStep(st: Store, stepId: Id, patch: StepPatch, clock: int) returns (r: Result<Step>)
    requires st.Valid()
    modifies st`steps
    ensures st.Valid()
    ensures stepId !in old(st.steps.rows) ==> r == Failure(STEP_NOT_FOUND) && st.steps == old(st.steps)
    ensures stepId in old(st.steps.rows) ==>
              && r == Success(ApplyPatch(old(st.steps.rows[stepId]), patch, stepId, clock))
              && st.steps == old(st.steps).Put(stepId, r.value)
  {
    if stepId !in st.steps.rows {
      return Failure(STEP_NOT_FOUND);
    }
    var updated := ApplyPatch(st.steps.rows[stepId], patch, stepId, clock);
    st.steps := st.steps.Put(stepId, updated);
    r := Success(updated);
  }

  /** `deleteStep_`: nothing for an unknown id; otherwise the step is removed
      and its linked calendar event, if any, is the one whose deletion is
      attempted (best effort, not part of the store). */
  method DeleteStep(st: Store, stepId: Id) returns (eventToDelete: Option<Id>)
    requires st.Valid()
    modifies st`steps
    ensures st.Valid()
    ensures st.steps == old(st.steps).Remove(stepId)
    ensures stepId !in old(st.steps.rows) ==> eventToDelete == None
    ensures stepId in old(st.steps.rows) ==> eventToDelete == OrNull(old(st.steps.rows[stepId]).linkedCalendarEventId)
  {
    if stepId !in st.steps.rows {
      return None;
    }
    eventToDelete := OrNull(st.steps.rows[stepId].linkedCalendarEventId);
    st.steps := st.steps.Remove(stepId);
  }

  /** The status after `status` in the cycle of `UI.STATUSES`; every value
      that is not one of its first two entries starts the cycle again. */
  function NextStatus(status: string): string
  {
    var i := IndexOf(UI.STATUSES, status);
    if i + 1 < |UI.STATUSES| then UI.STATUSES[i + 1] else UI.STATUSES[0]
  }

  /** Open goes to In Progress, In Progress to Done, anything else (Done
      included) to Open; three toggles bring a status of the table back. */
  lemma {:induction false} NextStatusCycle()
    ensures NextStatus("Open") == "In Progress" && NextStatus("In Progress") == "Done"
    ensures forall s :: s != "Open" && s != "In Progress" ==> NextStatus(s) == "Open"
    ensures forall s :: s in UI.STATUSES ==> NextStatus(NextStatus(NextStatus(s))) == s
    ensures forall s :: NextStatus(s) in UI.STATUSES
  {
    assert UI.STATUSES[0] == "Open" && UI.STATUSES[1] == "In Progress" && UI.STATUSES[2] == "Done";
    assert IndexOf(UI.STATUSES, "Open") == 0;
    assert IndexOf(UI.STATUSES, "In Progress") == 1;
    forall s | s != "Open" && s != "In Progress"
      ensures NextStatus(s) == "Open"
    {
      assert IndexOf(UI.STATUSES, s) >= 2;
    }
  }

  /** `toggleStepStatus_`: fails for an unknown id; otherwise only the status
      (and `updatedAt`) change, to the next status of the cycle. */
  method ToggleStepStatus(st: Store, stepId: Id, clock: int) returns (r: Result<Step>)
    requires st.Valid()
    modifies st`steps
    ensures st.Valid()
    ensures stepId !in old(st.steps.rows) ==> r == Failure(STEP_NOT_FOUND) && st.steps == old(st.steps)
    ensures stepId in old(st.steps.rows) ==>
              && r == Success(old(st.steps.rows[stepId]).(status := NextStatus(old(st.steps.rows[stepId]).status), updatedAt := clock))
              && st.steps == old(st.steps).Put(stepId, r.value)
  {
    if stepId !in st.steps.rows {
      return Failure(STEP_NOT_FOUND);
    }
    var step := st.steps.rows[stepId];
    var newStatus := "In Progress";
    if step.status == "Open" {
      newStatus := "In Progress";
    } else if step.status == "In Progress" {
      newStatus := "Done";
    } else {
      newStatus := "Open";
    }
    NextStatusCycle();
    r := UpdateStep(st, stepId, NO_CHANGE.(status := Some(newStatus)), clock);
  }

  /** `assignPeopleToStep_`: the list is replaced as given (no duplicate removal). */
  method AssignPeopleToStep(st: Store, stepId: Id, personIds: seq<Id>, clock: int) returns (r: Result<Step>)
    requires st.Valid()
    modifies st`steps
    ensures st.Valid()
    ensures stepId !in old(st.steps.rows) ==> r == Failure(STEP_NOT_FOUND) && st.steps == old(st.steps)
    ensures stepId in old(st.steps.rows) ==>
              && r == Success(old(st.steps.rows[stepId]).(assigneeIds := personIds, updatedAt := clock))
              && st.steps == old(st.steps).Put(stepId, r.value)
  {
    r := UpdateStep(st, stepId, NO_CHANGE.(assigneeIds := Some(personIds)), clock);
  }

  /** `addAssigneeToStep_`: the person is appended unless already assigned. */
  method AddAssigneeToStep(st: Store, stepId: Id, personId: Id, clock: int) returns (r: Result<Step>)
    requires st.Valid()
    modifies st`steps
    ensures st.Valid()
    ensures stepId !in old(st.steps.rows) ==> r == Failure(STEP_NOT_FOUND) && st.steps == old(st.steps)
    ensures stepId in old(st.steps.rows) ==>
              && r == Success(old(st.steps.rows[stepId]).(assigneeIds := AddIfAbsent(old(st.steps.rows[stepId]).assigneeIds, personId), updatedAt := clock))
              && personId in r.value.assigneeIds
              && st.steps == old(st.steps).Put(stepId, r.value)
  {
    if stepId !in st.steps.rows {
      return Failure(STEP_NOT_FOUND);
    }
    var assigneeIds := st.steps.rows[stepId].assigneeIds;
    if personId !in assigneeIds {
      assigneeIds := assigneeIds + [personId];
    }
    r := UpdateStep(st, stepId, NO_CHANGE.(assigneeIds := Some(assigneeIds)), clock);
  }

  /** `removeAssigneeFromStep_`: every occurrence of the person is filtered out. */
  method RemoveAssigneeFromStep(st: Store, stepId: Id, personId: Id, clock: int) returns (r: Result<Step>)
    requires st.Valid()
    modifies st`steps
    ensures st.Valid()
    ensures stepId !in old(st.steps.rows) ==> r == Failure(STEP_NOT_FOUND) && st.steps == old(st.steps)
    ensures stepId in old(st.steps.rows) ==>
              && r == Success(old(st.steps.rows[stepId]).(assigneeIds := Without(old(st.steps.rows[stepId]).assigneeIds, personId), updatedAt := clock))
              && personId !in r.value.assigneeIds
              && st.steps == old(st.steps).Put(stepId, r.value)
  {
    if stepId !in st.steps.rows {
      return Failure(STEP_NOT_FOUND);
    }
    var assigneeIds := Without(st.steps.rows[stepId].assigneeIds, personId);
    r := UpdateStep(st, stepId, NO_CHANGE.(assigneeIds := Some(assigneeIds)), clock);
  }

  /** `setStepDueDate_`: the due date is overwritten, null included. */
  method SetStepDueDate(st: Store, stepId: Id, dueDate: Option<int>, clock: int) returns (r: Result<Step>)
    requires st.Valid()
    modifies st`steps
    ensures st.Valid()
    ensures stepId !in old(st.steps.rows) ==> r == Failure(STEP_NOT_FOUND) && st.steps == old(st.steps)
    ensures stepId in old(st.steps.rows) ==>
              && r == Success(old(st.steps.rows[stepId]).(dueDate := dueDate, updatedAt := clock))
              && st.steps == old(st.steps).Put(stepId, r.value)
  {
    r := UpdateStep(st, stepId, NO_CHANGE.(dueDate := Some(dueDate)), clock);
  }

  /** `linkCalendarEvent_`: the single event reference is overwritten; a
      previous event stays in the calendar. */
  method LinkCalendarEvent(st: Store, stepId: Id, eventId: Id, clock: int) returns (r: Result<Step>)
    requires st.Valid()
    modifies st`steps
    ensures st.Valid()
    ensures stepId !in old(st.steps.rows) ==> r == Failure(STEP_NOT_FOUND) && st.steps == old(st.steps)
    ensures stepId in old(st.steps.rows) ==>
              && r == Success(old(st.steps.rows[stepId]).(linkedCalendarEventId := Some(eventId), updatedAt := clock))
              && st.steps == old(st.steps).Put(stepId, r.value)
  {
    r := UpdateStep(st, stepId, NO_CHANGE.(linkedCalendarEventId := Some(Some(eventId))), clock);
  }

  /** `linkDriveFile_`: the file is appended unless already linked. */
  method LinkDriveFile(st: Store, stepId: Id, fileId: Id, clock: int) returns (r: Result<Step>)
    requires st.Valid()
    modifies st`steps
    ensures st.Valid()
    ensures stepId !in old(st.steps.rows) ==> r == Failure(STEP_NOT_FOUND) && st.steps == old(st.steps)
    ensures stepId in old(st.steps.rows) ==>
              && r == Success(old(st.steps.rows[stepId]).(linkedDriveFileIds := AddIfAbsent(old(st.steps.rows[stepId]).linkedDriveFileIds, fileId), updatedAt := clock))
              && fileId in r.value.linkedDriveFileIds
              && st.steps == old(st.steps).Put(stepId, r.value)
  {
    if stepId !in st.steps.rows {
      return Failure(STEP_NOT_FOUND);
    }
    var fileIds := st.steps.rows[stepId].linkedDriveFileIds;
    if fileId !in fileIds {
      fileIds := fileIds + [fileId];
    }
    r := UpdateStep(st, stepId, NO_CHANGE.(linkedDriveFileIds := Some(fileIds)), clock);
  }

  /** The listed steps that belong to `projectId`, in listing order. */
  function OfProject(steps: seq<Step>, projectId: Id): (r: seq<Step>)
    ensures forall s :: s in r <==> s in steps && s.projectId == projectId
    ensures |r| <= |steps|
  {
    Filter(steps, (s: Step) => s.projectId == projectId)
  }

  /** Selecting a project's steps keeps their listing order. */
  lemma OfProjectOrder(a: seq<Step>, b: seq<Step>, projectId: Id)
    ensures OfProject(a + b, projectId) == OfProject(a, projectId) + OfProject(b, projectId)
  {
    FilterConcat(a, b, (s: Step) => s.projectId == projectId);
  }

  /** The steps listing `personId` among their assignees. */
  function AssignedTo(steps: seq<Step>, personId: Id): (r: seq<Step>)
    ensures forall s :: s in r <==> s in steps && personId in s.assigneeIds
    ensures |r| <= |steps|
  {
    Filter(steps, (s: Step) => personId in s.assigneeIds)
  }

  /** The steps of one project when a non-empty project id is given, all steps otherwise. */
  function InScope(steps: seq<Step>, scope: Option<Id>): (r: seq<Step>)
    ensures forall s :: s in r <==> s in steps && (Present(scope) ==> s.projectId == scope.value)
  {
    if Present(scope) then OfProject(steps, scope.value) else steps
  }

  /** Due dates in the order the step lists intend: dated ascending, then undated. */
  predicate DueLe(a: Option<int>, b: Option<int>)
  {
    match a
    case None => b.None?
    case Some(x) => b.None? || x <= b.value
  }

  predicate DueSorted(s: seq<Step>)
  {
    forall i, j :: 0 <= i < j < |s| ==> DueLe(s[i].dueDate, s[j].dueDate)
  }

  /** The comparator of `getMySteps_` as written: it answers 1 whenever the
      first step has no due date, even when the second has none either. */
  function CompareAsWritten(a: Step, b: Step): int
  {
    if a.dueDate.None? then 1
    else if b.dueDate.None? then -1
    else a.dueDate.value - b.dueDate.value
  }

  /** Two undated steps each compare greater than the other. */
  lemma CompareAsWrittenInconsistent(a: Step, b: Step)
    requires a.dueDate.None? && b.dueDate.None?
    ensures CompareAsWritten(a, b) > 0 && CompareAsWritten(b, a) > 0
  {
  }

  /** The comparator as intended: 0 when neither step has a due date. */
  function CompareByDue(a: Step, b: Step): (c: int)
    ensures c <= 0 <==> DueLe(a.dueDate, b.dueDate)
    ensures a.dueDate.Some? && b.dueDate.None? ==> c < 0
    ensures a.dueDate.None? && b.dueDate.Some? ==> c > 0
  {
    match (a.dueDate, b.dueDate)
    case (None, None) => 0
    case (None, Some(_)) => 1
    case (Some(_), None) => -1
    case (Some(x), Some(y)) => x - y
  }

  /** The intended comparator is antisymmetric, agrees with the as-written one
      whenever a due date is involved, and orders by a total preorder. */
  lemma CompareByDueConsistent(a: Step, b: Step, c: Step)
    ensures CompareByDue(a, b) > 0 <==> CompareByDue(b, a) < 0
    ensures a.dueDate.Some? || b.dueDate.Some? ==> CompareByDue(a, b) == CompareAsWritten(a, b)
    ensures DueLe(a.dueDate, b.dueDate) || DueLe(b.dueDate, a.dueDate)
    ensures DueLe(a.dueDate, b.dueDate) && DueLe(b.dueDate, c.dueDate) ==> DueLe(a.dueDate, c.dueDate)
  {
  }

  /** Exchanging two elements of a sequence keeps its multiset. */
  lemma SwapKeepsMultiset<T>(s: seq<T>, j: nat)
    requires 0 < j < |s|
    ensures multiset(s[j - 1 := s[j]][j := s[j - 1]]) == multiset(s)
  {
    var t := s[j - 1 := s[j]][j := s[j - 1]];
    assert s == s[..j - 1] + [s[j - 1], s[j]] + s[j + 1..];
    assert t == s[..j - 1] + [s[j], s[j - 1]] + s[j + 1..];
  }

  /** Mid-insertion: apart from the step at `j`, `s[..i + 1]` is in due-date
      order, and the step at `j` goes before everything after it. */
  predicate Inserting(s: seq<Step>, j: nat, i: nat)
  {
    && j <= i < |s|
    && (forall p, q :: 0 <= p < q <= i && p != j && q != j ==> DueLe(s[p].dueDate, s[q].dueDate))
    && (forall q :: j < q <= i ==> DueLe(s[j].dueDate, s[q].dueDate))
  }

  /** Moving the step at `j` one place down, past a step that must follow it, keeps `Inserting`. */
  lemma InsertingSwap(s: seq<Step>, j: nat, i: nat)
    requires Inserting(s, j, i) && 0 < j && CompareByDue(s[j - 1], s[j]) > 0
    ensures Inserting(s[j - 1 := s[j]][j := s[j - 1]], j - 1, i)
  {
    var t := s[j - 1 := s[j]][j := s[j - 1]];
    forall q | j - 1 < q <= i
      ensures DueLe(t[j - 1].dueDate, t[q].dueDate)
    {
      if q > j {
        CompareByDueConsistent(s[j], s[j - 1], s[q]);
      }
    }
  }

  /** Insertion stops once the step before `j` may precede it: the prefix is then sorted. */
  lemma InsertingDone(s: seq<Step>, j: nat, i: nat)
    requires Inserting(s, j, i)
    requires j == 0 || CompareByDue(s[j - 1], s[j]) <= 0
    ensures DueSorted(s[..i + 1])
  {
    forall p, q | 0 <= p < q <= i
      ensures DueLe(s[p].dueDate, s[q].dueDate)
    {
      if q == j && p < j - 1 {
        CompareByDueConsistent(s[p], s[j - 1], s[j]);
      } else if p == j - 1 && q > j {
        CompareByDueConsistent(s[p], s[j], s[q]);
      } else if p < j - 1 && q > j {
      }
    }
  }

  /** One insertion step of `SortByDue`: moves `a[i]` down into the sorted prefix `a[..i]`. */
  method InsertDown(a: array<Step>, i: nat)
    requires i < a.Length
    requires DueSorted(a[..i])
    modifies a
    ensures DueSorted(a[..i + 1])
    ensures multiset(a[..]) == multiset(old(a[..]))
  {
    var j: nat := i;
    assert Inserting(a[..], j, i);
    while j > 0 && CompareByDue(a[j - 1], a[j]) > 0
      invariant Inserting(a[..], j, i)
      invariant multiset(a[..]) == multiset(old(a[..]))
    {
      SwapKeepsMultiset(a[..], j);
      InsertingSwap(a[..], j, i);
      a[j - 1], a[j] := a[j], a[j - 1];
      j := j - 1;
    }
    InsertingDone(a[..], j, i);
  }

  /** The in-place sort of `getMySteps_`, by insertion with the intended
      comparator; no claim is made about the order of steps that compare equal. */
  method SortByDue(a: array<Step>)
    modifies a
    ensures DueSorted(a[..])
    ensures multiset(a[..]) == multiset(old(a[..]))
  {
    var i := 0;
    while i < a.Length
      invariant 0 <= i <= a.Length
      invariant DueSorted(a[..i])
      invariant multiset(a[..]) == multiset(old(a[..]))
    {
      InsertDown(a, i);
      i := i + 1;
    }
    assert a[..a.Length] == a[..];
  }

  /** The steps of `steps` rearranged by `SortByDue` on a fresh array. */
  method SortSteps(steps: seq<Step>) returns (r: seq<Step>)
    ensures multiset(r) == multiset(steps)
    ensures DueSorted(r)
  {
    var a := new Step[|steps|](i requires 0 <= i < |steps| => steps[i]);
    assert a[..] == steps;
    SortByDue(a);
    r := a[..];
  }

  /** The steps `getMySteps_` selects before sorting: none when no stored
      person has `email`, else the first such person's steps within `scope`. */
  function MySteps(people: seq<Person>, steps: seq<Step>, scope: Option<Id>, email: string): (r: seq<Step>)
    ensures Resources.FindByEmail(people, email).None? ==> r == []
    ensures forall s :: s in r ==> s in steps && (Present(scope) ==> s.projectId == scope.value)
    ensures forall s :: s in r ==> Resources.FindByEmail(people, email).Some? &&
                                   Resources.FindByEmail(people, email).value.id in s.assigneeIds
    ensures Resources.FindByEmail(people, email).Some? ==>
              forall s :: (s in steps && (Present(scope) ==> s.projectId == scope.value) &&
                           Resources.FindByEmail(people, email).value.id in s.assigneeIds) ==> s in r
  {
    match Resources.FindByEmail(people, email)
    case None => []
    case Some(me) => AssignedTo(InScope(steps, scope), me.id)
  }

  /** `getMySteps_`: exactly the steps `MySteps` selects, in due-date order. */
  method GetMySteps(st: Store, scope: Option<Id>, sessionEmail: string) returns (r: seq<Step>)
    requires st.Valid()
    ensures multiset(r) == multiset(MySteps(st.people.Rows(), st.steps.Rows(), scope, sessionEmail))
    ensures DueSorted(r)
  {
    var people := st.people.Rows();
    var currentUser := Resources.FindByEmail(people, sessionEmail);
    if currentUser.None? {
      return [];
    }
    var steps := InScope(st.steps.Rows(), scope);
    steps := AssignedTo(steps, currentUser.value.id);
    r := SortSteps(steps);
  }

  /** A step counts as overdue at `now`: it has a due date before `now` and is not Done. */
  predicate IsOverdue(s: Step, now: int)
  {
    s.dueDate.Some? && s.status != "Done" && s.dueDate.value < now
  }

  /** `getOverdueSteps_`: exactly the project's stored steps that are overdue at `now`. */
  function GetOverdueSteps(st: Store, projectId: Id, now: int): (r: seq<Step>)
    reads st
    requires st.Valid()
    ensures forall s :: s in r <==> && s in st.steps.rows.Values && s.projectId == projectId
                                    && s.dueDate.Some? && s.status != "Done" && s.dueDate.value < now
  {
    Filter(OfProject(st.steps.Rows(), projectId), (s: Step) => IsOverdue(s, now))
  }
}
