/** Projects: creation with defaults and seeded steps, merge update,
    cascading delete, the statistics over a project's steps, and the team. */
module Projects {

  import opened Records
  import opened Seqs
  import opened Storage
  import UI
  import Steps
  import Resources

  const PROJECT_NOT_FOUND := "Project not found"

  /** The fields a caller may pass to `createProject_`. */
  datatype ProjectData = ProjectData(
    title: Option<string>,
    status: Option<string>,
    priority: Option<string>,
    startDate: Option<int>,
    dueDate: Option<int>,
    producerId: Option<Id>,
    directorId: Option<Id>,
    lineProducerId: Option<Id>)

  /** The project `createProject_` builds from `data` under a new id at time `clock`. */
  function NewProject(id: Id, data: ProjectData, clock: int): Project
  {
    Project(id, OrDefault(data.title, "New Video Project"), OrDefault(data.status, "Open"),
            OrDefault(data.priority, "Medium"), data.startDate, data.dueDate,
            OrNull(data.producerId), OrNull(data.directorId), OrNull(data.lineProducerId), clock, clock)
  }

  /** With no data a project is an undated, unstaffed, Open, Medium "New Video Project". */
  lemma NewProjectDefaults(id: Id, clock: int)
    ensures NewProject(id, ProjectData(None, None, None, None, None, None, None, None), clock)
         == Project(id, "New Video Project", "Open", "Medium", None, None, None, None, None, clock, clock)
  {
  }

  /** One (phase, default name) pair of the seeding. */
  datatype Seed = Seed(phase: string, name: string)

  /** The pairs of one phase, in the order of its default names. The ensures
      are the element-wise facts the seeding proofs use. */
  function PhaseSeeds(phase: string): (r: seq<Seed>)
    ensures |r| == |UI.DefaultSteps(phase)|
    ensures forall k :: 0 <= k < |r| ==> r[k] == Seed(phase, UI.DefaultSteps(phase)[k])
  {
    seq(|UI.DefaultSteps(phase)|, k requires 0 <= k < |UI.DefaultSteps(phase)| => Seed(phase, UI.DefaultSteps(phase)[k]))
  }

  /** The pairs of the nested loops over `phases` and their default names. */
  function Seeds(phases: seq<string>): seq<Seed>
  {
    if phases == [] then [] else Seeds(phases[..|phases| - 1]) + PhaseSeeds(phases[|phases| - 1])
  }

  /** The data `createProject_` passes to `createStep_` for one pair. */
  function SeedData(projectId: Id, seed: Seed): Steps.StepData
  {
    Steps.StepData(projectId, seed.phase, Some(seed.name), None, None, Some("Open"), None, None, None)
  }

  /** Seeding the last phase of a prefix appends that phase's pairs. */
  lemma SeedsSnoc(phases: seq<string>, k: nat)
    requires k < |phases|
    ensures Seeds(phases[..k + 1]) == Seeds(phases[..k]) + PhaseSeeds(phases[k])
  {
    assert phases[..k + 1][..k] == phases[..k];
  }

  lemma PhaseSeedsSnoc(phase: string, j: nat)
    requires j < |UI.DefaultSteps(phase)|
    ensures PhaseSeeds(phase)[..j + 1] == PhaseSeeds(phase)[..j] + [Seed(phase, UI.DefaultSteps(phase)[j])]
  {
  }

  lemma {:induction false} SeedsLength(phases: seq<string>)
    ensures |Seeds(phases)| == UI.DefaultStepCount(phases)
  {
    if phases != [] {
      SeedsLength(phases[..|phases| - 1]);
    }
  }

  lemma {:induction false} SeedsFromTables(phases: seq<string>)
    ensures forall i :: 0 <= i < |Seeds(phases)| ==>
              Seeds(phases)[i].phase in phases && Seeds(phases)[i].name in UI.DefaultSteps(Seeds(phases)[i].phase)
  {
    if phases != [] {
      var init, last := phases[..|phases| - 1], phases[|phases| - 1];
      SeedsFromTables(init);
      var a: seq<Seed>, b: seq<Seed> := Seeds(init), PhaseSeeds(last);
      forall i | 0 <= i < |a + b|
        ensures (a + b)[i].phase in phases && (a + b)[i].name in UI.DefaultSteps((a + b)[i].phase)
      {
        if i < |a| {
          assert (a + b)[i] == a[i] && a[i].phase in init;
        } else {
          assert (a + b)[i] == b[i - |a|];
        }
      }
    }
  }

  lemma {:induction false} IndexOfPrefix(xs: seq<string>, init: seq<string>, x: string)
    requires |init| <= |xs| && init == xs[..|init|] && x in init
    ensures IndexOf(xs, x) == IndexOf(init, x) < |init|
  {
    if xs[0] != x {
      assert init[0] == xs[0];
      assert init[1..] == xs[1..][..|init| - 1];
      IndexOfPrefix(xs[1..], init[1..], x);
    }
  }

  lemma {:induction false} IndexOfLast(xs: seq<string>, init: seq<string>, x: string)
    requires |xs| == |init| + 1 && init == xs[..|init|] && x == xs[|init|] && x !in init
    ensures IndexOf(xs, x) == |init|
  {
    if init != [] {
      assert xs[0] == init[0] != x;
      assert init[1..] == xs[1..][..|init| - 1];
      IndexOfLast(xs[1..], init[1..], x);
    }
  }

  /** Over distinct phases the pairs come grouped, phase by phase, in the order of `phases`. */
  lemma {:induction false} SeedsGrouped(phases: seq<string>)
    requires NoDup(phases)
    ensures forall i, j :: 0 <= i < j < |Seeds(phases)| ==>
              IndexOf(phases, Seeds(phases)[i].phase) <= IndexOf(phases, Seeds(phases)[j].phase)
  {
    if phases != [] {
      var init, last := phases[..|phases| - 1], phases[|phases| - 1];
      assert NoDup(init);
      SeedsGrouped(init);
      SeedsFromTables(init);
      IndexOfLast(phases, init, last);
      var a: seq<Seed>, b: seq<Seed> := Seeds(init), PhaseSeeds(last);
      forall i, j | 0 <= i < j < |a + b|
        ensures IndexOf(phases, (a + b)[i].phase) <= IndexOf(phases, (a + b)[j].phase)
      {
        if j < |a| {
          IndexOfPrefix(phases, init, a[i].phase);
          IndexOfPrefix(phases, init, a[j].phase);
          assert (a + b)[i] == a[i] && (a + b)[j] == a[j];
        } else if i < |a| {
          IndexOfPrefix(phases, init, a[i].phase);
          assert (a + b)[i] == a[i] && (a + b)[j] == b[j - |a|];
        } else {
          assert (a + b)[i] == b[i - |a|] && (a + b)[j] == b[j - |a|];
        }
      }
    }
  }

  /** Over distinct phases, each with distinct default names, no pair is seeded twice. */
  lemma {:induction false} SeedsDistinct(phases: seq<string>)
    requires NoDup(phases) && forall p :: p in phases ==> NoDup(UI.DefaultSteps(p))
    ensures forall i, j :: 0 <= i < j < |Seeds(phases)| ==> Seeds(phases)[i] != Seeds(phases)[j]
  {
    if phases != [] {
      var init, last := phases[..|phases| - 1], phases[|phases| - 1];
      assert NoDup(init);
      assert last in phases && last !in init;
      SeedsDistinct(init);
      SeedsFromTables(init);
      var a: seq<Seed>, b: seq<Seed> := Seeds(init), PhaseSeeds(last);
      forall i, j | 0 <= i < j < |a + b|
        ensures (a + b)[i] != (a + b)[j]
      {
        if j < |a| {
          assert (a + b)[i] == a[i] && (a + b)[j] == a[j];
        } else if i < |a| {
          assert (a + b)[i] == a[i] && a[i].phase in init;
          assert (a + b)[j] == b[j - |a|];
        } else {
          assert (a + b)[i] == b[i - |a|] && (a + b)[j] == b[j - |a|];
        }
      }
    }
  }

  /** Every phase paired with each of its default names is seeded. */
  lemma {:induction false} SeedsCover(phases: seq<string>)
    ensures forall p, n :: p in phases && n in UI.DefaultSteps(p) ==> Seed(p, n) in Seeds(phases)
  {
    if phases != [] {
      var init := phases[..|phases| - 1];
      var last := phases[|phases| - 1];
      SeedsCover(init);
      forall p, n | p in phases && n in UI.DefaultSteps(p)
        ensures Seed(p, n) in Seeds(phases)
      {
        if p == last {
          var k :| 0 <= k < |UI.DefaultSteps(p)| && UI.DefaultSteps(p)[k] == n;
          assert PhaseSeeds(p)[k] == Seed(p, n);
        } else {
          assert p in init by {
            var i :| 0 <= i < |phases| && phases[i] == p;
            assert init[i] == p;
          }
        }
      }
    }
  }

  /** Project creation seeds exactly the 17 pairs of the tables, grouped by
      phase in the order of `UI.PHASES`, each pair once. */
  lemma SeedsTable()
    ensures |Seeds(UI.PHASES)| == 17
    ensures forall i :: 0 <= i < 17 ==>
              Seeds(UI.PHASES)[i].phase in UI.PHASES && Seeds(UI.PHASES)[i].name in UI.DefaultSteps(Seeds(UI.PHASES)[i].phase)
    ensures forall i, j :: 0 <= i < j < 17 ==>
              IndexOf(UI.PHASES, Seeds(UI.PHASES)[i].phase) <= IndexOf(UI.PHASES, Seeds(UI.PHASES)[j].phase)
    ensures forall i, j :: 0 <= i < j < 17 ==> Seeds(UI.PHASES)[i] != Seeds(UI.PHASES)[j]
    ensures forall p, n :: p in UI.PHASES && n in UI.DefaultSteps(p) ==> Seed(p, n) in Seeds(UI.PHASES)
  {
    UI.PhasesTable();
    UI.DefaultStepsTable();
    UI.SeventeenDefaultSteps();
    SeedsLength(UI.PHASES);
    SeedsFromTables(UI.PHASES);
    SeedsGrouped(UI.PHASES);
    SeedsDistinct(UI.PHASES);
    SeedsCover(UI.PHASES);
  }

  /** A seeded step is an Open step of the project with the pair's phase and name. */
  lemma SeededStepIsOpen(id: Id, projectId: Id, seed: Seed, clock: int)
    requires seed.name != ""
    ensures Steps.NewStep(id, SeedData(projectId, seed), clock)
         == Step(id, projectId, seed.phase, seed.name, None, [], "Open", "", None, [], clock, clock)
  {
  }

  /** `after` is `before` with one new step per seed appended, in seed order,
      each under an id outside `used`. */
  ghost predicate Seeded(before: Table<Step>, after: Table<Step>, projectId: Id, seeds: seq<Seed>, clock: int, used: set<Id>)
  {
    && |after.order| == |before.order| + |seeds|
    && after.order[..|before.order|] == before.order
    && (forall k :: k in before.rows ==> k in after.rows && after.rows[k] == before.rows[k])
    && (forall i :: 0 <= i < |seeds| ==> SeededAt(after, |before.order| + i, projectId, seeds[i], clock, used))
  }

  /** Position `i` of `t`'s order holds the step seeded from `seed`, under an id outside `used`. */
  ghost predicate SeededAt(t: Table<Step>, i: int, projectId: Id, seed: Seed, clock: int, used: set<Id>)
  {
    && 0 <= i < |t.order| && t.order[i] !in used && t.order[i] in t.rows
    && t.rows[t.order[i]] == Steps.NewStep(t.order[i], SeedData(projectId, seed), clock)
  }

  lemma SeededStep(before: Table<Step>, mid: Table<Step>, projectId: Id, seeds: seq<Seed>, clock: int,
                   used: set<Id>, seed: Seed, step: Step)
    requires mid.Valid()
    requires Seeded(before, mid, projectId, seeds, clock, used)
    requires step.id !in used && step.id !in mid.rows
    requires step == Steps.NewStep(step.id, SeedData(projectId, seed), clock)
    ensures Seeded(before, mid.Put(step.id, step), projectId, seeds + [seed], clock, used)
  {
    var after := mid.Put(step.id, step);
    assert after.order == mid.order + [step.id];
    forall i | 0 <= i < |seeds + [seed]|
      ensures SeededAt(after, |before.order| + i, projectId, (seeds + [seed])[i], clock, used)
    {
      if i < |seeds| {
        assert SeededAt(mid, |before.order| + i, projectId, seeds[i], clock, used);
        assert after.order[|before.order| + i] == mid.order[|before.order| + i] != step.id;
      }
    }
  }

  /** The callback of the outer loop of `createProject_`: one Open step per
      default name of `phase`, in order, after the steps `seeds` already seeded. */
  method SeedPhase(st: Store, projectId: Id, phase: string, clock: int,
                   ghost steps0: Table<Step>, ghost seeds: seq<Seed>, ghost used: set<Id>)
    requires st.Valid() && used <= st.Ids()
    requires Seeded(steps0, st.steps, projectId, seeds, clock, used)
    modifies st`steps
    ensures st.Valid() && used <= st.Ids()
    ensures Seeded(steps0, st.steps, projectId, seeds + PhaseSeeds(phase), clock, used)
  {
    var stepNames := UI.DefaultSteps(phase);
    assert seeds + PhaseSeeds(phase)[..0] == seeds;
    var j := 0;
    while j < |stepNames|
      invariant 0 <= j <= |stepNames|
      invariant st.Valid() && used <= st.Ids()
      invariant Seeded(steps0, st.steps, projectId, seeds + PhaseSeeds(phase)[..j], clock, used)
    {
      ghost var mid := st.steps;
      var step := Steps.CreateStep(st, Steps.StepData(projectId, phase, Some(stepNames[j]), None, None, Some("Open"), None, None, None), clock);
      SeededStep(steps0, mid, projectId, seeds + PhaseSeeds(phase)[..j], clock, used, Seed(phase, stepNames[j]), step);
      PhaseSeedsSnoc(phase, j);
      assert seeds + PhaseSeeds(phase)[..j + 1] == seeds + PhaseSeeds(phase)[..j] + [Seed(phase, stepNames[j])];
      j := j + 1;
    }
    assert PhaseSeeds(phase)[..j] == PhaseSeeds(phase);
  }

  /** The outer loop of `createProject_`: the default steps of every phase, in order. */
  method SeedSteps(st: Store, projectId: Id, clock: int, ghost used: set<Id>)
    requires st.Valid() && used <= st.Ids()
    modifies st`steps
    ensures st.Valid()
    ensures Seeded(old(st.steps), st.steps, projectId, Seeds(UI.PHASES), clock, used)
  {
    ghost var steps0 := st.steps;
    var i := 0;
    while i < |UI.PHASES|
      invariant 0 <= i <= |UI.PHASES|
      invariant st.Valid() && used <= st.Ids()
      invariant Seeded(steps0, st.steps, projectId, Seeds(UI.PHASES[..i]), clock, used)
    {
      SeedPhase(st, projectId, UI.PHASES[i], clock, steps0, Seeds(UI.PHASES[..i]), used);
      SeedsSnoc(UI.PHASES, i);
      i := i + 1;
    }
    assert UI.PHASES[..i] == UI.PHASES;
  }

  /** `createProject_`: a fresh project with defaults, saved, then one Open
      step per (phase, default name) pair, in order, appended to the steps. */
  method CreateProject(st: Store, data: ProjectData, clock: int) returns (project: Project)
    requires st.Valid()
    modifies st`projects, st`steps
    ensures st.Valid()
    ensures project.id !in old(st.Ids())
    ensures project == NewProject(project.id, data, clock)
    ensures st.projects == old(st.projects).Put(project.id, project)
    ensures Seeded(old(st.steps), st.steps, project.id, Seeds(UI.PHASES), clock, old(st.Ids()) + {project.id})
  {
    project := NewProject(st.NewId(), data, clock);
    st.projects := st.projects.Put(project.id, project);
    SeedSteps(st, project.id, clock, old(st.Ids()) + {project.id});
  }

  /** The fields a caller may pass to `updateProject_`. */
  datatype ProjectPatch = ProjectPatch(
    title: Option<string>,
    status: Option<string>,
    priority: Option<string>,
    startDate: Option<Option<int>>,
    dueDate: Option<Option<int>>,
    producerId: Option<Option<Id>>,
    directorId: Option<Option<Id>>,
    lineProducerId: Option<Option<Id>>,
    createdAt: Option<int>)

  /** The object-spread merge of a patch into a project: the patch's fields win,
      the id is kept and the update time is refreshed. */
  function ApplyPatch(p: Project, patch: ProjectPatch, id: Id, clock: int): (r: Project)
    ensures r.id == id && r.updatedAt == clock
    ensures Takes(patch.title, p.title, r.title) && Takes(patch.status, p.status, r.status)
    ensures Takes(patch.priority, p.priority, r.priority)
    ensures Takes(patch.startDate, p.startDate, r.startDate) && Takes(patch.dueDate, p.dueDate, r.dueDate)
    ensures Takes(patch.producerId, p.producerId, r.producerId)
    ensures Takes(patch.directorId, p.directorId, r.directorId)
    ensures Takes(patch.lineProducerId, p.lineProducerId, r.lineProducerId)
    ensures Takes(patch.createdAt, p.createdAt, r.createdAt)
  {
    Project(id, OrElse(patch.title, p.title), OrElse(patch.status, p.status), OrElse(patch.priority, p.priority),
            OrElse(patch.startDate, p.startDate), OrElse(patch.dueDate, p.dueDate),
            OrElse(patch.producerId, p.producerId), OrElse(patch.directorId, p.directorId),
            OrElse(patch.lineProducerId, p.lineProducerId), OrElse(patch.createdAt, p.createdAt), clock)
  }

  /** Re-applying a patch changes nothing further. */
  lemma ApplyPatchIdempotent(p: Project, patch: ProjectPatch, id: Id, clock: int)
    ensures ApplyPatch(ApplyPatch(p, patch, id, clock), patch, id, clock) == ApplyPatch(p, patch, id, clock)
  {
  }

  /** `updateProject_`: fails for an unknown id, otherwise saves the merged project. */
  method UpdateProject(st: Store, projectId: Id, patch: ProjectPatch, clock: int) returns (r: Result<Project>)
    requires st.Valid()
    modifies st`projects
    ensures st.Valid()
    ensures projectId !in old(st.projects.rows) ==> r == Failure(PROJECT_NOT_FOUND) && st.projects == old(st.projects)
    ensures projectId in old(st.projects.rows) ==>
              && r == Success(ApplyPatch(old(st.projects.rows[projectId]), patch, projectId, clock))
              && st.projects == old(st.projects).Put(projectId, r.value)
  {
    if projectId !in st.projects.rows {
      return Failure(PROJECT_NOT_FOUND);
    }
    var updated := ApplyPatch(st.projects.rows[projectId], patch, projectId, clock);
    st.projects := st.projects.Put(projectId, updated);
    r := Success(updated);
  }

  /** The listed links that belong to `projectId`. */
  function LinksOf(links: seq<Link>, projectId: Id): (r: seq<Link>)
    ensures forall l :: l in r <==> l in links && l.projectId == projectId
  {
    Filter(links, (l: Link) => l.projectId == projectId)
  }

  /** The calendar events linked from `steps`, in order. */
  function LinkedEvents(steps: seq<Step>): seq<Id>
  {
    if steps == [] then []
    else
      LinkedEvents(steps[..|steps| - 1]) +
      match OrNull(steps[|steps| - 1].linkedCalendarEventId)
      case Some(e) => [e]
      case None => []
  }

  /** The ids of `steps`. */
  function StepIds(steps: seq<Step>): set<Id>
  {
    if steps == [] then {} else StepIds(steps[..|steps| - 1]) + {steps[|steps| - 1].id}
  }

  /** The ids of `links`. */
  function LinkIds(links: seq<Link>): set<Id>
  {
    if links == [] then {} else LinkIds(links[..|links| - 1]) + {links[|links| - 1].id}
  }

  lemma {:induction false} StepIdsMembers(steps: seq<Step>)
    ensures forall k :: k in StepIds(steps) <==> exists s :: s in steps && s.id == k
  {
    if steps != [] {
      StepIdsMembers(steps[..|steps| - 1]);
      assert steps == steps[..|steps| - 1] + [steps[|steps| - 1]];
    }
  }

  lemma {:induction false} LinkIdsMembers(links: seq<Link>)
    ensures forall k :: k in LinkIds(links) <==> exists l :: l in links && l.id == k
  {
    if links != [] {
      LinkIdsMembers(links[..|links| - 1]);
      assert links == links[..|links| - 1] + [links[|links| - 1]];
    }
  }

  /** The ids of the stored steps that belong to `projectId`. */
  function OwnedSteps(t: Table<Step>, projectId: Id): set<Id>
  {
    set k | k in t.rows && t.rows[k].projectId == projectId
  }

  /** The ids of the stored links that belong to `projectId`. */
  function OwnedLinks(t: Table<Link>, projectId: Id): set<Id>
  {
    set k | k in t.rows && t.rows[k].projectId == projectId
  }

  /** The ids of a project's listed steps are the stored ids whose step names that project. */
  lemma OwnedStepIds(t: Table<Step>, projectId: Id)
    requires t.Valid() && forall k :: k in t.rows ==> t.rows[k].id == k
    ensures StepIds(Steps.OfProject(t.Rows(), projectId)) == OwnedSteps(t, projectId)
  {
    var owned := Steps.OfProject(t.Rows(), projectId);
    StepIdsMembers(owned);
    forall k | k in t.rows && t.rows[k].projectId == projectId
      ensures k in StepIds(owned)
    {
      assert t.rows[k] in t.rows.Values;
      assert t.rows[k] in owned;
    }
    forall k | k in StepIds(owned)
      ensures k in t.rows && t.rows[k].projectId == projectId
    {
      var s :| s in owned && s.id == k;
      assert s in t.rows.Values;
      var k' :| k' in t.rows && t.rows[k'] == s;
    }
  }

  /** The same for links. */
  lemma OwnedLinkIds(t: Table<Link>, projectId: Id)
    requires t.Valid() && forall k :: k in t.rows ==> t.rows[k].id == k
    ensures LinkIds(LinksOf(t.Rows(), projectId)) == OwnedLinks(t, projectId)
  {
    var owned := LinksOf(t.Rows(), projectId);
    LinkIdsMembers(owned);
    forall k | k in t.rows && t.rows[k].projectId == projectId
      ensures k in LinkIds(owned)
    {
      assert t.rows[k] in t.rows.Values;
      assert t.rows[k] in owned;
    }
    forall k | k in LinkIds(owned)
      ensures k in t.rows && t.rows[k].projectId == projectId
    {
      var l :| l in owned && l.id == k;
      assert l in t.rows.Values;
      var k' :| k' in t.rows && t.rows[k'] == l;
    }
  }

  /** The first loop of `deleteProject_`: the calendar event of each step
      that links one, in step order; each is handed to the calendar for deletion. */
  method EventsToDelete(steps: seq<Step>) returns (events: seq<Id>)
    ensures events == LinkedEvents(steps)
  {
    events := [];
    for i := 0 to |steps|
      invariant events == LinkedEvents(steps[..i])
    {
      assert steps[..i + 1][..i] == steps[..i];
      match OrNull(steps[i].linkedCalendarEventId)
      case Some(e) =>
        events := events + [e];
      case None =>
    }
    assert steps[..|steps|] == steps;
  }

  /** Deleting one more id from a table already cleared of `ids` clears it of both. */
  lemma RemoveOneMore<T(!new)>(t0: Table<T>, t: Table<T>, ids: set<Id>, id: Id)
    requires t.Valid() && t.rows == t0.rows - ids && t.order == Minus(t0.order, ids)
    ensures t.Remove(id) == Table(t0.rows - (ids + {id}), Minus(t0.order, ids + {id}))
  {
    var r := t.Remove(id);
    assert r.rows == (t0.rows - ids) - {id};
    assert r.rows == t0.rows - (ids + {id});
    WithoutMinus(t0.order, ids, id);
  }

  /** The loop deleting each listed step by id, one after the other. */
  method RemoveSteps(st: Store, steps: seq<Step>)
    requires st.Valid()
    modifies st`steps
    ensures st.Valid()
    ensures st.steps.rows == old(st.steps.rows) - StepIds(steps)
    ensures st.steps.order == Minus(old(st.steps.order), StepIds(steps))
  {
    MinusNone(st.steps.order);
    for i := 0 to |steps|
      invariant st.steps.Valid()
      invariant st.steps.rows == old(st.steps.rows) - StepIds(steps[..i])
      invariant st.steps.order == Minus(old(st.steps.order), StepIds(steps[..i]))
    {
      assert steps[..i + 1][..i] == steps[..i];
      assert StepIds(steps[..i + 1]) == StepIds(steps[..i]) + {steps[i].id};
      RemoveOneMore(old(st.steps), st.steps, StepIds(steps[..i]), steps[i].id);
      st.steps := st.steps.Remove(steps[i].id);
    }
    assert steps[..|steps|] == steps;
  }

  /** The loop deleting each listed link by id, one after the other. */
  method RemoveLinks(st: Store, links: seq<Link>)
    requires st.Valid()
    modifies st`links
    ensures st.Valid()
    ensures st.links.rows == old(st.links.rows) - LinkIds(links)
    ensures st.links.order == Minus(old(st.links.order), LinkIds(links))
  {
    MinusNone(st.links.order);
    for i := 0 to |links|
      invariant st.links.Valid()
      invariant st.links.rows == old(st.links.rows) - LinkIds(links[..i])
      invariant st.links.order == Minus(old(st.links.order), LinkIds(links[..i]))
    {
      assert links[..i + 1][..i] == links[..i];
      assert LinkIds(links[..i + 1]) == LinkIds(links[..i]) + {links[i].id};
      RemoveOneMore(old(st.links), st.links, LinkIds(links[..i]), links[i].id);
      st.links := st.links.Remove(links[i].id);
    }
    assert links[..|links|] == links;
  }

  /** `deleteProject_`: the project, then its steps, then its links are removed;
      the calendar events of its steps are the ones whose deletion is attempted,
      and how that goes does not affect the store. People are untouched. */
  method DeleteProject(st: Store, projectId: Id) returns (eventsToDelete: seq<Id>)
    requires st.Valid()
    modifies st`projects, st`steps, st`links
    ensures st.Valid()
    ensures st.projects == old(st.projects).Remove(projectId)
    ensures forall k :: k in st.steps.rows <==> k in old(st.steps.rows) && old(st.steps.rows)[k].projectId != projectId
    ensures forall k :: k in st.steps.rows ==> st.steps.rows[k] == old(st.steps.rows)[k]
    ensures forall k :: k in st.links.rows <==> k in old(st.links.rows) && old(st.links.rows)[k].projectId != projectId
    ensures forall k :: k in st.links.rows ==> st.links.rows[k] == old(st.links.rows)[k]
    ensures st.steps.order == Minus(old(st.steps.order), OwnedSteps(old(st.steps), projectId))
    ensures st.links.order == Minus(old(st.links.order), OwnedLinks(old(st.links), projectId))
    ensures st.people == old(st.people)
    ensures eventsToDelete == LinkedEvents(Steps.OfProject(old(st.steps.Rows()), projectId))
  {
    var steps := Steps.OfProject(st.steps.Rows(), projectId);
    eventsToDelete := EventsToDelete(steps);
    var links := LinksOf(st.links.Rows(), projectId);
    OwnedStepIds(st.steps, projectId);
    OwnedLinkIds(st.links, projectId);
    st.projects := st.projects.Remove(projectId);
    RemoveSteps(st, steps);
    RemoveLinks(st, links);
  }

  /** Per-phase counters. */
  datatype PhaseCount = PhaseCount(total: nat, done: nat)

  datatype Stats = Stats(
    total: nat,
    open: nat,
    inProgress: nat,
    done: nat,
    byPhase: map<string, PhaseCount>,
    percentComplete: nat)

  function CountStatus(steps: seq<Step>, status: string): nat
  {
    if steps == [] then 0
    else CountStatus(steps[..|steps| - 1], status) + if steps[|steps| - 1].status == status then 1 else 0
  }

  function CountPhase(steps: seq<Step>, phase: string): nat
  {
    if steps == [] then 0
    else CountPhase(steps[..|steps| - 1], phase) + if steps[|steps| - 1].phase == phase then 1 else 0
  }

  function CountPhaseDone(steps: seq<Step>, phase: string): nat
  {
    if steps == [] then 0
    else
      CountPhaseDone(steps[..|steps| - 1], phase) +
      if steps[|steps| - 1].phase == phase && steps[|steps| - 1].status == "Done" then 1 else 0
  }

  /** The share of done steps as a percentage in exact arithmetic: the nearest
      whole percentage, halves rounded up; 0 when there are no steps. */
  function Percent(done: nat, total: nat): (p: nat)
    ensures total == 0 ==> p == 0
    ensures total > 0 ==> 2 * total * p <= 200 * done + total < 2 * total * (p + 1)
  {
    if total > 0 then (200 * done + total) / (2 * total) else 0
  }

  lemma MulCancel(c: int, a: int, b: int)
    requires c > 0 && c * a < c * b
    ensures a < b
  {
    assert c * (b - a) == c * b - c * a;
  }

  /** No steps done is 0%, all done is 100%, and the percentage never exceeds 100. */
  lemma PercentBounds(done: nat, total: nat)
    ensures done == 0 ==> Percent(done, total) == 0
    ensures done <= total ==> Percent(done, total) <= 100
    ensures 0 < total && done == total ==> Percent(done, total) == 100
  {
    var p := Percent(done, total);
    if total > 0 {
      if done == 0 {
        MulCancel(2 * total, p, 1);
      }
      if done <= total {
        assert 200 * done + total < 2 * total * 101;
        MulCancel(2 * total, p, 101);
      }
      if done == total {
        assert 2 * total * 99 < 200 * done + total - 2 * total;
        assert 2 * total * 99 < 2 * total * p;
        MulCancel(2 * total, 99, p);
      }
    }
  }

  /** Each step is counted under at most one of the three statuses. */
  lemma {:induction false} StatusCountsBounded(steps: seq<Step>)
    ensures CountStatus(steps, "Open") + CountStatus(steps, "In Progress") + CountStatus(steps, "Done") <= |steps|
  {
    if steps != [] {
      StatusCountsBounded(steps[..|steps| - 1]);
    }
  }

  /** When every step is Done, every step is counted as done. */
  lemma {:induction false} AllDoneCounted(steps: seq<Step>)
    requires forall s :: s in steps ==> s.status == "Done"
    ensures CountStatus(steps, "Done") == |steps|
  {
    if steps != [] {
      assert steps[|steps| - 1] in steps;
      assert forall s :: s in steps[..|steps| - 1] ==> s in steps;
      AllDoneCounted(steps[..|steps| - 1]);
    }
  }

  /** The known-phase steps, each counted once. */
  function CountKnown(steps: seq<Step>, phases: seq<string>): nat
  {
    if steps == [] then 0
    else CountKnown(steps[..|steps| - 1], phases) + if steps[|steps| - 1].phase in phases then 1 else 0
  }

  function SumPhases(steps: seq<Step>, phases: seq<string>): nat
  {
    if phases == [] then 0 else CountPhase(steps, phases[0]) + SumPhases(steps, phases[1..])
  }

  lemma {:induction false} OnePhaseMatches(phases: seq<string>, phase: string)
    requires NoDup(phases)
    ensures (SumOf(phases, phase) == if phase in phases then 1 else 0)
  {
    if phases != [] {
      assert NoDup(phases[1..]);
      OnePhaseMatches(phases[1..], phase);
      assert phases == [phases[0]] + phases[1..];
    }
  }

  /** How many phases of `phases` equal `phase`. */
  function SumOf(phases: seq<string>, phase: string): nat
  {
    if phases == [] then 0 else (if phases[0] == phase then 1 else 0) + SumOf(phases[1..], phase)
  }

  lemma {:induction false} SumPhasesStep(steps: seq<Step>, phases: seq<string>)
    requires steps != []
    ensures SumPhases(steps, phases) == SumPhases(steps[..|steps| - 1], phases) + SumOf(phases, steps[|steps| - 1].phase)
  {
    if phases != [] {
      SumPhasesStep(steps, phases[1..]);
    }
  }

  /** Over distinct phases, the per-phase totals add up to the number of
      steps whose phase is one of them: a step of an unknown phase is in no
      per-phase total, every other step in exactly one. */
  lemma {:induction false} PhaseTotalsCountKnownSteps(steps: seq<Step>, phases: seq<string>)
    requires NoDup(phases)
    ensures SumPhases(steps, phases) == CountKnown(steps, phases)
  {
    if steps == [] {
      SumPhasesEmpty(phases);
    } else {
      PhaseTotalsCountKnownSteps(steps[..|steps| - 1], phases);
      SumPhasesStep(steps, phases);
      OnePhaseMatches(phases, steps[|steps| - 1].phase);
    }
  }

  lemma {:induction false} SumPhasesEmpty(phases: seq<string>)
    ensures SumPhases([], phases) == 0
  {
    if phases != [] {
      SumPhasesEmpty(phases[1..]);
    }
  }

  lemma {:induction false} PhaseDoneBounded(steps: seq<Step>, phase: string)
    ensures CountPhaseDone(steps, phase) <= CountPhase(steps, phase)
  {
    if steps != [] {
      PhaseDoneBounded(steps[..|steps| - 1], phase);
    }
  }

  /** The per-phase counters over `steps`, one pair for each phase of `UI.PHASES`. */
  function PhaseCounts(steps: seq<Step>): map<string, PhaseCount>
  {
    map p | p in UI.PHASES :: PhaseCount(CountPhase(steps, p), CountPhaseDone(steps, p))
  }

  /** The statistics of `getProjectStats_` over `steps`, defined by counting. */
  function ProjectStats(steps: seq<Step>): Stats
  {
    var done := CountStatus(steps, "Done");
    Stats(|steps|, CountStatus(steps, "Open"), CountStatus(steps, "In Progress"), done,
          PhaseCounts(steps), Percent(done, |steps|))
  }

  /** What the statistics promise: the three status counts fit in the total,
      there is a counter pair for exactly the five phases, no phase has more
      done than total, the per-phase totals add up to the steps of a known
      phase, and the percentage is at most 100. */
  lemma ProjectStatsBounds(steps: seq<Step>)
    ensures var stats := ProjectStats(steps);
      && stats.open + stats.inProgress + stats.done <= stats.total
      && stats.byPhase.Keys == set p | p in UI.PHASES
      && (forall p :: p in stats.byPhase ==> stats.byPhase[p].done <= stats.byPhase[p].total)
      && SumPhases(steps, UI.PHASES) == CountKnown(steps, UI.PHASES) <= stats.total
      && stats.percentComplete <= 100
  {
    StatusCountsBounded(steps);
    forall p | p in UI.PHASES
      ensures CountPhaseDone(steps, p) <= CountPhase(steps, p)
    {
      PhaseDoneBounded(steps, p);
    }
    UI.PhasesTable();
    PhaseTotalsCountKnownSteps(steps, UI.PHASES);
    CountKnownBounded(steps, UI.PHASES);
    PercentBounds(CountStatus(steps, "Done"), |steps|);
  }

  lemma {:induction false} CountKnownBounded(steps: seq<Step>, phases: seq<string>)
    ensures CountKnown(steps, phases) <= |steps|
  {
    if steps != [] {
      CountKnownBounded(steps[..|steps| - 1], phases);
    }
  }

  lemma CountStatusSnoc(steps: seq<Step>, i: nat, status: string)
    requires i < |steps|
    ensures CountStatus(steps[..i + 1], status) == CountStatus(steps[..i], status) + if steps[i].status == status then 1 else 0
  {
    assert steps[..i + 1][..i] == steps[..i];
  }

  /** One more step moves its own phase's counters and no others. */
  lemma PhaseCountsSnoc(steps: seq<Step>, i: nat)
    requires i < |steps|
    ensures PhaseCounts(steps[..i + 1]) == Tally(PhaseCounts(steps[..i]), steps[i])
  {
    assert steps[..i + 1][..i] == steps[..i];
  }

  /** The counter pair of each phase, zero. */
  function Zeroes(): map<string, PhaseCount>
  {
    map p | p in UI.PHASES :: PhaseCount(0, 0)
  }

  /** Counting one step into the per-phase counters, as the loop of `getProjectStats_` does. */
  function Tally(m: map<string, PhaseCount>, s: Step): map<string, PhaseCount>
  {
    if s.phase in m then
      m[s.phase := PhaseCount(m[s.phase].total + 1, if s.status == "Done" then m[s.phase].done + 1 else m[s.phase].done)]
    else m
  }

  /** The counters after tallying `steps` one by one from zero. */
  function Tallied(steps: seq<Step>): map<string, PhaseCount>
  {
    if steps == [] then Zeroes() else Tally(Tallied(steps[..|steps| - 1]), steps[|steps| - 1])
  }

  lemma TalliedSnoc(steps: seq<Step>, i: nat)
    requires i < |steps|
    ensures Tallied(steps[..i + 1]) == Tally(Tallied(steps[..i]), steps[i])
  {
    assert steps[..i + 1][..i] == steps[..i];
  }

  /** Tallying step by step yields the counts by phase. */
  lemma {:induction false} TalliedCounts(steps: seq<Step>)
    ensures Tallied(steps) == PhaseCounts(steps)
  {
    if steps == [] {
      assert Zeroes() == PhaseCounts([]);
    } else {
      TalliedCounts(steps[..|steps| - 1]);
      PhaseCountsSnoc(steps, |steps| - 1);
      assert steps[..|steps|] == steps;
    }
  }

  /** `getProjectStats_`: the statistics of the steps the store lists for the project. */
  method GetProjectStats(st: Store, projectId: Id) returns (stats: Stats)
    requires st.Valid()
    ensures stats == ProjectStats(Steps.OfProject(st.steps.Rows(), projectId))
  {
    stats := CountSteps(Steps.OfProject(st.steps.Rows(), projectId));
  }

  /** The counting loops of `getProjectStats_`. */
  method CountSteps(steps: seq<Step>) returns (stats: Stats)
    ensures stats == ProjectStats(steps)
  {
    assert "Open" != "In Progress" && "Open" != "Done" && "In Progress" != "Done" by {
      assert "Open"[0] != "Done"[0];
    }
    var open, inProgress, done := 0, 0, 0;
    var byPhase: map<string, PhaseCount> := map[];
    for k := 0 to |UI.PHASES|
      invariant byPhase == map p | p in UI.PHASES[..k] :: PhaseCount(0, 0)
    {
      assert UI.PHASES[..k + 1] == UI.PHASES[..k] + [UI.PHASES[k]];
      byPhase := byPhase[UI.PHASES[k] := PhaseCount(0, 0)];
    }
    assert UI.PHASES[..|UI.PHASES|] == UI.PHASES;
    assert steps[..0] == [];
    for i := 0 to |steps|
      invariant open == CountStatus(steps[..i], "Open")
      invariant inProgress == CountStatus(steps[..i], "In Progress")
      invariant done == CountStatus(steps[..i], "Done")
      invariant byPhase == Tallied(steps[..i])
    {
      CountStatusSnoc(steps, i, "Open");
      CountStatusSnoc(steps, i, "In Progress");
      CountStatusSnoc(steps, i, "Done");
      TalliedSnoc(steps, i);
      var step := steps[i];
      if step.status == "Open" {
        open := open + 1;
      } else if step.status == "In Progress" {
        inProgress := inProgress + 1;
      } else if step.status == "Done" {
        done := done + 1;
      }
      if step.phase in byPhase {
        var c := byPhase[step.phase];
        byPhase := byPhase[step.phase := PhaseCount(c.total + 1, if step.status == "Done" then c.done + 1 else c.done)];
      }
    }
    assert steps[..|steps|] == steps;
    TalliedCounts(steps);
    stats := Stats(|steps|, open, inProgress, done, byPhase, Percent(done, |steps|));
  }

  /** A project is complete at 100% once it has steps and all are Done. */
  lemma AllDoneIsComplete(steps: seq<Step>)
    requires steps != [] && forall s :: s in steps ==> s.status == "Done"
    ensures Percent(CountStatus(steps, "Done"), |steps|) == 100
  {
    AllDoneCounted(steps);
    PercentBounds(|steps|, |steps|);
  }

  const TEAM_ROLES: seq<string> := ["Producer", "Director", "Line Producer"]

  /** The entry for one person reference: the stored person carrying the role
      label, or nothing when the reference is empty or names no stored person. */
  function TeamSlot(people: Table<Person>, ref: Option<Id>, role: string): seq<Person>
  {
    if Present(ref) && ref.value in people.rows then [people.rows[ref.value].(role := role)] else []
  }

  /** `getProjectTeam_`: nothing for an unknown project; otherwise the
      producer, director and line producer that resolve, in that order. */
  method GetProjectTeam(st: Store, projectId: Id) returns (team: seq<Person>)
    requires st.Valid()
    ensures projectId !in st.projects.rows ==> team == []
    ensures projectId in st.projects.rows ==> team == Team(st.people, st.projects.rows[projectId])
  {
    if projectId !in st.projects.rows {
      return [];
    }
    var project := st.projects.rows[projectId];
    team := [];
    var people := st.people.Rows();
    if Present(project.producerId) {
      Resources.FindByIdStored(st, project.producerId.value);
      var producer := Resources.FindById(people, project.producerId.value);
      if producer.Some? {
        team := team + [producer.value.(role := "Producer")];
      }
    }
    ghost var slots := TeamSlot(st.people, project.producerId, TEAM_ROLES[0]);
    assert team == slots;
    if Present(project.directorId) {
      Resources.FindByIdStored(st, project.directorId.value);
      var director := Resources.FindById(people, project.directorId.value);
      if director.Some? {
        team := team + [director.value.(role := "Director")];
      }
    }
    slots := slots + TeamSlot(st.people, project.directorId, TEAM_ROLES[1]);
    assert team == slots;
    if Present(project.lineProducerId) {
      Resources.FindByIdStored(st, project.lineProducerId.value);
      var lineProducer := Resources.FindById(people, project.lineProducerId.value);
      if lineProducer.Some? {
        team := team + [lineProducer.value.(role := "Line Producer")];
      }
    }
    slots := slots + TeamSlot(st.people, project.lineProducerId, TEAM_ROLES[2]);
    assert team == slots;
  }

  /** The team of `project`: one entry per person reference that resolves. */
  function Team(people: Table<Person>, project: Project): seq<Person>
  {
    TeamSlot(people, project.producerId, TEAM_ROLES[0])
      + TeamSlot(people, project.directorId, TEAM_ROLES[1])
      + TeamSlot(people, project.lineProducerId, TEAM_ROLES[2])
  }

  lemma TeamSlotShape(people: Table<Person>, ref: Option<Id>, role: string)
    requires forall k :: k in people.rows ==> people.rows[k].id == k
    ensures |TeamSlot(people, ref, role)| <= 1
    ensures |TeamSlot(people, ref, role)| == 1 <==> Present(ref) && ref.value in people.rows
    ensures forall m :: m in TeamSlot(people, ref, role) ==>
              m.role == role && m.id in people.rows && m == people.rows[m.id].(role := role)
  {
  }

  /** Whose role is `role` in a concatenation of slots. */
  lemma RoleAt(a: seq<Person>, b: seq<Person>, c: seq<Person>, i: nat)
    requires i < |a + b + c|
    requires forall m :: m in a ==> m.role == TEAM_ROLES[0]
    requires forall m :: m in b ==> m.role == TEAM_ROLES[1]
    requires forall m :: m in c ==> m.role == TEAM_ROLES[2]
    ensures IndexOf(TEAM_ROLES, (a + b + c)[i].role) == if i < |a| then 0 else if i < |a| + |b| then 1 else 2
  {
    assert IndexOf(TEAM_ROLES, TEAM_ROLES[1]) == 1;
    assert IndexOf(TEAM_ROLES, TEAM_ROLES[2]) == 2;
    if i < |a| {
      assert (a + b + c)[i] == a[i];
    } else if i < |a| + |b| {
      assert (a + b + c)[i] == b[i - |a|];
    } else {
      assert (a + b + c)[i] == c[i - |a| - |b|];
    }
  }

  /** The team's roles come strictly in the order Producer, Director, Line Producer. */
  lemma TeamOrdered(people: Table<Person>, project: Project)
    requires forall k :: k in people.rows ==> people.rows[k].id == k
    ensures var team := Team(people, project);
      forall i, j :: 0 <= i < j < |team| ==> IndexOf(TEAM_ROLES, team[i].role) < IndexOf(TEAM_ROLES, team[j].role)
  {
    var a := TeamSlot(people, project.producerId, TEAM_ROLES[0]);
    var b := TeamSlot(people, project.directorId, TEAM_ROLES[1]);
    var c := TeamSlot(people, project.lineProducerId, TEAM_ROLES[2]);
    TeamSlotShape(people, project.producerId, TEAM_ROLES[0]);
    TeamSlotShape(people, project.directorId, TEAM_ROLES[1]);
    TeamSlotShape(people, project.lineProducerId, TEAM_ROLES[2]);
    var team := a + b + c;
    forall i, j | 0 <= i < j < |team|
      ensures IndexOf(TEAM_ROLES, team[i].role) < IndexOf(TEAM_ROLES, team[j].role)
    {
      RoleAt(a, b, c, i);
      RoleAt(a, b, c, j);
    }
  }

  /** Every team member is a stored person relabelled with one of the fixed roles. */
  lemma TeamMembers(people: Table<Person>, project: Project)
    requires forall k :: k in people.rows ==> people.rows[k].id == k
    ensures var team := Team(people, project);
      forall m :: m in team ==> m.role in TEAM_ROLES && m.id in people.rows && m == people.rows[m.id].(role := m.role)
  {
    var a := TeamSlot(people, project.producerId, TEAM_ROLES[0]);
    var b := TeamSlot(people, project.directorId, TEAM_ROLES[1]);
    var c := TeamSlot(people, project.lineProducerId, TEAM_ROLES[2]);
    TeamSlotShape(people, project.producerId, TEAM_ROLES[0]);
    TeamSlotShape(people, project.directorId, TEAM_ROLES[1]);
    TeamSlotShape(people, project.lineProducerId, TEAM_ROLES[2]);
    forall m: Person | m in a + b + c
      ensures m.role in TEAM_ROLES && m.id in people.rows && m == people.rows[m.id].(role := m.role)
    {
      assert m in a || m in b || m in c;
    }
  }

  /** A producer is listed exactly when the project's producer reference resolves. */
  lemma TeamProducer(people: Table<Person>, project: Project)
    requires forall k :: k in people.rows ==> people.rows[k].id == k
    ensures (exists m :: m in Team(people, project) && m.role == "Producer") <==>
            Present(project.producerId) && project.producerId.value in people.rows
  {
    var a := TeamSlot(people, project.producerId, TEAM_ROLES[0]);
    var b := TeamSlot(people, project.directorId, TEAM_ROLES[1]);
    var c := TeamSlot(people, project.lineProducerId, TEAM_ROLES[2]);
    TeamSlotShape(people, project.producerId, TEAM_ROLES[0]);
    TeamSlotShape(people, project.directorId, TEAM_ROLES[1]);
    TeamSlotShape(people, project.lineProducerId, TEAM_ROLES[2]);
    var team := a + b + c;
    if |a| == 0 {
      forall m: Person | m in team
        ensures m.role != "Producer"
      {
        assert m in b || m in c;
      }
    } else {
      assert team[0] == a[0] && a[0] in a;
    }
  }

  /** At most three members, roles in the order Producer, Director, Line
      Producer, each a stored person under the role label; the producer is
      listed exactly when the project's producer reference resolves. */
  lemma TeamShape(people: Table<Person>, project: Project)
    requires forall k :: k in people.rows ==> people.rows[k].id == k
    ensures var team := Team(people, project);
      && |team| <= 3
      && (forall i, j :: 0 <= i < j < |team| ==> IndexOf(TEAM_ROLES, team[i].role) < IndexOf(TEAM_ROLES, team[j].role))
      && (forall m :: m in team ==> m.role in TEAM_ROLES && m.id in people.rows && m == people.rows[m.id].(role := m.role))
      && ((exists m :: m in team && m.role == "Producer") <==> Present(project.producerId) && project.producerId.value in people.rows)
  {
    TeamSlotShape(people, project.producerId, TEAM_ROLES[0]);
    TeamSlotShape(people, project.directorId, TEAM_ROLES[1]);
    TeamSlotShape(people, project.lineProducerId, TEAM_ROLES[2]);
    TeamOrdered(people, project);
    TeamMembers(people, project);
    TeamProducer(people, project);
  }
}
