/** The fixed configuration tables of the add-on: the production phases in
    order, the default step names of each phase, and the status and priority
    values. */
module UI {

  import opened Seqs

  const PHASES: seq<string> :=
    ["Development", "Pre-Production", "Production", "Post-Production", "Delivery"]

  const DEFAULT_STEPS: map<string, seq<string>> := map[
    "Development" := ["Storyboard", "Brief"],
    "Pre-Production" := ["Producer", "Director", "Line Producer", "Crew", "Casting",
                         "Location", "Shot List", "Shooting Schedule"],
    "Production" := ["Shooting Day(s)"],
    "Post-Production" := ["First Rough Cut", "First Correction", "Second Correction", "Picture Lock"],
    "Delivery" := ["Rights Ownership", "Deliverables"]
  ]

  const PRIORITIES: seq<string> := ["Low", "Medium", "High", "Critical"]

  const STATUSES: seq<string> := ["Open", "In Progress", "Done"]

  /** The default step names of `phase`; none for a phase the table does not list. */
  function DefaultSteps(phase: string): seq<string>
  {
    if phase in DEFAULT_STEPS then DEFAULT_STEPS[phase] else []
  }

  /** Number of default steps over a list of phases. */
  function DefaultStepCount(phases: seq<string>): nat
  {
    if phases == [] then 0 else DefaultStepCount(phases[..|phases| - 1]) + |DefaultSteps(phases[|phases| - 1])|
  }

  lemma PhasesTable()
    ensures |PHASES| == 5 && NoDup(PHASES)
    ensures PHASES[0] == "Development" && PHASES[1] == "Pre-Production" && PHASES[2] == "Production"
    ensures PHASES[3] == "Post-Production" && PHASES[4] == "Delivery"
  {
  }

  /** Every phase has its list, of 2, 8, 1, 4 and 2 names, and no list repeats a name. */
  lemma DefaultStepsTable()
    ensures DEFAULT_STEPS.Keys == set p | p in PHASES
    ensures |DefaultSteps(PHASES[0])| == 2 && |DefaultSteps(PHASES[1])| == 8
    ensures |DefaultSteps(PHASES[2])| == 1 && |DefaultSteps(PHASES[3])| == 4
    ensures |DefaultSteps(PHASES[4])| == 2
    ensures forall p :: p in PHASES ==> NoDup(DefaultSteps(p))
  {
  }

  /** Creating a project seeds 2 + 8 + 1 + 4 + 2 = 17 steps. */
  lemma {:induction false} SeventeenDefaultSteps()
    ensures DefaultStepCount(PHASES) == 17
  {
    DefaultStepsTable();
    assert PHASES[..4][..3] == PHASES[..3];
    assert PHASES[..3][..2] == PHASES[..2];
    assert PHASES[..2][..1] == PHASES[..1];
    assert PHASES[..1][..0] == [];
    assert DefaultStepCount(PHASES[..1]) == 2;
    assert DefaultStepCount(PHASES[..2]) == 10;
    assert DefaultStepCount(PHASES[..3]) == 11;
    assert DefaultStepCount(PHASES[..4]) == 15;
    assert PHASES[..5] == PHASES;
  }

  lemma StatusesAndPriorities()
    ensures STATUSES == ["Open", "In Progress", "Done"] && NoDup(STATUSES)
    ensures PRIORITIES == ["Low", "Medium", "High", "Critical"] && NoDup(PRIORITIES)
  {
  }
}
