# Video project tracker: entity and workflow layer

This project models the record layer of a video-production tracker. The tracker keeps four kinds of record:

- **projects**, with a title, status, priority, dates and three person references (producer, director, line producer);
- **steps**, each belonging to a project and a phase, with a due date, assignees, a status, notes, a linked calendar event and linked Drive files;
- **people**, with a name, email and role;
- **links**, which belong to a project.

The model covers the operations that create, merge-update, delete and status-cycle these records, and the views derived from them: "my steps", overdue steps, project statistics and the project team. It also covers the fixed configuration tables these are defined over:

- the five phases;
- the default step names for each phase;
- the three statuses;
- the four priorities.

The store behind the tracker is `Storage.Store`, a class with one `Table` per entity type. A table is a map from id to record plus the order in which the store lists its records.

- Saving a new id appends it to that order.
- Saving an existing id replaces the record in place.
- Deleting removes the id.
- `Store.Valid` states that each listing order names every stored id exactly once, and that every record is stored under its own id.

Every operation that changes the store is a `method` with a `modifies` clause naming the tables it writes. Its `ensures` clauses give the new state of those tables in terms of the old one. Pure parts are functions with their own lemmas:

- default filling;
- the object-spread merge;
- the status cycle;
- list add/remove;
- selection and counting.

External inputs are parameters:

- the clock (`clock`, an integer timestamp);
- the session's email;
- `now` for the overdue query.

Dates are integers. `generateId_` is `Store.NewId`: an id that no stored project, step, person or link has.

JavaScript truthiness is modelled explicitly:

- `Records.Present` is "present and not the empty string".
- `OrDefault` fills in a default for an absent or empty string.
- `OrNull` turns an absent or empty string into no value.
- An object-spread merge field is stated with `Takes(patched, was, now)`.

Two behaviours of the code that a reader might not expect:

- `toggleStepStatus_` sends every status other than "Open" and "In Progress" to "Open", including "Done" and unknown values (`Steps.NextStatusCycle`).
- `assignPeopleToStep_` stores the given list as it is. It does not remove duplicates (`Steps.AssignPeopleToStep`). Only add and remove have set-like behaviour: add appends only when the id is absent, and remove drops every occurrence.

## Model

| member | source | states |
|---|---|---|
| UI.PhasesTable | utils_ui_gs.js:32-38 | There are exactly five phases, in the order Development, Pre-Production, Production, Post-Production, Delivery, with no repeats. |
| UI.DefaultStepsTable | utils_ui_gs.js:40-46 | The default-step table has one entry per phase: 2, 8, 1, 4 and 2 names, with no name repeated within a phase. |
| UI.SeventeenDefaultSteps | utils_ui_gs.js:40-46 | Over all phases there are 17 default steps. |
| UI.StatusesAndPriorities | utils_ui_gs.js:48-50 | The statuses are Open, In Progress, Done and the priorities are Low, Medium, High, Critical, each list without repeats. |
| Storage.FreshId | utils_ui_gs.js:166-168 | The generated id differs from every id in the given list. |
| Storage.Store.NewId | utils_ui_gs.js:166-168 | A new id is used by no project, step, person or link in the store. |
| Seqs.AddIfAbsent | models/step_gs.js:108-111 | The id is in the result. The result holds exactly the old ids plus that one and keeps the old list as a prefix. It equals the old list exactly when the id was already in it, and it adds no duplicate. |
| Seqs.AddIfAbsentIdempotent | models/step_gs.js:108-111 | Adding the same id twice is the same as adding it once. |
| Seqs.AddIfAbsentCommutes | models/step_gs.js:108-111 | Adding two ids in either order gives the same members. |
| Seqs.Without | models/step_gs.js:126 | Filtering out an id leaves no occurrence of it and keeps every other id, each as often as before. |
| Seqs.RemoveThenAdd | models/step_gs.js:104-128 | Removing an assignee and adding them back puts them at the end, with every other id kept. |
| Seqs.FindFirst | models/resource_gs.js:59 | `find` answers none exactly when no element matches, and otherwise the first matching element. |
| Seqs.Minus | models/project_gs.js:89 | Deleting a set of ids from a listing leaves exactly the listed ids outside the set. |
| Seqs.MinusConcat | models/project_gs.js:89 | Deleting ids from a concatenated listing is deleting them from each part, so the remaining ids keep their relative order. |
| Seqs.Filter | models/step_gs.js:182-184 | `filter` keeps exactly the elements that pass the test, each as often as it occurs in the input. |
| Seqs.FilterConcat | models/step_gs.js:182-184 | Filtering a concatenation is concatenating the filtered parts, so the kept elements stay in their original order. |
| Storage.Table.Rows | models/step_gs.js:180 | Listing a table gives one record per stored id, in listing order, and exactly the stored records. |
| Storage.Table.Put | models/step_gs.js:26 | Saving stores the record under its id. A new id goes at the end of the listing order, and an existing one keeps its place. |
| Storage.Table.Remove | models/step_gs.js:68 | Deleting removes exactly that id from the map and the listing. Deleting an absent id changes nothing. |
| Steps.NewStepDefaults | models/step_gs.js:10-24 | A step created with only a project and a phase is named "New Step", is Open, and has no due date, assignees, notes, event or files. Both timestamps are the clock. |
| Steps.CreateStep | models/step_gs.js:10-27 | The new step's id is fresh, its fields are the defaults filled from the data (project and phase copied unchecked), and it is saved. No other step changes. |
| Steps.ApplyPatch | models/step_gs.js:40-45 | The merged step has the given id and the new update time. It takes every field the patch supplies and keeps every other field. |
| Steps.ApplyNoChange | models/step_gs.js:40-45 | An empty patch only refreshes `updatedAt`. |
| Steps.ApplyPatchThen | models/step_gs.js:40-45 | Two merges in a row equal one merge with the combined patch, in which the later fields win. |
| Steps.UpdateStep | models/step_gs.js:36-48 | An unknown id fails with "Step not found" and changes nothing. Otherwise the merged step is returned and saved in place, and no other step changes. |
| Steps.DeleteStep | models/step_gs.js:55-69 | The step is removed; an unknown id changes nothing. The calendar event to delete is the step's non-empty linked event id, if any. |
| Steps.NextStatusCycle | models/step_gs.js:80-83 | Open goes to In Progress and In Progress goes to Done. Every other status goes to Open. Three toggles from any listed status return to it, and a toggle always yields a listed status. |
| Steps.ToggleStepStatus | models/step_gs.js:76-85 | An unknown id fails. Otherwise only the status (cycled) and `updatedAt` change. |
| Steps.AssignPeopleToStep | models/step_gs.js:94-96 | An unknown id fails. Otherwise the assignee list becomes exactly the given list, duplicates included. |
| Steps.AddAssigneeToStep | models/step_gs.js:104-114 | An unknown id fails. Otherwise the person becomes an assignee: the list is unchanged if they already were one, and they are appended at the end if not. |
| Steps.RemoveAssigneeFromStep | models/step_gs.js:122-128 | An unknown id fails. Otherwise the person is no longer an assignee, and the other ids keep their order. |
| Steps.SetStepDueDate | models/step_gs.js:136-138 | An unknown id fails. Otherwise only the due date and `updatedAt` change. |
| Steps.LinkCalendarEvent | models/step_gs.js:146-148 | An unknown id fails. Otherwise the single linked event field is overwritten. |
| Steps.LinkDriveFile | models/step_gs.js:156-166 | An unknown id fails. Otherwise the file is added to the linked files if absent, and the list is unchanged if present. |
| Steps.OfProject | models/step_gs.js:180 | `getSteps(projectId)` selects exactly the steps of that project. |
| Steps.OfProjectOrder | models/step_gs.js:180 | Selecting a project's steps keeps them in listing order. |
| Steps.AssignedTo | models/step_gs.js:182-184 | Exactly the steps whose assignees include the person are selected. |
| Steps.InScope | models/step_gs.js:180 | A present project id restricts to that project. An absent or empty one keeps all steps. |
| Steps.CompareAsWrittenInconsistent | models/step_gs.js:186-190 | With the comparator as written, two undated steps each compare greater than the other. |
| Steps.CompareByDue | models/step_gs.js:186-190 | The intended comparator puts one step no later than another exactly when their due dates are in order: dated before undated, and dated ones ascending. |
| Steps.CompareByDueConsistent | models/step_gs.js:186-190 | The intended comparator is antisymmetric, total and transitive. It agrees with the as-written one whenever a due date is involved. |
| Steps.InsertDown | models/step_gs.js:186-190 | One insertion pass extends the due-date-sorted prefix by one element and keeps the array's multiset. |
| Steps.SortByDue | models/step_gs.js:186-190 | The in-place sort leaves the array in due-date order and is a permutation of its old contents. |
| Steps.SortSteps | models/step_gs.js:186-192 | Sorting a list returns a permutation of it in due-date order. |
| Steps.MySteps | models/step_gs.js:174-184 | With no person having the session email the selection is empty. Otherwise a step is selected exactly when it lies in scope and is assigned to the first person with that email. |
| Steps.GetMySteps | models/step_gs.js:173-193 | The result is a permutation of exactly the selected steps, with dated steps first in ascending due-date order and then the undated ones. |
| Steps.GetOverdueSteps | models/step_gs.js:200-208 | A step is returned exactly when it belongs to the project, has a due date earlier than `now`, and is not Done. |
| Projects.NewProjectDefaults | models/project_gs.js:11-23 | A project created from no data is titled "New Video Project", is Open, has priority Medium, and has no dates or people. Both timestamps are the clock. |
| Projects.PhaseSeeds | models/project_gs.js:29-37 | A phase contributes one seed per default step name, in table order. |
| Projects.SeedsLength | models/project_gs.js:28-38 | The seeds of several phases number the sum of their default-step counts. |
| Projects.SeedsFromTables | models/project_gs.js:28-38 | Every seed's phase is one of the phases, and its name is a default step of that phase. |
| Projects.SeedsGrouped | models/project_gs.js:28-38 | The seeds are grouped by phase, in the order the phases are listed. |
| Projects.SeedsDistinct | models/project_gs.js:28-38 | With distinct phases and distinct names per phase, no (phase, name) pair is seeded twice. |
| Projects.SeedsCover | models/project_gs.js:28-38 | Every phase paired with each of its default names is among the seeds. |
| Projects.SeedsTable | models/project_gs.js:28-38 | A new project gets 17 seeds. Each seed is a (phase, default name) pair from the tables, every such pair is seeded, they follow the phase order, and no two are equal. |
| Projects.SeededStepIsOpen | models/project_gs.js:31-36 | A seeded step carries the project id, phase and name, is Open, and is undated and unassigned. |
| Projects.SeededStep | models/project_gs.js:31-36 | Saving one more seeded step under an unused id extends the seeding by that seed. |
| Projects.SeedPhase | models/project_gs.js:29-37 | Creating one phase's default steps appends exactly that phase's seeds. Each step gets an id fresh at the start of seeding, and earlier steps are left as they were. |
| Projects.SeedSteps | models/project_gs.js:28-38 | Seeding all phases adds exactly one new step per seed, in order, under fresh ids. The old steps are left as they were. |
| Projects.CreateProject | models/project_gs.js:10-41 | The project has a fresh id and the defaults filled from the data, and it is saved. Then one Open step per (phase, default name) pair is added under fresh ids, in phase order, each belonging to the new project. |
| Projects.ApplyPatch | models/project_gs.js:53-58 | The merged project has the given id and the new update time. It takes every field the patch supplies and keeps every other field. |
| Projects.ApplyPatchIdempotent | models/project_gs.js:53-58 | Merging the same patch twice at the same time is merging it once. |
| Projects.UpdateProject | models/project_gs.js:49-62 | An unknown id fails with "Project not found" and changes nothing. Otherwise the merged project is returned and saved in place. |
| Projects.LinksOf | models/project_gs.js:83 | `getLinks(projectId)` selects exactly the links of that project. |
| Projects.StepIdsMembers | models/project_gs.js:89 | The ids deleted by the step loop are exactly the ids of the listed steps. |
| Projects.LinkIdsMembers | models/project_gs.js:92 | The ids deleted by the link loop are exactly the ids of the listed links. |
| Projects.OwnedStepIds | models/project_gs.js:70 | The listed steps of a project are exactly the stored steps whose project id matches. |
| Projects.OwnedLinkIds | models/project_gs.js:83 | The listed links of a project are exactly the stored links whose project id matches. |
| Projects.EventsToDelete | models/project_gs.js:71-80 | The calendar events to delete are, in step order, the non-empty linked event ids of the project's steps. |
| Projects.RemoveSteps | models/project_gs.js:89 | Deleting the listed steps removes exactly their ids from the table and from its listing, where the remaining steps keep their order. |
| Projects.RemoveLinks | models/project_gs.js:92 | Deleting the listed links removes exactly their ids from the table and from its listing, where the remaining links keep their order. |
| Projects.DeleteProject | models/project_gs.js:68-93 | Afterwards there is no project with the id, and no step or link belongs to it. Every other step and link is kept unchanged and keeps its place in the listing order, and people are untouched. The events to delete are those of the project's steps; a failed calendar deletion does not stop the deletion. |
| Projects.Percent | models/project_gs.js:131 | With no steps the percentage is 0. Otherwise it is `100 * done / total` rounded half up to an integer. |
| Projects.PercentBounds | models/project_gs.js:131 | The percentage is 0 when nothing is done, at most 100 when done is at most total, and 100 when everything is done. |
| Projects.StatusCountsBounded | models/project_gs.js:119-121 | Open, In Progress and Done together count at most the number of steps. |
| Projects.AllDoneCounted | models/project_gs.js:121 | When every step is Done, the Done count is the number of steps. |
| Projects.PhaseTotalsCountKnownSteps | models/project_gs.js:123-128 | The per-phase totals add up to the number of steps whose phase is listed. Steps with other phases are counted in no phase. |
| Projects.CountKnownBounded | models/project_gs.js:123-128 | Steps with a listed phase are at most all steps. |
| Projects.PhaseDoneBounded | models/project_gs.js:123-128 | In every phase, done is at most total. |
| Projects.ProjectStatsBounds | models/project_gs.js:100-133 | The three status counts add up to at most the total. The phase table has exactly the five phase keys, with done at most total in each. The phase totals count exactly the steps with a listed phase. The percentage is at most 100. |
| Projects.TalliedCounts | models/project_gs.js:118-129 | Folding the steps one at a time into the phase table gives the per-phase counts of all the steps. |
| Projects.CountSteps | models/project_gs.js:101-133 | The counting loops compute exactly the statistics of the steps. |
| Projects.GetProjectStats | models/project_gs.js:100-134 | The statistics are those of the project's listed steps. |
| Projects.AllDoneIsComplete | models/project_gs.js:131 | A non-empty project whose steps are all Done is 100% complete. |
| Projects.TeamSlotShape | models/project_gs.js:148-151 | A role yields at most one member. It yields one exactly when the reference is non-empty and names a stored person, and then the member is that person with the role's label. |
| Projects.RoleAt | models/project_gs.js:145-163 | In the team built as producer, then director, then line producer, each position carries the label of its block. |
| Projects.GetProjectTeam | models/project_gs.js:141-164 | An unknown project has an empty team. Otherwise the team is built, in role order, from the project's references that resolve. |
| Projects.TeamOrdered | models/project_gs.js:148-161 | The team's roles come strictly in the order Producer, Director, Line Producer. |
| Projects.TeamMembers | models/project_gs.js:148-161 | Every member is a stored person relabelled with one of the three fixed roles. |
| Projects.TeamProducer | models/project_gs.js:148-151 | A producer is listed exactly when the project's producer reference is non-empty and resolves. |
| Projects.TeamShape | models/project_gs.js:141-164 | The team has at most three members, with roles strictly in the order Producer, Director, Line Producer. Each member is a stored person relabelled with a fixed role. The producer appears exactly when the producer reference resolves. |
| Resources.ApplyPatch | models/resource_gs.js:33-37 | The merged person has the given id. It takes every field the patch supplies and keeps every other field; there is no update timestamp. |
| Resources.ApplyPatchIdempotent | models/resource_gs.js:33-37 | Merging the same patch twice is merging it once. |
| Resources.FindByEmail | models/resource_gs.js:59 | None exactly when no person has the email; otherwise the first person with that email. |
| Resources.FindByIdStored | models/project_gs.js:149 | Scanning the people list for an id finds exactly the person stored under it. |
| Resources.CreatePerson | models/resource_gs.js:10-21 | The id is fresh, and name, email and role default to the empty string. The person is saved. |
| Resources.UpdatePerson | models/resource_gs.js:29-41 | An unknown id fails with "Person not found" and changes nothing. Otherwise the merged person is returned and saved in place. |
| Resources.DeletePerson | models/resource_gs.js:47-49 | Only that person is removed. Projects, steps and links are unchanged, even where they refer to the person. |
| Resources.FindOrCreatePerson | models/resource_gs.js:57-66 | A person with the email exists afterwards. If one existed, the first such person is returned and nothing changes. Otherwise exactly one person is added, under a fresh id, with that email, the given name (or the email when the name is absent or empty) and an empty role. |
| Resources.FindOrCreateTwice | models/resource_gs.js:57-66 | Two calls with the same email return the same person. The people table afterwards is either unchanged or holds exactly one new record, that person. |

## Left out

- The card-based user interface (`main_gs.js`, the chip, button and formatting helpers in `utils_ui_gs.js`), the colours and icons: they build widgets and hold no logic over the records.
- `Storage`, the persistence module, is not part of this model. It is represented by `Storage.Store`, whose tables list new ids last and keep existing ids in place on save.
- Calendar and Drive services: deleting a step or project returns the calendar event ids to delete instead of calling the calendar. Failures there are logged and ignored by the source, so they cannot affect the stored records. `getUpcomingShootingDays_` (models/project_gs.js:171 onwards) only queries the calendar and is left out.
- `Utilities.getUuid` and `Session.getActiveUser`: the id is any id not in use (`Store.NewId` builds one), and the session email is a parameter.
- Storage.Store.NewId: the new id only avoids the ids stored now, so the id of a deleted record may be issued again, whereas `Utilities.getUuid` never repeats an id. A person created under a reused id would then match the references that deleting a person leaves behind.
- Clocks and dates: `new Date().toISOString()` is the `clock` parameter, due dates are integers, and `new Date(...)` parsing and comparison is integer comparison.
- Projects.Percent: `Math.round((done / total) * 100)` on floating point is modelled by exact rounding half up. The two can differ where the floating-point product lands just below a half.
- Steps.ApplyPatch, Projects.ApplyPatch, Resources.ApplyPatch: a patch can carry only the record's own fields. Extra keys that a spread would copy into the stored object are not modelled, and neither is a patch that sets an `id` (the id is overwritten by the source anyway).
- Projects.CountSteps: the phase table is keyed only by phase names. A step phase such as "constructor", which a plain JavaScript object would find on its prototype, is treated like any other unknown phase.
- Steps.CreateStep: `projectId` and `phase` are always given. The source copies them unchecked and could store `undefined`.
- Steps.SortByDue: `Array.prototype.sort` is not specified to be a particular algorithm. The model sorts by insertion with the corrected comparator and claims nothing about the order of steps with equal due dates.

## Findings

| source | as written | input that shows it | evidently intended | confidence | as-written member | corrected member |
|---|---|---|---|---|---|---|
| models/step_gs.js:186-190 | The comparator returns 1 whenever the first step has no due date, so for two undated steps both `compare(a, b)` and `compare(b, a)` are positive; the comparator is not consistent and the sort's result is then left to the engine. | two steps `a`, `b`, both with `dueDate` null | 0 when neither step has a due date: dated steps ascending, then undated steps | not executed | Steps.CompareAsWrittenInconsistent | Steps.CompareByDueConsistent |
