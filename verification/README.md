# Spy Cat Agency — a Dafny model

This project models the Spy Cat Agency in two layers.

**The backend** is a FastAPI service backed by SQLAlchemy. It keeps three tables: spy cats, missions and targets. It offers:

- CRUD on cats;
- creation of missions with 1–3 targets;
- assignment of a cat to a mission, at most one incomplete mission per cat;
- deletion of unassigned missions;
- target updates that recompute the mission's completion.

New cats are checked against an external breed catalogue.

**The frontend** is a Next.js page. It holds:

- the roster of cats;
- a form that validates a draft before sending it;
- a list whose Delete button asks for confirmation and is disabled while its own request is in flight;
- the breed list, with a twelve-name fallback.

Every operation is a pure function.

- A backend write takes the database value `Models.Db` and returns its result together with the database afterwards (`Crud.Step`).
- A backend read (`Crud.GetSpyCat`, `Crud.GetSpyCats`, `Crud.GetAvailableSpyCats`, `Crud.GetMission`, `Crud.GetMissions`, `Crud.GetTarget`) returns only its result.
- A route adds the HTTP status and body to that (`Http.Exchange`).
- A frontend handler that calls the server takes the page state and the outcome of that call (`Api.Remote`), and returns the request it sends (`Page.Call`) together with the page afterwards (`Page.Outcome`).
- `Page.LoadCats` and the click handlers return only the page afterwards.
- `Page.Apply` dispatches one page event to the handlers as page.tsx writes them. `Page.Replay` folds it over a sequence of events. `Page.ApplyCorrected` is the same page with the two corrected clicks of "## Findings".

Modules follow the source files:

| Module | Source file |
|---|---|
| `Models` | `models.py` |
| `Schemas` | `schemas.py` |
| `Crud` | `crud.py` |
| `SpyCatsRouter` | `routers/spy_cats.py` |
| `MissionsRouter` | `routers/missions.py` |
| `ExternalServices` | `external_services.py` |
| `Api` | `getCatBreeds` in `lib/api.ts` |
| `CatTypes` | `types/index.ts` |
| `SpyCatForm` | `SpyCatForm.tsx` |
| `SpyCatList` | `SpyCatList.tsx` |
| `Page` | `page.tsx` |

The remaining modules are shared or cross-cutting:

- `StoreInvariants` proves the store's business rules.
- `Service` composes the routers and proves that every request sequence keeps them.
- `ClientServer` relates the form's rules to the server's validators.
- `Base` holds `Option`, an order-preserving `Filter`, `Window` (offset/limit), `ReplaceByKey` (update by primary key) and `Pairwise`.
- `Catalogue` holds the breed record shape that both `ExternalServices` and `Api` read.

The store invariant (`Models.Invariant`) has these parts:

- keys are unique and lie below the id counters;
- every target's mission exists;
- every assigned cat exists;
- a cat id holds at most one incomplete mission;
- every mission has a target;
- a mission is complete exactly when all of its targets are.

Behaviour that follows the code where a design reading might expect otherwise:

- Deleting a cat keeps its missions. The `SpyCat.missions` relationship has no delete cascade, so the ORM nulls their `cat_id`.
- Breed validation in the form checks presence only. Catalogue membership is checked only by the server.
- The list tracks one in-flight deletion in a single `deletingId` slot, not a set of ids.
- Assigning a cat to a mission that belongs to another cat, or to a completed mission, is accepted.
- Assigning a cat to its own incomplete mission is refused.
- Deleting a missing mission answers 400, not 404.

## Model

| member | source | states |
|---|---|---|
| Models.NewMission | backend/app/models.py:22-24 | a new mission has no cat and is incomplete |
| Models.NewTarget | backend/app/models.py:34-39 | a new target keeps the given fields, belongs to its mission and is incomplete |
| Models.TargetsOf | backend/app/models.py:28 | the targets listed are exactly those whose `mission_id` is the mission's |
| Schemas.SpyCatCreateErrors | backend/app/schemas.py:12-22 | both validators run; each message is present iff its field is negative; no message iff both bounds hold |
| Schemas.SpyCatUpdateErrors | backend/app/schemas.py:29-36 | the update body is refused with the salary message iff the salary is negative |
| Schemas.MissionCreateErrors | backend/app/schemas.py:79-83 | the body is refused iff it has fewer than 1 or more than 3 targets |
| Schemas.ParseTargetCreate | backend/app/schemas.py:47-50 | an absent `notes` becomes the empty string, a present one is kept |
| Schemas.ParseTargetUpdate | backend/app/schemas.py:57-59 | absent fields parse to "leave unchanged" |
| Crud.GetSpyCat | backend/app/crud.py:7-8 | found iff some cat has that key; the cat returned is in the table with that key |
| Crud.GetSpyCats | backend/app/crud.py:11-12 | the i-th cat is table row `skip + i`; `limit` cats, or all the remaining ones when fewer are left; none when `skip` is past the end |
| Crud.CreateSpyCat | backend/app/crud.py:15-20 | the new cat carries the body's fields under a key no existing cat has; it is appended; missions and targets are untouched |
| Crud.UpdateSpyCat | backend/app/crud.py:23-29 | refused and nothing changes iff the cat is missing; otherwise only that cat's salary changes, in place |
| Crud.ReleaseCat | backend/app/models.py:16 | every mission of the cat is unassigned, every other mission row is kept |
| Crud.DeleteSpyCat | backend/app/crud.py:32-38 | true iff the cat existed; the cats left are exactly the others; its missions remain, unassigned; targets are untouched |
| Crud.GetAvailableSpyCats | backend/app/crud.py:41-45 | a cat is listed iff it is in the table and every mission assigned to it is complete |
| Crud.GetMission | backend/app/crud.py:49-50 | found iff some mission has that key |
| Crud.GetMissions | backend/app/crud.py:53-54 | the i-th mission is table row `skip + i`; `limit` missions, or all the remaining ones when fewer are left; none when `skip` is past the end |
| Crud.NewTargets | backend/app/crud.py:64-66 | one incomplete target per body entry, in order, with consecutive fresh keys, all pointing at the new mission |
| Crud.CreateMission | backend/app/crud.py:57-70 | the mission is unassigned, incomplete and has a key no existing mission has; its targets are appended in body order and the old targets kept |
| Crud.AssignCatToMission | backend/app/crud.py:73-92 | refused, with nothing changed, iff the mission or the cat is missing or the cat holds an incomplete mission; otherwise only that mission's `cat_id` changes |
| Crud.DeleteMission | backend/app/crud.py:95-101 | true iff the mission exists and is unassigned; then it and exactly its targets disappear; otherwise nothing changes |
| Crud.UpdateMissionCompletion | backend/app/crud.py:104-112 | the mission becomes complete iff all its targets are complete; only that row changes |
| Crud.GetTarget | backend/app/crud.py:116-117 | found iff some target has that key |
| Crud.ApplyTargetUpdate | backend/app/crud.py:129-133 | present fields overwrite notes and completion; absent ones and all other columns are kept |
| Crud.UpdateTarget | backend/app/crud.py:120-141 | refused, with nothing changed, iff the target is missing or complete or its mission is complete; otherwise the target is rewritten and its mission's completion recomputed from the rewritten targets |
| StoreInvariants.ActiveMissionUnique | backend/app/crud.py:81-87 | under the invariant two incomplete missions of one cat are the same row |
| StoreInvariants.UpdateMissionCompletionIsIdle | backend/app/crud.py:104-112 | under the invariant recomputing a completion changes nothing |
| StoreInvariants.CreateSpyCatKeepsInvariant | backend/app/crud.py:15-20 | creating a cat keeps the invariant and every completion |
| StoreInvariants.UpdateSpyCatKeepsInvariant | backend/app/crud.py:23-29 | a salary update keeps the invariant and every completion |
| StoreInvariants.DeleteSpyCatKeepsInvariant | backend/app/crud.py:32-38 | deleting a cat keeps the invariant, with no mission left assigned to it, and every completion |
| StoreInvariants.ReleaseCatKeepsRows | backend/app/models.py:16 | released missions keep key and completion, and name only surviving cats |
| StoreInvariants.NewTargetsUnique | backend/app/crud.py:64-66 | the inserted targets' keys collide neither with each other nor with existing ones |
| StoreInvariants.CreateMissionKeepsInvariant | backend/app/crud.py:57-70 | a mission created from a valid body keeps the invariant and every completion |
| StoreInvariants.AssignKeepsOneActive | backend/app/crud.py:81-89 | assigning a cat that holds no incomplete mission keeps one incomplete mission per cat |
| StoreInvariants.AssignCatToMissionKeepsInvariant | backend/app/crud.py:73-92 | assignment keeps the invariant and every completion |
| StoreInvariants.DeleteMissionKeepsInvariant | backend/app/crud.py:95-101 | deleting a mission with its targets keeps the invariant and every completion |
| StoreInvariants.UpdateTargetOtherMissions | backend/app/crud.py:126-136 | writing a target leaves the completion verdict of every other mission unchanged |
| StoreInvariants.RecomputedCompletion | backend/app/crud.py:139 | after the recomputation every mission is complete iff all its targets are |
| StoreInvariants.UpdateTargetKeepsInvariant | backend/app/crud.py:120-141 | a target update keeps the invariant and never reverts a completed target or mission |
| StoreInvariants.UpdateTargetRewrites | backend/app/crud.py:126-139 | the same, stated on the rewritten tables |
| StoreInvariants.AssignOverridesOwnerAndCompletion | backend/app/crud.py:77-89 | a mission owned by another cat, or complete, is reassigned without complaint |
| StoreInvariants.ReassigningOwnActiveMissionFails | backend/app/crud.py:81-87 | assigning a cat to its own incomplete mission is refused and changes nothing |
| StoreInvariants.EmptyMissionBreaksCompletion | backend/app/crud.py:57-70 | without the schema's lower bound a target-less mission would be incomplete although all its targets are complete |
| StoreInvariants.EmptyTargetUpdateKeepsRow | backend/app/schemas.py:57-59 | an update body with no fields leaves the target row as it was |
| ExternalServices.GetCatBreeds | backend/app/external_services.py:11-19 | the fetched records, or none on an HTTP error |
| ExternalServices.LowerChar | backend/app/external_services.py:25 | ASCII capitals map to their small letters, every other character to itself |
| ExternalServices.Lower | backend/app/external_services.py:25-26 | lower-casing is character-wise and length-preserving |
| ExternalServices.LoweredNames | backend/app/external_services.py:25 | the lower-cased catalogue names, in order |
| ExternalServices.ValidateCatBreed | backend/app/external_services.py:22-26 | a breed is valid iff some catalogue name equals it after lower-casing both |
| ExternalServices.FetchFailureRejectsEveryBreed | backend/app/external_services.py:18-19 | a failed fetch makes every breed invalid |
| ExternalServices.LowerIdempotent | backend/app/external_services.py:25-26 | lower-casing twice is lower-casing once |
| ExternalServices.CaseInsensitive | backend/app/external_services.py:26 | spellings equal after lower-casing get the same verdict |
| ExternalServices.OnlyNameSetMatters | backend/app/external_services.py:25-26 | the verdict depends only on the set of lower-cased catalogue names |
| ExternalServices.WholeNameMembership | backend/app/external_services.py:26 | membership is by whole name: "Bengal" does not match "Bengal Cat", "bengal" matches "Bengal" |
| SpyCatsRouter.CreateSpyCatRoute | backend/app/routers/spy_cats.py:13-24 | 422 for an invalid body, else 400 "Invalid cat breed: …" for an unknown breed, else 201 with the created cat; only 201 changes the store |
| SpyCatsRouter.ReadSpyCatsRoute | backend/app/routers/spy_cats.py:27-31 | 200 with the offset/limit window |
| SpyCatsRouter.ListingDefaults | backend/app/routers/spy_cats.py:28 | without parameters the first hundred cats are listed |
| SpyCatsRouter.ReadAvailableSpyCatsRoute | backend/app/routers/spy_cats.py:34-38 | 200 with exactly the cats having no incomplete mission |
| SpyCatsRouter.ReadSpyCatRoute | backend/app/routers/spy_cats.py:41-50 | 404 "Spy cat not found" iff no cat has the key, else 200 with it |
| SpyCatsRouter.UpdateSpyCatRoute | backend/app/routers/spy_cats.py:53-62 | 422 for a negative salary, 404 for a missing cat, else 200 with the updated cat |
| SpyCatsRouter.DeleteSpyCatRoute | backend/app/routers/spy_cats.py:65-73 | 204 iff the cat existed, else 404 with nothing changed |
| MissionsRouter.View | backend/app/schemas.py:90-95 | a mission is shown with exactly its targets and with its cat when that cat exists |
| MissionsRouter.AssignedMissionShowsItsCat | backend/app/models.py:23 | in a consistent store an assigned mission is always shown with its cat |
| MissionsRouter.CreateMissionRoute | backend/app/routers/missions.py:12-15 | 422 unless 1..3 targets, else 201 with the new mission and its targets |
| MissionsRouter.ReadMissionsRoute | backend/app/routers/missions.py:18-22 | 200 with the view of each mission of the window, in order |
| MissionsRouter.ReadMissionRoute | backend/app/routers/missions.py:25-34 | 404 "Mission not found" iff no mission has the key; otherwise 200 with that mission's view, its cat and targets included |
| MissionsRouter.AssignCatToMissionRoute | backend/app/routers/missions.py:37-46 | 200 iff the store accepts the assignment, with the reassigned mission's view in the new database; every refusal is the same 400 with nothing changed |
| MissionsRouter.DeleteMissionRoute | backend/app/routers/missions.py:49-57 | 204 iff the mission exists and is unassigned; otherwise 400, even for a missing mission |
| MissionsRouter.UpdateTargetRoute | backend/app/routers/missions.py:60-69 | 200 iff the store accepts the update; every refusal is the same 400 with nothing changed |
| MissionsRouter.ReadTargetRoute | backend/app/routers/missions.py:72-80 | 404 "Target not found" iff no target has the key |
| Service.HandleKeepsInvariant | backend/app/routers/missions.py:12-69 | any mutating request to either router keeps the invariant and never reverts a completion |
| Service.Run | backend/app/crud.py:15-141 | serving requests in order keeps the invariant |
| Service.ServedDatabasesKeepInvariant | backend/app/crud.py:73-112 | from the empty database, any request sequence leaves at most one incomplete mission per cat and completion equal to "all targets complete" |
| Api.GetCatBreeds | frontend/src/lib/api.ts:52-63 | the fetched names in order, or the fallback list on any failure |
| Api.OfferedBreeds | frontend/src/lib/api.ts:53-63 | any failed fetch offers twelve different names; the list is empty only for an empty catalogue |
| SpyCatForm.TrimStart | frontend/src/components/SpyCatForm.tsx:41 | the result is a suffix, everything cut off is white space, and it starts with a non-space |
| SpyCatForm.TrimEnd | frontend/src/components/SpyCatForm.tsx:41 | the result is a prefix, everything cut off is white space, and it ends with a non-space |
| SpyCatForm.TrimEmptyIffBlank | frontend/src/components/SpyCatForm.tsx:41 | a name trims to nothing iff it is all white space |
| SpyCatForm.InitialDraft | frontend/src/components/SpyCatForm.tsx:15-20 | editing starts from the cat's own four fields, despite the `||` fallbacks; creating starts blank |
| SpyCatForm.Mount | frontend/src/components/SpyCatForm.tsx:15-23 | a mounted form has the initial draft, no errors and no breeds |
| SpyCatForm.BreedsLoaded | frontend/src/components/SpyCatForm.tsx:25-36 | the breeds arrive without touching draft or errors; a fetch offers the fetched names in order, a failed one the fallback |
| SpyCatForm.Validate | frontend/src/components/SpyCatForm.tsx:38-56 | each field has an error iff its rule fails, with that rule's message |
| SpyCatForm.ValidateForm | frontend/src/components/SpyCatForm.tsx:38-59 | the form is valid iff all four rules hold iff the new error map is empty |
| SpyCatForm.HandleSubmit | frontend/src/components/SpyCatForm.tsx:61-66 | the unchanged draft is handed on iff it is valid; the errors are refreshed either way |
| SpyCatForm.ApplyEdit | frontend/src/components/SpyCatForm.tsx:69-72 | an edit writes its value into its own field and leaves the other three |
| SpyCatForm.HandleChange | frontend/src/components/SpyCatForm.tsx:68-81 | the field is set, its shown error blanked, every other error kept, nothing re-validated |
| SpyCatForm.ValidationIndependent | frontend/src/components/SpyCatForm.tsx:41-55 | changing one field never changes another field's verdict |
| SpyCatForm.AllFourErrors | frontend/src/components/SpyCatForm.tsx:38-56 | a blank name, -1 years, no breed and -5 salary yield all four messages at once |
| ClientServer.ToServerBody | frontend/src/lib/api.ts:28-31 | the create request carries the draft's four fields unchanged |
| ClientServer.ValidDraftPassesServerValidators | backend/app/schemas.py:12-22 | every draft the form accepts passes the server's field validators |
| ClientServer.ServerAcceptsBlankName | frontend/src/components/SpyCatForm.tsx:41-43 | the server accepts a blank name that the form refuses |
| SpyCatList.HandleDelete | frontend/src/components/SpyCatList.tsx:16-25 | without confirmation nothing happens; with it the callback runs with the row marked, and the mark is cleared afterwards whatever the outcome |
| SpyCatList.RowOf | frontend/src/components/SpyCatList.tsx:113-119 | a row's Delete is disabled and reads "Deleting..." iff its cat is the one being deleted |
| SpyCatList.Render | frontend/src/components/SpyCatList.tsx:27-124 | loading wins, then an empty notice; otherwise the count and one row per cat in order |
| SpyCatList.OnlyDeletingRowDisabled | frontend/src/components/SpyCatList.tsx:114-115 | during a deletion only rows of that id are disabled, and afterwards none |
| Page.ErrorText | frontend/src/app/page.tsx:42 | a non-empty server detail is shown, otherwise the action's own message; never empty |
| Page.LoadCats | frontend/src/app/page.tsx:21-33 | success replaces the roster and clears the banner; failure keeps the roster and shows the load message; loading ends either way |
| Page.LoadCatsIdempotent | frontend/src/app/page.tsx:21-33 | loading twice with the same reply equals loading once |
| Page.HandleAddCat | frontend/src/app/page.tsx:35-46 | sends the draft; success appends the created cat and closes the form; failure only sets the banner |
| Page.ReplaceById | frontend/src/app/page.tsx:54-56 | same length; entries of that id become the reply, others stay in place |
| Page.HandleEditCat | frontend/src/app/page.tsx:48-65 | without a selection nothing is sent; otherwise only the salary is sent; success replaces the cat in place and closes the form, failure only sets the banner |
| Page.HandleDeleteCat | frontend/src/app/page.tsx:67-77 | success leaves exactly the cats of other ids, in order; failure only sets the banner |
| Page.DeleteOfAbsentIdKeepsRoster | frontend/src/app/page.tsx:70 | a successful delete of an id not on the roster keeps the roster |
| Page.ShowForm | frontend/src/app/page.tsx:139-146 | a form on screen keeps its state; otherwise a fresh one is mounted |
| Page.HandleEditClickAsWritten | frontend/src/app/page.tsx:79-82 | selects the cat and shows the form; an open form keeps its draft, otherwise a form is mounted with the clicked cat's fields |
| Page.HandleEditClick | frontend/src/app/page.tsx:79-82 | selects the cat and shows a form whose draft is that cat's fields |
| Page.AddClickAsWritten | frontend/src/app/page.tsx:101 | shows the form, keeping any selection and an open form's draft |
| Page.AddClick | frontend/src/app/page.tsx:101 | shows a blank form in create mode |
| Page.HandleCancelForm | frontend/src/app/page.tsx:84-87 | hides the form and drops the selection, nothing else |
| Page.Submit | frontend/src/app/page.tsx:143 | the form's errors are refreshed; an invalid draft sends nothing and changes nothing else; a valid one goes to the edit handler while a cat is selected, else to the add handler |
| Page.DeleteFromList | frontend/src/app/page.tsx:133 | a declined confirmation sends nothing; a confirmed one is the page's delete, and the list returns to idle |
| Page.ApplyKeepsConsistent | frontend/src/app/page.tsx:79-101 | every event, handled as page.tsx handles it, keeps "form mounted iff shown, selection only while shown" |
| Page.ApplyCorrectedKeepsConsistent | frontend/src/app/page.tsx:79-101 | the corrected Add and Edit clicks keep that consistency too |
| Page.SubmitKeepsConsistent | frontend/src/app/page.tsx:35-65 | submissions keep that consistency |
| Page.ReplayKeepsConsistent | frontend/src/app/page.tsx:79-101 | any sequence of events, handled as page.tsx handles them, keeps it |
| Page.InitialPageConsistent | frontend/src/app/page.tsx:10-14 | the first render is consistent, loading, with an empty roster |
| Page.SecondEditSendsStaleSalary | frontend/src/app/page.tsx:79-82 | replaying two Edit clicks through the page as written selects the second cat but keeps the first cat's draft, so submitting sends that salary for the second cat |
| Page.EditThenSubmitSendsOwnSalary | frontend/src/app/page.tsx:79-82 | corrected, a submission after Edit sends the clicked cat's own salary for it |
| Page.AddAfterEditStillUpdates | frontend/src/app/page.tsx:101 | replaying Edit then Add through the page as written keeps edit mode, so submitting updates the edited cat |
| Page.AddModeCreates | frontend/src/app/page.tsx:101 | corrected, a valid submission after Add is always a create |

## Left out

- SQL sessions, commits, refreshes, indexes and query ordering: tables are sequences in insertion order, and keys come from counters that are never reused.
- HTTP wiring (`main.py`, CORS, routing prefixes, JSON encoding and decoding) and the `spyCatAPI` wrappers. Each remote call is an input outcome.
- The breed catalogue fetch over the network: its outcome is a parameter. Malformed JSON from the catalogue is not modelled.
- Rendering, CSS, `toLocaleString`, console logging. `window.confirm` is a boolean input.
- `parseInt`/`parseFloat` on the number inputs: edits carry the parsed value.
- Concurrency and the interleaving of asynchronous calls. Events are applied one at a time, so two overlapping deletions, which share the list's single `deletingId` slot, are not modelled.
- Floating-point salaries, modelled as `real`.
- ExternalServices.Lower: lower-cases ASCII letters only; Python's `str.lower` also maps non-ASCII capitals.
- Page.ErrorText: the server's `detail` is taken as a string; a non-string detail (the 422 error list) is not modelled.
- Crud.UpdateTarget: requires every target's mission to exist, which the non-nullable foreign key guarantees. Without it the source would fail on the missing mission.
- Negative `skip` and `limit` in `Crud.GetSpyCats` and `Crud.GetMissions`: both are natural numbers here.
- Service.Handle: only the state-changing requests are composed; reads are covered route by route.
- The `Mission` and `Target` shapes in `types/index.ts` are not used by the modelled frontend.

## Findings

| source | as written | input that shows it | evidently intended | confidence | as-written member | corrected member |
|---|---|---|---|---|---|---|
| frontend/src/app/page.tsx:79-82 | the Edit click only sets the selection. The form has no `key`, so an open form is not re-mounted and keeps its draft | open Edit on cat 1 (salary 100), click Edit on cat 2 (salary 200), submit: `PUT /spy-cats/2` with salary 100 | the form shows the clicked cat | not executed; high | Page.SecondEditSendsStaleSalary | Page.EditThenSubmitSendsOwnSalary |
| frontend/src/app/page.tsx:101 | "Add Spy Cat" only sets `showForm`. A selected cat stays selected and the open edit form stays | Edit on cat 1, click "Add Spy Cat", submit: `PUT /spy-cats/1` instead of a create | the button opens a blank create form | not executed; high | Page.AddAfterEditStillUpdates | Page.AddModeCreates |
