/** The spy-cat management page: the roster it holds, the form it shows,
    the error banner, and how each user action and server reply moves it. */
module Page {
  import opened Base
  import opened CatTypes
  import Api
  import Catalogue
  import SpyCatForm
  import SpyCatList

  /** The page's state. `form` is the mounted form component, present while
      the form is shown; it keeps its own draft and errors between renders. */
  datatype PageState = PageState(
    cats: seq<SpyCat>, loading: bool, showForm: bool,
    editingCat: Option<SpyCat>, error: string,
    form: Option<SpyCatForm.FormState>)

  /** The page as first rendered, before the roster arrives. */
  const InitialPage: PageState := PageState([], true, false, None, "", None)

  const LoadFailed: string := "Failed to load spy cats. Please try again."
  const CreateFailed: string := "Failed to create spy cat"
  const UpdateFailed: string := "Failed to update spy cat"
  const DeleteFailed: string := "Failed to delete spy cat"

  /** A request the page sends to the backend. */
  datatype Call =
    | NoCall
    | CreateCall(body: SpyCatCreate)
    | UpdateCall(id: int, update: SpyCatUpdate)
    | DeleteCall(id: int)

  /** The request an action sends (if any) and the page afterwards. */
  datatype Outcome = Outcome(call: Call, state: PageState)

  /** The banner text after a failed call: the server's `detail` when it is a
      non-empty string, the action's own message otherwise (JavaScript `||`). */
  function ErrorText(detail: Option<string>, fallback: string): (msg: string)
    ensures fallback != "" ==> msg != ""
    ensures msg == fallback || (detail.Some? && msg == detail.value)
    ensures detail.Some? && detail.value != "" ==> msg == detail.value
  {
    if detail.Some? && detail.value != "" then detail.value else fallback
  }

  // ---------------------------------------------------------------------
  // Loading the roster
  // ---------------------------------------------------------------------

  /** `loadCats`, once the list request has settled: the roster is replaced and
      the banner cleared on success; on failure the old roster stays and the
      fixed load message is shown. Loading is over either way. */
  function LoadCats(s: PageState, reply: Api.Remote<seq<SpyCat>>): (r: PageState)
    ensures !r.loading
    ensures reply.Ok? ==> r.cats == reply.value && r.error == ""
    ensures reply.Err? ==> r.cats == s.cats && r.error == LoadFailed
    ensures r.showForm == s.showForm && r.editingCat == s.editingCat && r.form == s.form
  {
    match reply
    case Ok(data) => s.(loading := false, cats := data, error := "")
    case Err(_) => s.(loading := false, error := LoadFailed)
  }

  /** Reloading with the same reply changes nothing more. */
  lemma LoadCatsIdempotent(s: PageState, reply: Api.Remote<seq<SpyCat>>)
    ensures LoadCats(LoadCats(s, reply), reply) == LoadCats(s, reply)
  {
  }

  // ---------------------------------------------------------------------
  // Create, update, delete
  // ---------------------------------------------------------------------

  /** `handleAddCat`: sends the draft as a create request; the created cat is
      appended and the form closed, or the banner explains the failure. */
  function HandleAddCat(s: PageState, body: SpyCatCreate, reply: Api.Remote<SpyCat>): (o: Outcome)
    ensures o.call == CreateCall(body)
    ensures reply.Ok? ==> o.state.cats == s.cats + [reply.value]
    ensures reply.Ok? ==> !o.state.showForm && o.state.form.None? && o.state.error == ""
    ensures reply.Err? ==> o.state == s.(error := ErrorText(reply.detail, CreateFailed))
    ensures reply.Err? ==> o.state.error != ""
    ensures o.state.editingCat == s.editingCat && o.state.loading == s.loading
  {
    match reply
    case Ok(created) => Outcome(CreateCall(body), s.(cats := s.cats + [created], showForm := false, form := None, error := ""))
    case Err(detail) => Outcome(CreateCall(body), s.(error := ErrorText(detail, CreateFailed)))
  }

  /** The roster with every cat of id `id` replaced by `updated`. */
  function ReplaceById(cats: seq<SpyCat>, id: int, updated: SpyCat): (r: seq<SpyCat>)
    ensures |r| == |cats|
    ensures forall i :: 0 <= i < |cats| ==> r[i] == (if cats[i].id == id then updated else cats[i])
  {
    seq(|cats|, i requires 0 <= i < |cats| => if cats[i].id == id then updated else cats[i])
  }

  /** `handleEditCat`: without a cat being edited nothing is sent. Otherwise
      only the draft's salary is sent for the edited cat's id; the reply
      replaces that cat in place and the form closes, or the banner explains
      the failure. */
  function HandleEditCat(s: PageState, body: SpyCatCreate, reply: Api.Remote<SpyCat>): (o: Outcome)
    ensures s.editingCat.None? ==> o == Outcome(NoCall, s)
    ensures s.editingCat.Some? ==> o.call == UpdateCall(s.editingCat.value.id, SpyCatUpdate(body.salary))
    ensures s.editingCat.Some? && reply.Ok? ==>
      && o.state.cats == ReplaceById(s.cats, s.editingCat.value.id, reply.value)
      && o.state.editingCat.None? && !o.state.showForm && o.state.form.None? && o.state.error == ""
      && o.state.loading == s.loading
    ensures s.editingCat.Some? && reply.Err? ==> o.state == s.(error := ErrorText(reply.detail, UpdateFailed))
  {
    match s.editingCat
    case None => Outcome(NoCall, s)
    case Some(editing) =>
      var call := UpdateCall(editing.id, SpyCatUpdate(body.salary));
      match reply
      case Ok(updated) =>
        Outcome(call, s.(cats := ReplaceById(s.cats, editing.id, updated), editingCat := None, showForm := false, form := None, error := ""))
      case Err(detail) => Outcome(call, s.(error := ErrorText(detail, UpdateFailed)))
  }

  /** Whether the cat is not the one of id `id` (the roster filter of a delete). */
  predicate Survives(id: int, cat: SpyCat) { cat.id != id }

  /** `handleDeleteCat`: sends the delete; on success every cat of that id
      leaves the roster and the rest keep their order. */
  function HandleDeleteCat(s: PageState, id: int, reply: Api.Remote<()>): (o: Outcome)
    ensures o.call == DeleteCall(id)
    ensures reply.Ok? ==> o.state == s.(cats := Filter(s.cats, c => Survives(id, c)), error := "")
    ensures reply.Ok? ==> forall c :: c in o.state.cats <==> c in s.cats && c.id != id
    ensures reply.Err? ==> o.state == s.(error := ErrorText(reply.detail, DeleteFailed))
  {
    match reply
    case Ok(_) => Outcome(DeleteCall(id), s.(cats := Filter(s.cats, c => Survives(id, c)), error := ""))
    case Err(detail) => Outcome(DeleteCall(id), s.(error := ErrorText(detail, DeleteFailed)))
  }

  /** A successful delete of a cat whose id is not on the roster leaves the
      roster as it was. */
  lemma DeleteOfAbsentIdKeepsRoster(s: PageState, id: int)
    requires forall i :: 0 <= i < |s.cats| ==> s.cats[i].id != id
    ensures HandleDeleteCat(s, id, Api.Ok(())).state.cats == s.cats
  {
    FilterKeepsAll(s.cats, c => Survives(id, c));
  }

  // ---------------------------------------------------------------------
  // Showing and hiding the form
  // ---------------------------------------------------------------------

  /** The form component after the page shows it: a form already on screen
      keeps its state; otherwise a new one is mounted for `cat`. */
  function ShowForm(s: PageState, cat: Option<SpyCat>): (f: SpyCatForm.FormState)
    ensures s.form.Some? ==> f == s.form.value
    ensures s.form.None? ==> f == SpyCatForm.Mount(cat)
  {
    if s.form.Some? then s.form.value else SpyCatForm.Mount(cat)
  }

  /** `handleEditClick` as the page is written: the cat is selected and the
      form shown, but a form already on screen is not re-mounted, so it keeps
      the draft it had. */
  function HandleEditClickAsWritten(s: PageState, cat: SpyCat): (r: PageState)
    ensures r.editingCat == Some(cat) && r.showForm
    ensures s.form.Some? ==> r.form == s.form
    ensures s.form.None? ==> r.form == Some(SpyCatForm.Mount(Some(cat)))
    ensures r.cats == s.cats && r.error == s.error && r.loading == s.loading
  {
    s.(editingCat := Some(cat), showForm := true, form := Some(ShowForm(s, Some(cat))))
  }

  /** `handleEditClick` with the form re-mounted for the clicked cat, so that
      its draft always shows that cat. */
  function HandleEditClick(s: PageState, cat: SpyCat): (r: PageState)
    ensures r.editingCat == Some(cat) && r.showForm
    ensures r.form.Some? && r.form.value.errors == map[]
    ensures r.form.Some? && r.form.value.draft ==
      SpyCatCreate(cat.name, cat.yearsOfExperience, cat.breed, cat.salary)
    ensures r.cats == s.cats && r.error == s.error && r.loading == s.loading
  {
    s.(editingCat := Some(cat), showForm := true, form := Some(SpyCatForm.Mount(Some(cat))))
  }

  /** The "Add Spy Cat" button as the page is written: it shows the form and
      nothing else, so a cat still selected stays selected (the form stays in
      edit mode) and a form already on screen keeps its draft. */
  function AddClickAsWritten(s: PageState): (r: PageState)
    ensures r.showForm && r.form.Some?
    ensures r.editingCat == s.editingCat && r.cats == s.cats && r.error == s.error && r.loading == s.loading
    ensures s.form.None? ==> r.form == Some(SpyCatForm.Mount(s.editingCat))
    ensures s.form.Some? ==> r.form == s.form
  {
    s.(showForm := true, form := Some(ShowForm(s, s.editingCat)))
  }

  /** The "Add Spy Cat" button with the selection dropped and a blank form
      mounted, so that the form is in create mode. */
  function AddClick(s: PageState): (r: PageState)
    ensures r.showForm && r.editingCat.None?
    ensures r.form == Some(SpyCatForm.Mount(None))
    ensures r.cats == s.cats && r.error == s.error && r.loading == s.loading
  {
    s.(showForm := true, editingCat := None, form := Some(SpyCatForm.Mount(None)))
  }

  /** `handleCancelForm`: hides the form and drops the selection. */
  function HandleCancelForm(s: PageState): (r: PageState)
    ensures !r.showForm && r.form.None? && r.editingCat.None?
    ensures r.cats == s.cats && r.error == s.error && r.loading == s.loading
  {
    s.(showForm := false, editingCat := None, form := None)
  }

  // ---------------------------------------------------------------------
  // Submitting and deleting from the roster
  // ---------------------------------------------------------------------

  /** The form's submit: it validates its draft; a valid draft goes to
      `handleEditCat` while a cat is selected and to `handleAddCat` otherwise.
      Without a form on screen there is nothing to submit. */
  function Submit(s: PageState, reply: Api.Remote<SpyCat>): (o: Outcome)
    ensures s.form.None? ==> o == Outcome(NoCall, s)
    ensures s.form.Some? && !SpyCatForm.DraftValid(s.form.value.draft) ==>
      o.call == NoCall && o.state.cats == s.cats && o.state.form.Some?
      && o.state.form.value.errors == SpyCatForm.Validate(s.form.value.draft)
    ensures s.form.Some? && SpyCatForm.DraftValid(s.form.value.draft) && s.editingCat.Some? ==>
      o.call == UpdateCall(s.editingCat.value.id, SpyCatUpdate(s.form.value.draft.salary))
    ensures s.form.Some? && SpyCatForm.DraftValid(s.form.value.draft) && s.editingCat.None? ==>
      o.call == CreateCall(s.form.value.draft)
    ensures s.form.Some? ==>
      var checked := s.(form := Some(SpyCatForm.HandleSubmit(s.form.value).state));
      && (!SpyCatForm.DraftValid(s.form.value.draft) ==> o == Outcome(NoCall, checked))
      && (SpyCatForm.DraftValid(s.form.value.draft) && s.editingCat.Some? ==>
            o == HandleEditCat(checked, s.form.value.draft, reply))
      && (SpyCatForm.DraftValid(s.form.value.draft) && s.editingCat.None? ==>
            o == HandleAddCat(checked, s.form.value.draft, reply))
  {
    match s.form
    case None => Outcome(NoCall, s)
    case Some(f) =>
      var submitted := SpyCatForm.HandleSubmit(f);
      var s' := s.(form := Some(submitted.state));
      match submitted.emitted
      case None => Outcome(NoCall, s')
      case Some(draft) =>
        if s.editingCat.Some? then HandleEditCat(s', draft, reply) else HandleAddCat(s', draft, reply)
  }

  /** A Delete click on the roster: the list's confirm-and-mark flow around
      the page's `handleDeleteCat`. Declining the confirmation sends nothing. */
  function DeleteFromList(s: PageState, l: SpyCatList.ListState, id: int, confirmed: bool, reply: Api.Remote<()>)
    : (r: (Outcome, SpyCatList.ListState))
    ensures !confirmed ==> r == (Outcome(NoCall, s), l)
    ensures confirmed ==> r.0 == HandleDeleteCat(s, id, reply) && r.1 == SpyCatList.Idle
  {
    var click := SpyCatList.HandleDelete(l, id, confirmed);
    match click.invoked
    case None => (Outcome(NoCall, s), click.after)
    case Some(target) => (HandleDeleteCat(s, target, reply), click.after)
  }

  // ---------------------------------------------------------------------
  // The page as a whole
  // ---------------------------------------------------------------------

  /** Everything that can happen to the page. */
  datatype Event =
    | RosterLoaded(roster: Api.Remote<seq<SpyCat>>)
    | AddClicked
    | EditClicked(cat: SpyCat)
    | CancelClicked
    | FieldChanged(edit: SpyCatForm.Edit)
    | BreedsArrived(breeds: Api.Remote<seq<Catalogue.BreedRecord>>)
    | SubmitClicked(saved: Api.Remote<SpyCat>)
    | DeleteClicked(id: int, confirmed: bool, deleted: Api.Remote<()>)

  /** The page after one event, with the handlers as page.tsx writes them. */
  function Apply(s: PageState, e: Event): PageState
  {
    match e
    case RosterLoaded(roster) => LoadCats(s, roster)
    case AddClicked => AddClickAsWritten(s)
    case EditClicked(cat) => HandleEditClickAsWritten(s, cat)
    case CancelClicked => HandleCancelForm(s)
    case FieldChanged(edit) =>
      if s.form.Some? then s.(form := Some(SpyCatForm.HandleChange(s.form.value, edit))) else s
    case BreedsArrived(breeds) =>
      if s.form.Some? then s.(form := Some(SpyCatForm.BreedsLoaded(s.form.value, breeds))) else s
    case SubmitClicked(saved) => Submit(s, saved).state
    case DeleteClicked(id, confirmed, deleted) => DeleteFromList(s, SpyCatList.Idle, id, confirmed, deleted).0.state
  }

  /** The form is mounted exactly while it is shown, and a selected cat is
      always being shown in it. */
  predicate Consistent(s: PageState)
  {
    && (s.form.Some? <==> s.showForm)
    && (s.editingCat.Some? ==> s.showForm)
  }

  /** Every event keeps the page consistent. */
  lemma ApplyKeepsConsistent(s: PageState, e: Event)
    requires Consistent(s)
    ensures Consistent(Apply(s, e))
  {
    match e
    case SubmitClicked(saved) => SubmitKeepsConsistent(s, saved);
    case _ =>
  }

  lemma SubmitKeepsConsistent(s: PageState, reply: Api.Remote<SpyCat>)
    requires Consistent(s)
    ensures Consistent(Submit(s, reply).state)
  {
  }

  /** The page after one event, with the corrected Add and Edit clicks. */
  function ApplyCorrected(s: PageState, e: Event): PageState
  {
    match e
    case AddClicked => AddClick(s)
    case EditClicked(cat) => HandleEditClick(s, cat)
    case _ => Apply(s, e)
  }

  /** The corrected clicks keep the page consistent too. */
  lemma ApplyCorrectedKeepsConsistent(s: PageState, e: Event)
    requires Consistent(s)
    ensures Consistent(ApplyCorrected(s, e))
  {
    ApplyKeepsConsistent(s, e);
  }

  /** The page after a sequence of events. */
  function Replay(s: PageState, events: seq<Event>): PageState
    decreases |events|
  {
    if events == [] then s else Replay(Apply(s, events[0]), events[1..])
  }

  /** From the first render on, the page stays consistent whatever happens. */
  lemma {:induction false} ReplayKeepsConsistent(s: PageState, events: seq<Event>)
    requires Consistent(s)
    ensures Consistent(Replay(s, events))
    decreases |events|
  {
    if events != [] {
      ApplyKeepsConsistent(s, events[0]);
      ReplayKeepsConsistent(Apply(s, events[0]), events[1..]);
    }
  }

  lemma InitialPageConsistent()
    ensures Consistent(InitialPage) && InitialPage.loading && InitialPage.cats == []
  {
  }

  // ---------------------------------------------------------------------
  // The form is not re-mounted when the selection changes
  // ---------------------------------------------------------------------

  const Whiskers: SpyCat := SpyCat(1, "Whiskers", 3, "Bengal", 100.0)
  const Shadow: SpyCat := SpyCat(2, "Shadow", 5, "Persian", 200.0)

  /** As written, clicking Edit on a second cat while the first one's form is
      open leaves the first cat's draft in place, and submitting it sends the
      first cat's salary as the second cat's update. */
  lemma SecondEditSendsStaleSalary()
    ensures var switched := Replay(InitialPage.(loading := false), [EditClicked(Whiskers), EditClicked(Shadow)]);
      && switched.editingCat == Some(Shadow)
      && switched.form.Some? && switched.form.value.draft.name == Whiskers.name
      && Submit(switched, Api.Ok(Shadow)).call == UpdateCall(Shadow.id, SpyCatUpdate(Whiskers.salary))
  {
    var start := InitialPage.(loading := false);
    var events := [EditClicked(Whiskers), EditClicked(Shadow)];
    var open := Apply(start, events[0]);
    assert events[1..][0] == EditClicked(Shadow) && events[1..][1..] == [];
    assert Replay(open, events[1..]) == Apply(open, EditClicked(Shadow));
    assert Replay(start, events) == Replay(open, events[1..]);
  }

  /** With the form re-mounted, submitting straight after an Edit click sends
      the clicked cat's own salary for that cat, whatever was on screen. */
  lemma EditThenSubmitSendsOwnSalary(s: PageState, cat: SpyCat, reply: Api.Remote<SpyCat>)
    requires SpyCatForm.DraftValid(SpyCatCreate(cat.name, cat.yearsOfExperience, cat.breed, cat.salary))
    ensures Submit(HandleEditClick(s, cat), reply).call == UpdateCall(cat.id, SpyCatUpdate(cat.salary))
  {
  }

  /** As written, clicking "Add Spy Cat" while a cat's form is open keeps the
      form in edit mode: submitting it updates that cat instead of creating one. */
  lemma AddAfterEditStillUpdates()
    ensures var added := Replay(InitialPage.(loading := false), [EditClicked(Whiskers), AddClicked]);
      && added.editingCat == Some(Whiskers)
      && Submit(added, Api.Ok(Whiskers)).call == UpdateCall(Whiskers.id, SpyCatUpdate(Whiskers.salary))
  {
    var start := InitialPage.(loading := false);
    var events := [EditClicked(Whiskers), AddClicked];
    var open := Apply(start, events[0]);
    assert events[1..][0] == AddClicked && events[1..][1..] == [];
    assert Replay(open, events[1..]) == Apply(open, AddClicked);
    assert Replay(start, events) == Replay(open, events[1..]);
    var added := Apply(open, AddClicked);
    assert added.editingCat == Some(Whiskers) && added.form == open.form;
    assert added.form.value.draft == SpyCatCreate(Whiskers.name, Whiskers.yearsOfExperience, Whiskers.breed, Whiskers.salary);
    assert !SpyCatForm.IsWhitespace(Whiskers.name[0]);
    assert SpyCatForm.DraftValid(added.form.value.draft);
  }

  /** With the selection dropped, whatever is typed into the form after
      "Add Spy Cat" is sent as a create request once it validates. */
  lemma AddModeCreates(s: PageState, f: SpyCatForm.FormState, reply: Api.Remote<SpyCat>)
    requires SpyCatForm.DraftValid(f.draft)
    ensures Submit(AddClick(s).(form := Some(f)), reply).call == CreateCall(f.draft)
  {
  }
}
