/** The roster of spy cats: what it renders for a given list and loading
    flag, and the confirm-then-delete flow of its per-row button. */
module SpyCatList {
  import opened Base
  import opened CatTypes

  /** The component's own state: the id whose deletion is in flight, if any.
      It is a single slot, so one deletion at a time is tracked. */
  datatype ListState = ListState(deletingId: Option<int>)

  const Idle: ListState := ListState(None)

  /** What one click on a Delete button does: whether the parent's delete
      callback runs, the state while it is awaited, and the state after. */
  datatype DeleteClick = DeleteClick(invoked: Option<int>, during: ListState, after: ListState)

  /** `handleDelete`: nothing happens unless the user confirms; otherwise the
      row is marked as deleting while the callback runs and the mark is
      cleared afterwards whatever the callback's outcome. */
  function HandleDelete(l: ListState, id: int, confirmed: bool): (r: DeleteClick)
    ensures !confirmed ==> r.invoked.None? && r.during == l && r.after == l
    ensures confirmed ==> r.invoked == Some(id) && r.during.deletingId == Some(id)
    ensures confirmed ==> r.after == Idle
  {
    if confirmed then DeleteClick(Some(id), ListState(Some(id)), ListState(None))
    else DeleteClick(None, l, l)
  }

  /** Whether the Delete button of the row for cat `id` is disabled. */
  predicate DeleteDisabled(l: ListState, id: int)
  {
    l.deletingId == Some(id)
  }

  /** One rendered row: the cat shown and the state of its Delete button. */
  datatype Row = Row(cat: SpyCat, deleteDisabled: bool, deleteLabel: string)

  const DeleteLabel: string := "Delete"
  const DeletingLabel: string := "Deleting..."

  /** What the component renders. */
  datatype View = LoadingView | EmptyView | RosterView(count: nat, rows: seq<Row>)

  function RowOf(l: ListState, cat: SpyCat): (r: Row)
    ensures r.cat == cat
    ensures r.deleteDisabled <==> DeleteDisabled(l, cat.id)
    ensures r.deleteLabel == (if DeleteDisabled(l, cat.id) then DeletingLabel else DeleteLabel)
  {
    var busy := l.deletingId == Some(cat.id);
    Row(cat, busy, if busy then DeletingLabel else DeleteLabel)
  }

  /** The view: the loading skeleton takes precedence, then the empty notice;
      otherwise a header with the count and one row per cat, in list order. */
  function Render(cats: seq<SpyCat>, isLoading: bool, l: ListState): (v: View)
    ensures isLoading <==> v.LoadingView?
    ensures v.EmptyView? <==> !isLoading && cats == []
    ensures v.RosterView? ==> v.count == |cats| == |v.rows| > 0
    ensures v.RosterView? ==> forall i :: 0 <= i < |cats| ==>
      v.rows[i].cat == cats[i] && (v.rows[i].deleteDisabled <==> DeleteDisabled(l, cats[i].id))
  {
    if isLoading then LoadingView
    else if |cats| == 0 then EmptyView
    else RosterView(|cats|, seq(|cats|, i requires 0 <= i < |cats| => RowOf(l, cats[i])))
  }

  /** While nothing is being deleted, every Delete button is enabled; while a
      deletion is in flight exactly the rows of that id are disabled. */
  lemma OnlyDeletingRowDisabled(cats: seq<SpyCat>, id: int)
    requires cats != []
    ensures var click := HandleDelete(Idle, id, true);
      && Render(cats, false, click.during).RosterView?
      && (forall i :: 0 <= i < |cats| ==>
            (Render(cats, false, click.during).rows[i].deleteDisabled <==> cats[i].id == id))
      && (forall i :: 0 <= i < |cats| ==> !Render(cats, false, click.after).rows[i].deleteDisabled)
  {
  }
}
