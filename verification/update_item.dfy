/**
 `useUpdateItem(url, items, isEditing, itemToEdit)`: one PUT of a modified
 record to `${url}/${id}`. On success the first entry of the shared list with
 the same id is replaced (nothing happens when there is none) and the editing
 pair is cleared; on failure only the error slot changes. `isEditDisabled` is
 raised for the duration of the request and lowered in `finally`.
 */
module UpdateItem {
  import opened Optional
  import opened Entities
  import opened Http

  /** The unit's own refs and the three refs it is handed by the view. */
  datatype UpdateState<P> = UpdateState(
    items: seq<Entity<P>>,
    isEditing: bool,
    itemToEdit: Option<Entity<P>>,
    isEditDisabled: bool,
    error: Option<string>
  )

  function ErrorMessage(url: string): string {
    "Error updating item from " + url
  }

  /** `items.findIndex(item => item.id === id)`: a linear scan, -1 when nothing matches. */
  function FindIndex<P>(items: seq<Entity<P>>, id: Id): (r: int)
    ensures -1 <= r < |items|
    ensures r == -1 <==> NoMatch(items, id)
    ensures r != -1 ==> IsFirstMatch(items, id, r)
    decreases |items|
  {
    if |items| == 0 then -1
    else if items[0].id == id then 0
    else
      var r := FindIndex(items[1..], id);
      if r == -1 then -1 else r + 1
  }

  /** `items[index] = updated` at the `findIndex` result, skipped when it is -1. */
  function ReplaceFirst<P>(items: seq<Entity<P>>, updated: Entity<P>): (r: seq<Entity<P>>)
    ensures |r| == |items|
    ensures forall k :: IsFirstMatch(items, updated.id, k) ==>
      && r[k] == updated
      && forall i :: 0 <= i < |items| && i != k ==> r[i] == items[i]
    ensures NoMatch(items, updated.id) ==> r == items
  {
    var index := FindIndex(items, updated.id);
    if index != -1 then items[index := updated] else items
  }

  /** One call of `updateItem(updated)` whose request ends with `resp`. */
  function Update<P>(s: UpdateState<P>, url: string, updated: Entity<P>, resp: Response<()>): (c: Call<UpdateState<P>, Entity<P>>)
    ensures c.sent == Some(Request(Put, url + "/" + IdText(updated.id), Some(updated)))
    ensures c.pending == s.(isEditDisabled := true)
    ensures !c.after.isEditDisabled
    ensures resp.Ok? ==>
      && c.after.items == ReplaceFirst(s.items, updated)
      && !c.after.isEditing
      && c.after.itemToEdit == None
      && c.after.error == s.error
    ensures !resp.Ok? ==>
      && c.after.items == s.items
      && c.after.isEditing == s.isEditing
      && c.after.itemToEdit == s.itemToEdit
      && c.after.error == Some(if resp.NotOk? then ErrorMessage(url) else resp.message)
  {
    var pending := s.(isEditDisabled := true);
    var after :=
      match resp
      case Ok(_) =>
        pending.(items := ReplaceFirst(pending.items, updated), isEditing := false,
                 itemToEdit := None, isEditDisabled := false)
      case NotOk => pending.(error := Some(ErrorMessage(url)), isEditDisabled := false)
      case Rejected(message) => pending.(error := Some(message), isEditDisabled := false);
    Call(pending, after, Some(Request(Put, ItemTarget(url, updated.id), Some(updated))))
  }

  /**
   After a successful update the list holds the submitted record under its id:
   the first entry with that id is the submitted record whenever some entry had
   that id, and the sequence of ids is unchanged.
   */
  lemma ReplaceFirstKeepsIds<P>(items: seq<Entity<P>>, updated: Entity<P>)
    ensures var r := ReplaceFirst(items, updated);
      && (forall i :: 0 <= i < |r| ==> r[i].id == items[i].id)
      && (!NoMatch(items, updated.id) ==> r[FindIndex(r, updated.id)] == updated)
  {
  }

  /** Submitting the same record twice leaves the list as submitting it once. */
  lemma ReplaceFirstIdempotent<P>(items: seq<Entity<P>>, updated: Entity<P>)
    ensures ReplaceFirst(ReplaceFirst(items, updated), updated) == ReplaceFirst(items, updated)
  {
  }
}
