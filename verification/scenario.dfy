/**
 A CRUD screen composes the four units over one list. The lemmas here follow
 that list through a sequence of calls.
 */
module Scenario {
  import opened Optional
  import opened Entities
  import opened Http
  import FetchData
  import CreateItem
  import UpdateItem
  import DeleteItem

  function Named(n: SafeInteger, name: string): Entity<string> {
    Entity(NumberId(n), Missing, name)
  }

  function FetchedList(): seq<Entity<string>> {
    [Named(1, "a"), Named(3, "b"), Named(2, "c")]
  }

  /** A fetch of ids 1, 3, 2 stores that list, `maxId` 3 and, with no `schedules_id` anywhere, `maxSchedulesId` 0. */
  lemma FetchExample(url: string)
    ensures var after := FetchData.Fetch(FetchData.Initial(), url, Ok(FetchedList())).after;
      after.data == FetchedList() && after.maxId == 3 && after.maxSchedulesId == 0 && after.error == None
  {
    var maxId := FetchData.MaxWithZero(FetchData.IdNumbers(FetchedList()));
    assert FetchData.IdNumbers(FetchedList()) == [1, 3, 2];
    if maxId != 0 {
      var i :| 0 <= i < 3 && [1, 3, 2][i] == maxId;
      assert i == 0 || i == 1 || i == 2;
    }
    assert !FetchData.AnyHasSchedulesField(FetchedList());
  }

  /**
   A create the server answers with record 4 hands record 4 to the callback.
   The app posts a new record before any id is assigned; the posted record's
   id 0 here is only a placeholder, and the id that counts is the one in the
   server's reply.
   */
  lemma CreateExample(url: string, cb: CreateItem.Callback<Entity<string>>)
    requires cb(Named(4, "x")) == None
    ensures var r := CreateItem.Create(CreateItem.Initial(), url, Named(0, "x"), Ok(Named(4, "x")), cb);
      r.delivered == [Named(4, "x")] && r.call.after.data == [Named(4, "x")] && r.call.after.error == None
  {
  }

  /** Renaming record 2 in the list 1, 3, 2, 4 replaces it in place and closes the editor. */
  lemma UpdateExample(url: string)
    ensures var before := FetchedList() + [Named(4, "x")];
      var after := UpdateItem.Update(UpdateItem.UpdateState(before, true, Some(Named(2, "c")), false, None), url, Named(2, "y"), Ok(())).after;
      && after.items == [Named(1, "a"), Named(3, "b"), Named(2, "y"), Named(4, "x")]
      && !after.isEditing && after.itemToEdit == None
  {
  }

  /** A confirmed, successful delete of record 2 from the list 1, 3, 2, 4 leaves 1, 3, 4. */
  lemma DeleteExample(url: string)
    ensures var before := [Named(1, "a"), Named(3, "b"), Named(2, "y"), Named(4, "x")];
      DeleteItem.Delete(DeleteItem.DeleteState(before, false, None), url, NumberId(2), true, Ok(())).after.items
        == [Named(1, "a"), Named(3, "b"), Named(4, "x")]
  {
  }

  /**
   One screen's list through a whole round: fetched, extended by the create
   callback, renamed, then shortened by a delete, every request succeeding.
   As in `CreateExample`, the posted record's id 0 is a placeholder.
   */
  lemma CrudRoundOnOneList(url: string, cb: CreateItem.Callback<Entity<string>>)
    requires cb(Named(4, "x")) == None
    ensures var fetched := FetchData.Fetch(FetchData.Initial(), url, Ok(FetchedList())).after;
      var created := CreateItem.Create(CreateItem.Initial(), url, Named(0, "x"), Ok(Named(4, "x")), cb);
      var updated := UpdateItem.Update(UpdateItem.UpdateState(fetched.data + created.delivered, true, Some(Named(2, "c")), false, None), url, Named(2, "y"), Ok(())).after;
      DeleteItem.Delete(DeleteItem.DeleteState(updated.items, false, None), url, NumberId(2), true, Ok(())).after.items
        == [Named(1, "a"), Named(3, "b"), Named(4, "x")]
  {
    FetchExample(url);
    CreateExample(url, cb);
    UpdateExample(url);
    DeleteExample(url);
  }

  /**
   An update whose record a confirmed, successful delete has already removed
   from the list succeeds on the server yet leaves the list as the delete left
   it, while still closing the editor.
   */
  lemma UpdateAfterDeleteIsStale<P>(d: DeleteItem.DeleteState<P>, url: string, updated: Entity<P>, itemToEdit: Option<Entity<P>>, updateError: Option<string>)
    ensures var remaining := DeleteItem.Delete(d, url, updated.id, true, Ok(())).after.items;
      var after := UpdateItem.Update(UpdateItem.UpdateState(remaining, true, itemToEdit, false, updateError), url, updated, Ok(())).after;
      && after.items == remaining
      && !after.isEditing
      && after.itemToEdit == None
  {
  }

  /**
   Strict equality: a list fetched with numeric ids loses nothing when
   `deleteItem` is given the id as a string, though the DELETE request names
   the same record.
   */
  lemma TextIdDeletesNoNumericEntry<P>(items: seq<Entity<P>>, url: string, n: SafeInteger)
    requires forall i :: 0 <= i < |items| ==> items[i].id.NumberId?
    ensures DeleteItem.RemoveId(items, TextId(n)) == items
    ensures ItemTarget(url, TextId(n)) == ItemTarget(url, NumberId(n))
  {
    DeleteItem.RemoveAbsentIdKeepsList(items, TextId(n));
  }
}
