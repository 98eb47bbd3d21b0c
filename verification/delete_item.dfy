/**
 `useDeleteItem(url, items)`: asks the user to confirm, then sends one DELETE
 to `${url}/${id}`. On success every entry of the shared list with that id is
 filtered out; on failure only the error slot changes. A declined confirmation
 ends the call before anything happens. `isDeleteDisabled` is raised once the
 user has confirmed and lowered in `finally`.
 */
module DeleteItem {
  import opened Optional
  import opened Entities
  import opened Http

  /** The unit's own refs and the list it is handed by the view. */
  datatype DeleteState<P> = DeleteState(items: seq<Entity<P>>, isDeleteDisabled: bool, error: Option<string>)

  const ErrorMessage := "Error deleting item"

  /** `items.filter(item => item.id !== id)`. */
  function RemoveId<P>(items: seq<Entity<P>>, id: Id): (r: seq<Entity<P>>)
    ensures |r| <= |items|
    ensures NoMatch(r, id)
    ensures forall i :: 0 <= i < |r| ==> r[i] in items
    decreases |items|
  {
    if |items| == 0 then []
    else if items[0].id != id then [items[0]] + RemoveId(items[1..], id)
    else RemoveId(items[1..], id)
  }

  /** `a` is `b` with some entries dropped and the rest in their original order. */
  ghost predicate IsSubsequence<T>(a: seq<T>, b: seq<T>)
    decreases |b|
  {
    if |a| == 0 then true
    else if |b| == 0 then false
    else (a[0] == b[0] && IsSubsequence(a[1..], b[1..])) || IsSubsequence(a, b[1..])
  }

  /** The filtered list keeps entries in their original relative order. */
  lemma {:induction false} RemoveIdIsSubsequence<P>(items: seq<Entity<P>>, id: Id)
    ensures IsSubsequence(RemoveId(items, id), items)
    decreases |items|
  {
    if |items| > 0 {
      RemoveIdIsSubsequence(items[1..], id);
      var r := RemoveId(items, id);
      if items[0].id != id {
        assert r[1..] == RemoveId(items[1..], id);
      }
    }
  }

  /**
   Nothing but the deleted id goes: every entry with another id is kept as
   often as it occurred, and no entry with the deleted id is left.
   */
  lemma {:induction false} RemoveIdKeepsOthers<P>(items: seq<Entity<P>>, id: Id)
    ensures forall e: Entity<P> :: e.id != id ==> multiset(RemoveId(items, id))[e] == multiset(items)[e]
    ensures forall e: Entity<P> :: e.id == id ==> multiset(RemoveId(items, id))[e] == 0
    decreases |items|
  {
    if |items| > 0 {
      RemoveIdKeepsOthers(items[1..], id);
      assert items == [items[0]] + items[1..];
      assert multiset(items) == multiset([items[0]]) + multiset(items[1..]);
    }
  }

  /** Deleting an id no entry carries leaves the list as it was. */
  lemma {:induction false} RemoveAbsentIdKeepsList<P>(items: seq<Entity<P>>, id: Id)
    requires NoMatch(items, id)
    ensures RemoveId(items, id) == items
    decreases |items|
  {
    if |items| > 0 {
      RemoveAbsentIdKeepsList(items[1..], id);
      assert items == [items[0]] + items[1..];
    }
  }

  /** Deleting an id a second time changes nothing. */
  lemma {:induction false} RemoveIdIdempotent<P>(items: seq<Entity<P>>, id: Id)
    ensures RemoveId(RemoveId(items, id), id) == RemoveId(items, id)
    decreases |items|
  {
    if |items| > 0 {
      RemoveIdIdempotent(items[1..], id);
      var r := RemoveId(items[1..], id);
      if items[0].id != id {
        assert ([items[0]] + r)[1..] == r;
      }
    }
  }

  /** One call of `deleteItem(id)`: `confirmed` is the user's answer, `resp` how the request ends. */
  function Delete<P>(s: DeleteState<P>, url: string, id: Id, confirmed: bool, resp: Response<()>): (c: Call<DeleteState<P>, ()>)
    ensures !confirmed ==> c.sent == None && c.pending == s && c.after == s
    ensures confirmed ==>
      && c.sent == Some(Request(Verb.Delete, url + "/" + IdText(id), None))
      && c.pending == s.(isDeleteDisabled := true)
      && !c.after.isDeleteDisabled
    ensures confirmed && resp.Ok? ==>
      && c.after.items == RemoveId(s.items, id)
      && c.after.error == s.error
    ensures confirmed && !resp.Ok? ==>
      && c.after.items == s.items
      && c.after.error == Some(if resp.NotOk? then ErrorMessage else resp.message)
  {
    if !confirmed then Call(s, s, None)
    else
      var pending := s.(isDeleteDisabled := true);
      var after :=
        match resp
        case Ok(_) => pending.(items := RemoveId(pending.items, id), isDeleteDisabled := false)
        case NotOk => pending.(error := Some(ErrorMessage), isDeleteDisabled := false)
        case Rejected(message) => pending.(error := Some(message), isDeleteDisabled := false);
      Call(pending, after, Some(Request(Verb.Delete, ItemTarget(url, id), None)))
  }
}
