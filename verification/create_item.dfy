/**
 `useCreateItem(url)`: one POST of a new record. On success the record the
 server returns is appended to a list private to the unit, and then handed to
 the caller's `updateData` callback; the callback may throw, in which case the
 append stays and the error slot records the throw.
 */
module CreateItem {
  import opened Optional
  import opened Http

  datatype CreateState<T> = CreateState(data: seq<T>, error: Option<string>, isLoading: bool)

  /**
   The caller's `updateData` callback, reduced to how it ends for a given
   record: None when it returns, Some(message) when it throws.
   */
  type Callback<!T> = T -> Option<string>

  /** A call together with the arguments the callback was invoked with, in order. */
  datatype CreateCall<T> = CreateCall(call: Call<CreateState<T>, T>, delivered: seq<T>)

  /** The refs as `useCreateItem` creates them. */
  function Initial<T>(): CreateState<T> {
    CreateState([], None, false)
  }

  function ErrorMessage(url: string): string {
    "Error adding new item from " + url
  }

  /**
   What the `try`/`catch`/`finally` blocks do once the awaited request has
   ended: the state afterwards and the arguments the callback was invoked with.
   */
  function Settle<T>(s: CreateState<T>, url: string, resp: Response<T>, updateData: Callback<T>): (CreateState<T>, seq<T>) {
    match resp
    case Ok(added) =>
      var appended := s.data + [added];
      var error := match updateData(added) case Some(message) => Some(message) case None => s.error;
      (s.(data := appended, error := error, isLoading := false), [added])
    case NotOk => (s.(error := Some(ErrorMessage(url)), isLoading := false), [])
    case Rejected(message) => (s.(error := Some(message), isLoading := false), [])
  }

  /** One call of `createItem(newItem, updateData)` whose request ends with `resp`. */
  function Create<T>(s: CreateState<T>, url: string, newItem: T, resp: Response<T>, updateData: Callback<T>): (r: CreateCall<T>)
    ensures r.call.sent == Some(Request(Post, url, Some(newItem)))
    ensures r.call.pending == s.(isLoading := true)
    ensures !r.call.after.isLoading
    ensures resp.Ok? ==>
      && |r.call.after.data| == |s.data| + 1
      && r.call.after.data[..|s.data|] == s.data
      && r.call.after.data[|s.data|] == resp.body
      && r.delivered == [resp.body]
      && r.call.after.error == (if updateData(resp.body).Some? then updateData(resp.body) else s.error)
    ensures !resp.Ok? ==>
      && r.call.after.data == s.data
      && r.delivered == []
      && r.call.after.error == Some(if resp.NotOk? then ErrorMessage(url) else resp.message)
  {
    var pending := s.(isLoading := true);
    var (after, delivered) := Settle(pending, url, resp, updateData);
    CreateCall(Call(pending, after, Some(Request(Post, url, Some(newItem)))), delivered)
  }

  /**
   Successive calls `createItem(newItems[k], callbacks[k])`, the k-th answered
   by `Ok(bodies[k])`: the state after the last one, and every record the
   callbacks received, in order.
   */
  function CreateRun<T>(s: CreateState<T>, url: string, newItems: seq<T>, bodies: seq<T>, callbacks: seq<Callback<T>>): (CreateState<T>, seq<T>)
    requires |newItems| == |bodies| == |callbacks|
    decreases |bodies|
  {
    if |bodies| == 0 then (s, [])
    else
      var first := Create(s, url, newItems[0], Ok(bodies[0]), callbacks[0]);
      var (after, delivered) := CreateRun(first.call.after, url, newItems[1..], bodies[1..], callbacks[1..]);
      (after, first.delivered + delivered)
  }

  /**
   Over any run of successful creates, each with its own record and callback,
   the private list grows by exactly the records the server returned, in
   order, and the callbacks see those same records in the same order: a caller
   that appends in its callbacks keeps a list that grows exactly as the
   private one does.
   */
  lemma {:induction false} CreateRunAppendsInOrder<T>(s: CreateState<T>, url: string, newItems: seq<T>, bodies: seq<T>, callbacks: seq<Callback<T>>)
    requires |newItems| == |bodies| == |callbacks|
    ensures CreateRun(s, url, newItems, bodies, callbacks).0.data == s.data + bodies
    ensures CreateRun(s, url, newItems, bodies, callbacks).1 == bodies
    decreases |bodies|
  {
    if |bodies| > 0 {
      var first := Create(s, url, newItems[0], Ok(bodies[0]), callbacks[0]);
      var rest := CreateRun(first.call.after, url, newItems[1..], bodies[1..], callbacks[1..]);
      assert CreateRun(s, url, newItems, bodies, callbacks) == (rest.0, first.delivered + rest.1);
      CreateOkAppends(s, url, newItems[0], bodies[0], callbacks[0]);
      CreateRunAppendsInOrder(first.call.after, url, newItems[1..], bodies[1..], callbacks[1..]);
      assert [bodies[0]] + bodies[1..] == bodies;
    }
  }

  lemma CreateOkAppends<T>(s: CreateState<T>, url: string, newItem: T, body: T, updateData: Callback<T>)
    ensures Create(s, url, newItem, Ok(body), updateData).call.after.data == s.data + [body]
    ensures Create(s, url, newItem, Ok(body), updateData).delivered == [body]
  {
  }
}
