/**
 `useFetchData(url)`: one GET of the collection. On success the collection is
 replaced wholesale and two running maxima are recomputed from it, each with a
 floor of 0; on failure only the error slot changes. `isLoading` is raised for
 the duration of the request and lowered in `finally`.
 */
module FetchData {
  import opened Optional
  import opened Entities
  import opened Http

  datatype FetchState<P> = FetchState(
    data: seq<Entity<P>>,
    error: Option<string>,
    isLoading: bool,
    maxId: int,
    maxSchedulesId: int
  )

  /** The refs as `useFetchData` creates them. */
  function Initial<P>(): FetchState<P> {
    FetchState([], None, false, 0, 0)
  }

  function ErrorMessage(url: string): string {
    "Error fetching data from " + url
  }

  /** `Math.max(...xs, 0)`: the largest of `xs` and 0. */
  function MaxWithZero(xs: seq<int>): (m: int)
    ensures 0 <= m
    ensures forall i :: 0 <= i < |xs| ==> xs[i] <= m
    ensures m == 0 || exists i :: 0 <= i < |xs| && xs[i] == m
  {
    if |xs| == 0 then 0
    else
      var rest := MaxWithZero(xs[1..]);
      assert forall i :: 1 <= i < |xs| ==> xs[i] == xs[1..][i - 1];
      if xs[0] > rest then xs[0] else rest
  }

  /** `data.map(item => Number(item.id))`. */
  function IdNumbers<P>(items: seq<Entity<P>>): (ns: seq<int>)
    ensures |ns| == |items|
    ensures forall i :: 0 <= i < |items| ==> ns[i] == IdNumber(items[i].id)
  {
    seq(|items|, i requires 0 <= i < |items| => IdNumber(items[i].id))
  }

  /** `data.map(item => item.schedules_id ?? 0)`. */
  function SchedulesValues<P>(items: seq<Entity<P>>): (ns: seq<int>)
    ensures |ns| == |items|
    ensures forall i :: 0 <= i < |items| ==> ns[i] == SchedulesOrZero(items[i])
  {
    seq(|items|, i requires 0 <= i < |items| => SchedulesOrZero(items[i]))
  }

  predicate AnyHasSchedulesField<P>(items: seq<Entity<P>>) {
    exists i :: 0 <= i < |items| && HasSchedulesField(items[i])
  }

  /** The `maxSchedulesId` a successful fetch of `items` stores. */
  function MaxSchedulesId<P>(items: seq<Entity<P>>): int {
    if AnyHasSchedulesField(items) then MaxWithZero(SchedulesValues(items)) else 0
  }

  /** What the `try`/`catch`/`finally` blocks do once the awaited request has ended. */
  function Settle<P>(s: FetchState<P>, url: string, resp: Response<seq<Entity<P>>>): FetchState<P> {
    match resp
    case Ok(body) =>
      s.(data := body, maxId := MaxWithZero(IdNumbers(body)),
         maxSchedulesId := MaxSchedulesId(body), isLoading := false)
    case NotOk => s.(error := Some(ErrorMessage(url)), isLoading := false)
    case Rejected(message) => s.(error := Some(message), isLoading := false)
  }

  /** One call of `fetchData` whose request ends with `resp`. */
  function Fetch<P>(s: FetchState<P>, url: string, resp: Response<seq<Entity<P>>>): (c: Call<FetchState<P>, ()>)
    ensures c.sent == Some(Request(Get, url, None))
    ensures c.pending == s.(isLoading := true)
    ensures !c.after.isLoading
    ensures resp.Ok? ==>
      && c.after.data == resp.body
      && c.after.error == s.error
      && 0 <= c.after.maxId
      && (forall i :: 0 <= i < |resp.body| ==> IdNumber(resp.body[i].id) <= c.after.maxId)
      && (c.after.maxId == 0 || exists i :: 0 <= i < |resp.body| && IdNumber(resp.body[i].id) == c.after.maxId)
      && c.after.maxSchedulesId == MaxSchedulesId(resp.body)
      && (resp.body == [] ==> c.after.maxId == 0 && c.after.maxSchedulesId == 0)
    ensures !resp.Ok? ==>
      && c.after.data == s.data
      && c.after.maxId == s.maxId
      && c.after.maxSchedulesId == s.maxSchedulesId
      && c.after.error == Some(if resp.NotOk? then ErrorMessage(url) else resp.message)
  {
    var pending := s.(isLoading := true);
    Call(pending, Settle(pending, url, resp), Some(Request(Get, url, None)))
  }

  /**
   The `schedules_id` maximum: 0 when no record has the field; otherwise an
   upper bound of every record's `schedules_id ?? 0` that is 0 or attained.
   */
  lemma MaxSchedulesIdBounds<P>(items: seq<Entity<P>>)
    ensures !AnyHasSchedulesField(items) ==> MaxSchedulesId(items) == 0
    ensures 0 <= MaxSchedulesId(items)
    ensures forall i :: 0 <= i < |items| ==> SchedulesOrZero(items[i]) <= MaxSchedulesId(items)
    ensures MaxSchedulesId(items) == 0
         || exists i :: 0 <= i < |items| && items[i].schedulesId == Value(MaxSchedulesId(items))
  {
  }

  /**
   The `'schedules_id' in item` test is redundant: when no record has the
   field every value read is 0, so the maximum over all records, floored at 0,
   is already 0.
   */
  lemma MaxSchedulesIdIgnoresPresenceTest<P>(items: seq<Entity<P>>)
    ensures MaxSchedulesId(items) == MaxWithZero(SchedulesValues(items))
  {
  }
}
