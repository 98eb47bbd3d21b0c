/**
 The boundary between a composable and the network. The model never performs a
 request: a unit's transition reports the request it would send, and the
 outcome of that request is an input.
 */
module Http {
  import opened Optional
  import opened Entities
  import Decimal

  datatype Verb = Get | Post | Put | Delete

  /** The request a call sends: method, target URL, and the entity serialised as its JSON body. */
  datatype Request<B> = Request(verb: Verb, target: string, body: Option<B>)

  /**
   How the awaited part of a call ends: a response with `ok` set and its parsed
   body, a response without `ok`, or a rejection (network failure, unparsable
   body) carrying the thrown error's message.
   */
  datatype Response<B> = Ok(body: B) | NotOk | Rejected(message: string)

  /**
   One call of a unit: the unit's state while the request is in flight, the
   state after the `finally` block has run, and the request sent, if any.
   */
  datatype Call<S, B> = Call(pending: S, after: S, sent: Option<Request<B>>)

  /** `${url}/${id}`, the target of a PUT or DELETE for one entity. */
  function ItemTarget(url: string, id: Id): string {
    url + "/" + IdText(id)
  }

  /** The item target starts with the collection URL and a slash, and the rest reads back as the id. */
  lemma ItemTargetNamesId(url: string, id: Id)
    ensures |ItemTarget(url, id)| > |url| + 1
    ensures ItemTarget(url, id)[..|url|] == url
    ensures ItemTarget(url, id)[|url|] == '/'
    ensures Decimal.ParseInt(ItemTarget(url, id)[|url| + 1..]) == Some(IdNumber(id))
  {
    var t := ItemTarget(url, id);
    assert t[|url| + 1..] == IdText(id);
    Decimal.IntTextRoundTrip(id.n);
  }
}
