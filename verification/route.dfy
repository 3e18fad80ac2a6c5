/** The sync endpoint: GET wraps the adapter's rows in `{ data }`, POST validates `id` and
    `fruit` and calls the adapter's upsert once. The adapter's outcome is an input, and
    a response is a status with a JSON-shaped body. */
module Route {
  import opened Wrappers
  import opened Sheets

  const FetchFailedMessage := "Failed to fetch data"
  const UpdateFailedMessage := "Failed to update data"
  const MissingFieldsMessage := "ID and fruit are required"

  /** The JSON bodies the endpoint sends. */
  datatype Body =
    | DataBody(data: seq<FruitRow>)   // { data }
    | SuccessBody                     // { success: true }
    | ErrorBody(error: string)        // { error }

  datatype Response = Response(status: nat, body: Body)

  /** The fields of a POST body; `rowNumber` is what the client also sends. */
  datatype PostBody = PostBody(id: Option<string>, fruit: Option<string>, rowNumber: Option<int>)

  /** The one adapter call the endpoint can make on POST. */
  datatype AdapterCall = UpdateSheetDataCall(id: string, fruit: string)

  /** A POST handled: the response and the adapter calls made, in order. */
  datatype Handled = Handled(response: Response, calls: seq<AdapterCall>)

  /** JavaScript truthiness of a string field: present and not empty. */
  predicate Truthy(field: Option<string>): (t: bool)
    ensures t <==> field != None && field != Some("")
  {
    field.Some? && field.value != ""
  }

  /** GET: the adapter's rows unchanged under `data` with status 200, or status 500 with
      a fixed message whatever the adapter's failure was. */
  function Get(fetched: Outcome<seq<FruitRow>>): (res: Response)
    ensures res.status == 200 <==> fetched.Ok?
    ensures fetched.Ok? ==> res.body == DataBody(fetched.value)
    ensures fetched.Failed? ==> res == Response(500, ErrorBody(FetchFailedMessage))
  {
    match fetched
    case Ok(data) => Response(200, DataBody(data))
    case Failed(_) => Response(500, ErrorBody(FetchFailedMessage))
  }

  /** POST: `request` is the parsed body (None when reading it as JSON failed), `updated`
      what the adapter call would produce. The adapter is called exactly once, with the
      body's `id` and `fruit`, iff the body parsed and both are truthy. */
  function Post(request: Option<PostBody>, updated: Outcome<()>): (h: Handled)
    ensures |h.calls| <= 1
    ensures h.calls != [] <==> request.Some? && Truthy(request.value.id) && Truthy(request.value.fruit)
    ensures h.calls != [] ==> h.calls[0] == UpdateSheetDataCall(request.value.id.value, request.value.fruit.value)
    ensures h.response.status == 400 <==> request.Some? && h.calls == []
    ensures h.response.status == 400 ==> h.response.body == ErrorBody(MissingFieldsMessage)
    ensures h.response.status == 200 <==> h.calls != [] && updated.Ok?
    ensures h.response.status == 200 ==> h.response.body == SuccessBody
    ensures h.response.status !in {200, 400} ==> h.response == Response(500, ErrorBody(UpdateFailedMessage))
  {
    match request
    case None => Handled(Response(500, ErrorBody(UpdateFailedMessage)), [])
    case Some(body) =>
      if !Truthy(body.id) || !Truthy(body.fruit) then
        Handled(Response(400, ErrorBody(MissingFieldsMessage)), [])
      else
        var calls := [UpdateSheetDataCall(body.id.value, body.fruit.value)];
        match updated
        case Ok(_) => Handled(Response(200, SuccessBody), calls)
        case Failed(_) => Handled(Response(500, ErrorBody(UpdateFailedMessage)), calls)
  }

  /** No failure detail reaches the caller: two different causes give the same response. */
  lemma FailureCauseNotLeaked(request: Option<PostBody>, cause1: string, cause2: string)
    ensures Get(Failed(cause1)) == Get(Failed(cause2))
    ensures Post(request, Failed(cause1)) == Post(request, Failed(cause2))
  {
  }

  /** Only `id` and `fruit` are read from the body: any `rowNumber` leaves the handling,
      and so the write, unchanged. */
  lemma RowNumberIgnored(body: PostBody, rowNumber: Option<int>, updated: Outcome<()>)
    ensures Post(Some(body.(rowNumber := rowNumber)), updated) == Post(Some(body), updated)
  {
  }

  /** End to end: a valid POST makes exactly the call `updateSheetData(id, fruit)`; once
      the adapter has applied it to a sheet with a header, the next GET returns, as the
      first row with that id, the row `{id, fruit, updatedAt}`. */
  lemma PostThenGet(grid: seq<RawRow>, id: string, fruit: string, rowNumber: Option<int>, updatedAt: string)
    requires 1 <= |grid|
    requires id != "" && fruit != ""
    ensures Post(Some(PostBody(Some(id), Some(fruit), rowNumber)), Ok(())) ==
      Handled(Response(200, SuccessBody), [UpdateSheetDataCall(id, fruit)])
    ensures var res := Get(Ok(ReadRows(Upserted(grid, id, fruit, updatedAt))));
      && res.status == 200
      && var k := FindIndex(res.body.data, id);
      0 <= k && res.body.data[k] == FruitRow(id, fruit, updatedAt)
  {
    ReadAfterUpsert(grid, id, fruit, updatedAt);
  }
}
