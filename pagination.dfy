/** The `usePaginatedTransactions` hook: it holds the accumulated pages of the
    "paginatedTransactions" feed, or `null` before the first well-formed response. */
module Pagination {
  import opened Types

  const PAGINATED_TRANSACTIONS: string := "paginatedTransactions"

  /** The held `PaginatedResponse`: every transaction fetched so far and the cursor, a page
      number or `null`. */
  datatype Page = Page(data: seq<Transaction>, nextPage: Option<int>)

  /** The `data` field of a response as received: an array, or anything else (missing, `null`,
      not an array). */
  datatype DataField = ArrayData(items: seq<Transaction>) | NotAnArray

  /** The `nextPage` field of a response as received. */
  datatype NextPageField = NextPageUndefined | NextPageNull | NextPageNumber(n: int)

  datatype PageResponse = PageResponse(data: DataField, nextPage: NextPageField)

  /** `params.page`, of type `number | null`: 0 without held state, else the held cursor with
      `null` replaced by 0 (the `??` operator). */
  function PageParam(state: Option<Page>): (page: Option<int>)
    // never null, so the "no more pages" return is never taken
    ensures page.Some?
    ensures state.Some? && state.value.nextPage.Some? ==> page == state.value.nextPage
    // an exhausted cursor, like no state at all, asks for page 0 again
    ensures state.None? || state.value.nextPage.None? ==> page == Some(0)
  {
    if state.Some? then
      match state.value.nextPage
      case Some(n) => Some(n)
      case None => Some(0)
    else Some(0)
  }

  /** `previousResponse?.data || []`. */
  function AccumulatedData(state: Option<Page>): seq<Transaction> {
    if state.Some? then state.value.data else []
  }

  /** The cursor stored from a well-formed response: `undefined` becomes `null`. */
  function StoredNextPage(field: NextPageField): (cursor: Option<int>)
    ensures cursor.Some? <==> field.NextPageNumber?
    ensures field.NextPageNumber? ==> cursor.value == field.n
  {
    match field
    case NextPageNumber(n) => Some(n)
    case NextPageNull => None
    case NextPageUndefined => None
  }

  /** The state updater applied to a truthy response. */
  function Reduce(previous: Option<Page>, response: PageResponse): (next: Option<Page>)
    // a response without an array `data` keeps the previous state exactly
    ensures response.data.NotAnArray? ==> next == previous
    // otherwise the old data stays as a prefix and the batch follows it, nothing else
    ensures response.data.ArrayData? ==>
              && next.Some?
              && |next.value.data| == |AccumulatedData(previous)| + |response.data.items|
              && next.value.data[..|AccumulatedData(previous)|] == AccumulatedData(previous)
              && next.value.data[|AccumulatedData(previous)|..] == response.data.items
              && next.value.nextPage == StoredNextPage(response.nextPage)
  {
    match response.data
    case NotAnArray => previous
    case ArrayData(items) => Some(Page(AccumulatedData(previous) + items, StoredNextPage(response.nextPage)))
  }

  /** One `fetchAll` given what the fetch returned: a falsy response keeps the state. */
  function Step(previous: Option<Page>, response: Option<PageResponse>): (next: Option<Page>)
    ensures response.None? ==> next == previous
    ensures AccumulatedData(previous) <= AccumulatedData(next)
  {
    if response.Some? then Reduce(previous, response.value) else previous
  }

  /** The transactions a response contributes: the `data` array of a truthy, well-formed one. */
  function Delivered(response: Option<PageResponse>): seq<Transaction> {
    if response.Some? && response.value.data.ArrayData? then response.value.data.items else []
  }

  /** Successive `fetchAll` calls, one per response. */
  function Run(state: Option<Page>, responses: seq<Option<PageResponse>>): Option<Page>
    decreases |responses|
  {
    if responses == [] then state else Run(Step(state, responses[0]), responses[1..])
  }

  /** All delivered transactions, in order. */
  function DeliveredAll(responses: seq<Option<PageResponse>>): seq<Transaction>
    decreases |responses|
  {
    if responses == [] then [] else Delivered(responses[0]) + DeliveredAll(responses[1..])
  }

  /** Across any run of `fetchAll` calls the accumulated data is the old data followed by every
      delivered batch, in order; in particular it never shrinks and never loses its prefix. */
  lemma {:induction false} RunAccumulates(state: Option<Page>, responses: seq<Option<PageResponse>>)
    ensures AccumulatedData(Run(state, responses)) == AccumulatedData(state) + DeliveredAll(responses)
    decreases |responses|
  {
    if responses != [] {
      var next := Step(state, responses[0]);
      assert AccumulatedData(next) == AccumulatedData(state) + Delivered(responses[0]);
      RunAccumulates(next, responses[1..]);
    }
  }

  /** Responses `{data: [a, b], nextPage: 1}` then `{data: [c], nextPage: null}` accumulate
      `[a, b, c]` with a `null` cursor. The following call is not a no-op: it asks for page 0
      again, and page 0's answer is appended a second time. */
  lemma TwoPagesThenRestart(a: Transaction, b: Transaction, c: Transaction)
    ensures var first := Step(None, Some(PageResponse(ArrayData([a, b]), NextPageNumber(1))));
            var second := Step(first, Some(PageResponse(ArrayData([c]), NextPageNull)));
            var third := Step(second, Some(PageResponse(ArrayData([a, b]), NextPageNumber(1))));
            && PageParam(None) == Some(0)
            && PageParam(first) == Some(1)
            && second == Some(Page([a, b, c], None))
            && PageParam(second) == Some(0)
            && third == Some(Page([a, b, c, a, b], Some(1)))
  {
    assert [a, b] + [c] == [a, b, c];
    assert [a, b, c] + [a, b] == [a, b, c, a, b];
  }

  /** The hook's state and its two operations. */
  class PaginatedTransactions {
    var paginatedTransactions: Option<Page>

    constructor()
      ensures paginatedTransactions == None
    {
      paginatedTransactions := None;
    }

    /** `fetchAll`, given what `fetchWithCache` returns; `request` is the call it issues. */
    method FetchAll(response: Option<PageResponse>) returns (request: Option<Request>)
      modifies this
      ensures request == Some(Request(PAGINATED_TRANSACTIONS, PageParams(PageParam(old(paginatedTransactions)).value)))
      ensures paginatedTransactions == Step(old(paginatedTransactions), response)
    {
      var page := PageParam(paginatedTransactions);
      if page.None? {
        // the early return for a null page: `??` never yields null, so it is never taken
        request := None;
        return;
      }
      request := Some(Request(PAGINATED_TRANSACTIONS, PageParams(page.value)));
      if response.Some? {
        paginatedTransactions := Reduce(paginatedTransactions, response.value);
      }
    }

    /** `invalidateData`: back to `null`, so the next call asks for page 0. */
    method InvalidateData()
      modifies this
      ensures paginatedTransactions == None
      ensures PageParam(paginatedTransactions) == Some(0)
    {
      paginatedTransactions := None;
    }
  }
}
