/** The App component's state logic: the two merge effects that fold fetched transactions into
    `transactionsMap`, the projection that derives the visible list, the normalisation of a
    dropdown selection, and the two guards that decide when to load pages. */
module App {
  import opened Types
  import opened Store
  import opened Pagination
  import opened ByEmployee

  /** `a` occurs in `b` in the same relative order (greedy matching is complete). */
  ghost predicate IsSubsequence(a: seq<Transaction>, b: seq<Transaction>)
    decreases |b|
  {
    if a == [] then true
    else if b == [] then false
    else if a[0] == b[0] then IsSubsequence(a[1..], b[1..])
    else IsSubsequence(a, b[1..])
  }

  /** `transactions.filter((transaction) => transaction.employee.id === employeeId)`. */
  function FilterByEmployee(transactions: seq<Transaction>, employeeId: string): (r: seq<Transaction>)
    ensures forall t :: t in r <==> t in transactions && t.employee.id == employeeId
    ensures IsSubsequence(r, transactions)
    // each matching record is kept as many times as it occurs, every other one dropped
    ensures forall t :: multiset(r)[t] == if t.employee.id == employeeId then multiset(transactions)[t] else 0
    decreases |transactions|
  {
    if transactions == [] then []
    else
      assert transactions == [transactions[0]] + transactions[1..];
      if transactions[0].employee.id == employeeId then
      var rest := FilterByEmployee(transactions[1..], employeeId);
      assert ([transactions[0]] + rest)[1..] == rest;
      [transactions[0]] + rest
    else FilterByEmployee(transactions[1..], employeeId)
  }

  /** The projection effect: everything when all employees are selected, otherwise the records
      of the selected employee when that id is a non-empty string, otherwise nothing. */
  function Project(m: TransactionMap, isAllEmployees: bool, selectedEmployeeId: Option<string>): (r: seq<Transaction>)
    requires m.Valid()
    ensures isAllEmployees ==> r == Values(m)
    ensures !isAllEmployees && selectedEmployeeId.Some? && selectedEmployeeId.value != "" ==>
              && IsSubsequence(r, Values(m))
              && (forall t | t in r :: t.id in m.entries && m.entries[t.id] == t)
              && (forall k | k in m.entries :: m.entries[k] in r <==> m.entries[k].employee.id == selectedEmployeeId.value)
    ensures !isAllEmployees && (selectedEmployeeId.None? || selectedEmployeeId.value == "") ==> r == []
  {
    var allTransactions := Values(m);
    if isAllEmployees then allTransactions
    else if selectedEmployeeId.Some? && selectedEmployeeId.value != "" then
      FilterByEmployee(allTransactions, selectedEmployeeId.value)
    else []
  }

  /** The load `handleEmployeeChange` starts. */
  datatype Load = LoadAllTransactions | LoadTransactionsByEmployee(employeeId: string)

  /** The state `handleEmployeeChange` sets, and the load it starts. */
  datatype Selection = Selection(isAllEmployees: bool, selectedEmployeeId: Option<string>, load: Load)

  /** `handleEmployeeChange(newValue)`: `null` and the sentinel both mean "all employees"; any
      other value selects that employee, an empty id being stored as `null`. */
  function HandleEmployeeChange(newValue: Option<Employee>): (s: Selection)
    ensures s.isAllEmployees <==> newValue.None? || newValue.value.id == ALL_EMPLOYEES
    ensures s.isAllEmployees ==> s.selectedEmployeeId.None? && s.load == LoadAllTransactions
    ensures !s.isAllEmployees ==>
              && s.load == LoadTransactionsByEmployee(newValue.value.id)
              && (newValue.value.id == "" ==> s.selectedEmployeeId.None?)
              && (newValue.value.id != "" ==> s.selectedEmployeeId == Some(newValue.value.id))
    ensures s.selectedEmployeeId != Some("")
  {
    var selectedEmployeeId :=
      if newValue.Some? && newValue.value.id == ALL_EMPLOYEES then None
      else if newValue.Some? && newValue.value.id != "" then Some(newValue.value.id)
      else None;
    var isAllEmployees := newValue.None? || newValue.value.id == ALL_EMPLOYEES;
    var load := if isAllEmployees then LoadAllTransactions else LoadTransactionsByEmployee(newValue.value.id);
    Selection(isAllEmployees, selectedEmployeeId, load)
  }

  /** The visible list after a selection change: all records for "all employees"; exactly the
      chosen employee's records for a real employee; nothing for an employee with an empty id,
      whose by-employee load also issues no request. */
  lemma SelectionView(m: TransactionMap, newValue: Option<Employee>)
    requires m.Valid()
    ensures var s := HandleEmployeeChange(newValue);
            var view := Project(m, s.isAllEmployees, s.selectedEmployeeId);
            && (s.isAllEmployees ==> view == Values(m))
            && (!s.isAllEmployees && newValue.value.id != "" ==>
                  forall k | k in m.entries :: m.entries[k] in view <==> m.entries[k].employee.id == newValue.value.id)
            && (!s.isAllEmployees && newValue.value.id == "" ==> view == [])
            && (!s.isAllEmployees ==>
                  (FetchByIdRequest(s.load.employeeId).Some? <==> s.selectedEmployeeId.Some?))
  {
  }

  /** The initialise guard: load the first page only for "all employees", with no page data
      held and no load in progress. */
  predicate ShouldLoadAllOnInit(isAllEmployees: bool, paginatedTransactions: Option<Page>, transactionsLoading: bool)
    // the load it starts asks for page 0, into empty accumulated data
    ensures ShouldLoadAllOnInit(isAllEmployees, paginatedTransactions, transactionsLoading) ==>
              && isAllEmployees && !transactionsLoading
              && PageParam(paginatedTransactions) == Some(0)
              && AccumulatedData(paginatedTransactions) == []
  {
    isAllEmployees && paginatedTransactions.None? && !transactionsLoading
  }

  /** The View More button shows for "all employees" with a truthy cursor (`null` and 0 are
      falsy). */
  predicate ShowViewMore(isAllEmployees: bool, paginatedTransactions: Option<Page>)
    // shown only when a page is held, and then the click asks for that page's cursor, never page 0
    ensures ShowViewMore(isAllEmployees, paginatedTransactions) ==>
              && isAllEmployees
              && paginatedTransactions.Some?
              && PageParam(paginatedTransactions) == paginatedTransactions.value.nextPage
              && PageParam(paginatedTransactions) != Some(0)
  {
    && isAllEmployees
    && paginatedTransactions.Some?
    && paginatedTransactions.value.nextPage.Some?
    && paginatedTransactions.value.nextPage.value != 0
  }

  /** The initial load fires until a well-formed page arrives: a malformed or absent response
      leaves the guard as it was, a well-formed one closes it. */
  lemma InitialLoadGuard(isAllEmployees: bool, state: Option<Page>, transactionsLoading: bool, response: Option<PageResponse>)
    ensures response.None? || response.value.data.NotAnArray? ==>
              ShouldLoadAllOnInit(isAllEmployees, Step(state, response), transactionsLoading)
              == ShouldLoadAllOnInit(isAllEmployees, state, transactionsLoading)
    ensures response.Some? && response.value.data.ArrayData? ==>
              !ShouldLoadAllOnInit(isAllEmployees, Step(state, response), transactionsLoading)
  {
  }

  /** View More asks for the held cursor, never for page 0, and is hidden once the cursor is
      exhausted, although a further `fetchAll` would then ask for page 0 again. */
  lemma ViewMoreGuard(isAllEmployees: bool, state: Option<Page>)
    ensures ShowViewMore(isAllEmployees, state) ==>
              PageParam(state) == state.value.nextPage && PageParam(state) != Some(0)
    ensures state.Some? && state.value.nextPage.None? ==>
              !ShowViewMore(isAllEmployees, state) && PageParam(state) == Some(0)
  {
  }

  /** The effect on `paginatedTransactions`: merge its whole `data` when the state is not null. */
  method MergePaginatedEffect(prevMap: TransactionMap, paginatedTransactions: Option<Page>)
    returns (newMap: TransactionMap)
    ensures paginatedTransactions.None? ==> newMap == prevMap
    ensures paginatedTransactions.Some? ==> newMap == Merge(prevMap, paginatedTransactions.value.data)
  {
    newMap := prevMap;
    if paginatedTransactions.Some? {
      newMap := MergeBatch(prevMap, paginatedTransactions.value.data);
    }
  }

  /** The effect on `transactionsByEmployee`: merge it when it is not null. The effect calls
      `forEach` on whatever the hook holds, with no array check; on a value that is not an array
      that call throws, which is reported in `threw`, and the store is not updated. */
  method MergeByEmployeeEffect(prevMap: TransactionMap, transactionsByEmployee: Option<EmployeeData>)
    returns (newMap: TransactionMap, threw: bool)
    ensures threw <==> transactionsByEmployee.Some? && transactionsByEmployee.value.NotAList?
    ensures transactionsByEmployee.None? || threw ==> newMap == prevMap
    ensures transactionsByEmployee.Some? && transactionsByEmployee.value.TransactionList? ==>
              newMap == Merge(prevMap, transactionsByEmployee.value.items)
  {
    newMap, threw := prevMap, false;
    if transactionsByEmployee.Some? {
      match transactionsByEmployee.value
      case TransactionList(items) =>
        newMap := MergeBatch(prevMap, items);
      case NotAList =>
        threw := true;
    }
  }

  /** After each `fetchAll`, the paginated effect merges the whole accumulated `data` again;
      into a store that already holds the earlier pages this is the same as merging just the
      batch the last response delivered. */
  lemma PaginatedEffectMergesOnlyNewBatch(m0: TransactionMap, previous: Option<Page>, response: Option<PageResponse>)
    ensures var m := Merge(m0, AccumulatedData(previous));
            Merge(m, AccumulatedData(Step(previous, response))) == Merge(m, Delivered(response))
  {
    var next := Step(previous, response);
    var n := |AccumulatedData(previous)|;
    assert AccumulatedData(next) == AccumulatedData(previous) + Delivered(response) by {
      if response.Some? && response.value.data.ArrayData? {
        assert AccumulatedData(next)[..n] == AccumulatedData(previous);
        assert AccumulatedData(next)[n..] == Delivered(response);
      } else {
        assert Delivered(response) == [];
      }
    }
    ReMergeAccumulated(m0, AccumulatedData(previous), Delivered(response));
  }

  /** A local approval stays visible after switching to the record's employee and merging
      whatever the by-employee feed returns. */
  lemma ApprovalVisibleAfterRefilter(m: TransactionMap, id: string, approved: bool, batch: seq<Transaction>)
    requires m.Valid() && id in m.entries
    requires m.entries[id].employee.id != "" && m.entries[id].employee.id != ALL_EMPLOYEES
    ensures var refetched := Merge(WithApproval(m, id, approved), batch);
            var selection := HandleEmployeeChange(Some(m.entries[id].employee));
            && refetched.Valid()
            && var view := Project(refetched, selection.isAllEmployees, selection.selectedEmployeeId);
               && m.entries[id].(approved := approved) in view
               && forall t | t in view && t.id == id :: t.approved == approved
  {
    var edited := WithApproval(m, id, approved);
    MergeValid(edited, batch);
    var refetched := Merge(edited, batch);
    assert refetched.entries[id] == m.entries[id].(approved := approved);
  }

  /** Approve-then-refilter: load two pages `[t1, t2]` and `[t3]`, approve `t2`, switch to
      `t2`'s employee and merge the server's unapproved copy of `t2`; the view of that
      employee shows `t2` approved. */
  lemma ApproveThenRefilter(t1: Transaction, t2: Transaction, t3: Transaction, t2FromServer: Transaction)
    requires t1.id != t2.id && t2.id != t3.id && t1.id != t3.id
    requires t2FromServer.id == t2.id && !t2FromServer.approved
    requires t2.employee.id != "" && t2.employee.id != ALL_EMPLOYEES
    ensures var page0 := Step(None, Some(PageResponse(ArrayData([t1, t2]), NextPageNumber(1))));
            var page1 := Step(page0, Some(PageResponse(ArrayData([t3]), NextPageNull)));
            var loaded := Merge(Merge(EmptyMap, AccumulatedData(page0)), AccumulatedData(page1));
            var refetched := Merge(WithApproval(loaded, t2.id, true), [t2FromServer]);
            var selection := HandleEmployeeChange(Some(t2.employee));
            && refetched.Valid()
            && var view := Project(refetched, selection.isAllEmployees, selection.selectedEmployeeId);
               && t2.(approved := true) in view
               && forall t | t in view && t.id == t2.id :: t.approved
  {
    var page0 := Step(None, Some(PageResponse(ArrayData([t1, t2]), NextPageNumber(1))));
    assert page0 == Some(Page([t1, t2], Some(1)));
    var page1 := Step(page0, Some(PageResponse(ArrayData([t3]), NextPageNull)));
    assert page1 == Some(Page([t1, t2, t3], None)) by {
      assert [t1, t2] + [t3] == [t1, t2, t3];
    }
    var first := Merge(EmptyMap, [t1, t2]);
    var loaded := Merge(first, [t1, t2, t3]);
    MergeEntries(EmptyMap, [t1, t2], t2.id);
    MergeValid(EmptyMap, [t1, t2]);
    MergeValid(first, [t1, t2, t3]);
    assert loaded.entries[t2.id] == t2;
    ApprovalVisibleAfterRefilter(loaded, t2.id, true, [t2FromServer]);
  }
}
