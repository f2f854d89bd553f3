# Transaction review client: record reconciliation, in Dafny

This project models the client-side state logic of a small React application where a user
reviews financial transactions and toggles their approval, optionally filtered by employee.
Transactions arrive from two feeds: the paginated "all transactions" feed and the
per-employee feed. The application folds both into one insertion-ordered store, and a local
approval is never reverted by a later fetch.

- `types.dfy` (module `Types`): employees, transactions, the `null`-able values of JavaScript
  as `Option`, and the requests handed to the fetch layer. The `"all-employees"` sentinel is
  `ALL_EMPLOYEES`. The transaction amount is a floating-point payload that is only carried
  along, so it is an opaque type.
- `store.dfy` (module `Store`): `transactionsMap`. A JavaScript `Map` iterates in insertion
  order, and `Map.set` on a known key keeps that key's place. So the store is a
  `TransactionMap`: the ids in arrival order plus the map. `Merge` specifies a merge of a
  fetched batch, with the "existing entry wins" policy. `MergeBatch` is the imperative loop that
  the two merge effects run, proved equal to `Merge`. `WithApproval` and `UpdateTransaction` are
  `updateTransaction`. The lemmas cover keys, values, order, idempotence and local-edit
  precedence.
- `pagination.dfy` (module `Pagination`): the `usePaginatedTransactions` hook. It is a class
  whose field `paginatedTransactions` is `null` or `{data, nextPage}`, with `FetchAll` and
  `InvalidateData`. `PageParam` gives the requested page, `Reduce` is the state updater, and
  `Step` is one `fetchAll` given the response.
- `by_employee.dfy` (module `ByEmployee`): the `useTransactionsByEmployee` hook, a class with
  one field, `FetchById` and `InvalidateData`.
- `app.dfy` (module `App`): the rest of the App component's logic. It holds the projection
  that derives the visible list, the normalisation of a dropdown selection, the
  initialise and View-More guards, and the two merge effects. It also holds lemmas that tie
  the pieces together, including the approve-then-refilter scenario.

Every remote call goes through `fetchWithCache`, whose source is not part of this model. Each
fetch result is therefore an input of the method that awaits it: `Option<PageResponse>` or
`Option<EmployeeData>`, where `None` is a falsy (absent) response. The method returns the
`Request` it would issue, or `None` when it issues none.

The state updaters in `App.tsx` are functions from the previous map to a new one. They copy
the map and mutate the copy. They are modelled as methods that take the previous
`TransactionMap` and return the new one. The component's state variables are passed to them
as values.

Where the code does something other than what it evidently sets out to do, the model follows the code:

- `nextPage ?? 0` never yields `null`, so the "no more pages" early return in `fetchAll` is
  dead code. Once the cursor is `null`, the next `fetchAll` asks for page 0 again and appends
  page 0's answer a second time (`PageParam`, `TwoPagesThenRestart`).
- A response whose `nextPage` is `undefined` stores a `null` cursor. It does not mean "no
  change" (`StoredNextPage`, `Reduce`).
- Choosing "all employees" always calls `loadAllTransactions`, even when pages are already
  held. That call fetches the page the cursor names, or page 0 once the cursor is exhausted.
- The View-More button is hidden for a cursor of `0` as well as for `null`, because both are
  falsy (`ShowViewMore`, `ViewMoreGuard`).
- The by-employee hook stores any truthy response, array or not. Only the paginated hook
  checks for an array. The by-employee merge effect then calls `forEach` on what is held. On a
  value that is not an array that call throws and the store is not updated
  (`EmployeeData.NotAList`, `MergeByEmployeeEffect`).

## Model

| member | source | states |
|---|---|---|
| `Store.Values` | src/App.tsx:57 | the listed values are the stored records in insertion order, each under its own id, and every stored record appears |
| `Store.Merge` | src/App.tsx:31-37 | existing entry wins: every id already stored keeps exactly its record |
| `Store.MergeKeys` | src/App.tsx:31-37 | nothing is removed: the keys afterwards are the old keys plus every incoming id |
| `Store.MergeEntries` | src/App.tsx:33-35 | each id afterwards holds its old record if it had one, else the first record of the batch with that id |
| `Store.MergeOrder` | src/App.tsx:31-37 | the old keys keep their order, and the new ids follow in the order of their first occurrence in the batch |
| `Store.MergeValid` | src/App.tsx:29-53 | a merge keeps ids distinct, the key order in step with the keys, and every record stored under its own id |
| `Store.MergeKnownIds` | src/App.tsx:33-35 | merging a batch whose ids are all known changes neither map nor order |
| `Store.MergeIdempotent` | src/App.tsx:29-53 | merging the same batch twice gives the same map and order as merging it once |
| `Store.MergeConcat` | src/App.tsx:33-36 | merging `a + b` equals merging `a`, then `b` |
| `Store.ReMergeAccumulated` | src/App.tsx:29-40 | re-merging the old pages followed by a new page equals merging only the new page |
| `Store.MergeBatch` | src/App.tsx:31-37 | the copy-and-set loop over a batch computes exactly `Merge` |
| `Store.WithApproval` | src/App.tsx:71-77 | on a known id only that record's `approved` changes; other records and the key order are unchanged; an unknown id leaves the store as it was |
| `Store.UpdateTransaction` | src/App.tsx:69-81 | the copy-get-set of `updateTransaction` computes exactly `WithApproval` |
| `Store.MergeAllKeepsExisting` | src/App.tsx:29-53 | no run of merges from either feed changes a stored record |
| `Store.LocalEditSurvivesMerges` | src/App.tsx:31-77 | after `updateTransaction(id, b)` on a known id, every later run of merges leaves `id` stored with `approved == b` |
| `Pagination.PageParam` | src/hooks/usePaginatedTransactions.ts:18-27 | the requested page is never null: it is the held cursor, or 0 for no state or a null cursor, so the early return is never taken |
| `Pagination.StoredNextPage` | src/hooks/usePaginatedTransactions.ts:45 | the stored cursor is the response's number, and null for both `null` and `undefined` |
| `Pagination.Reduce` | src/hooks/usePaginatedTransactions.ts:37-47 | a non-array `data` keeps the state exactly; otherwise the old data is kept as a prefix, the batch follows it, the length grows by the batch length, and the cursor is the stored one |
| `Pagination.Step` | src/hooks/usePaginatedTransactions.ts:36-50 | an absent response keeps the state; the old accumulated data is always a prefix of the new |
| `Pagination.RunAccumulates` | src/hooks/usePaginatedTransactions.ts:37-47 | over any run of `fetchAll` calls, the accumulated data is the old data followed by every delivered batch, in order, so it never shrinks |
| `Pagination.TwoPagesThenRestart` | src/hooks/usePaginatedTransactions.ts:17-51 | `[a,b]` with cursor 1, then `[c]` with cursor null, give `[a,b,c]` and a null cursor; the next call asks for page 0, and its answer is appended again |
| `Pagination.PaginatedTransactions.constructor` | src/hooks/usePaginatedTransactions.ts:13-15 | the state starts as null |
| `Pagination.PaginatedTransactions.FetchAll` | src/hooks/usePaginatedTransactions.ts:17-51 | issues one request, for the page `PageParam` gives; the new state is `Step` of the old state and the response |
| `Pagination.PaginatedTransactions.InvalidateData` | src/hooks/usePaginatedTransactions.ts:53-55 | the state becomes null, and the next requested page is 0 |
| `ByEmployee.FetchByIdRequest` | src/hooks/useTransactionsByEmployee.ts:14-19 | no request iff the id is empty or the sentinel; otherwise one request for `transactionsByEmployee` with `{employeeId}` |
| `ByEmployee.TransactionsByEmployee.constructor` | src/hooks/useTransactionsByEmployee.ts:10 | the state starts as null |
| `ByEmployee.TransactionsByEmployee.FetchById` | src/hooks/useTransactionsByEmployee.ts:12-26 | a guarded id or a falsy response leaves the state unchanged; otherwise the response replaces it wholesale, array or not |
| `ByEmployee.TransactionsByEmployee.InvalidateData` | src/hooks/useTransactionsByEmployee.ts:28-30 | the state becomes null |
| `App.FilterByEmployee` | src/App.tsx:62 | the result keeps each record of that employee as many times as it occurs and drops every other record, as an order-preserving subsequence of the input |
| `App.Project` | src/App.tsx:56-67 | for all employees, all values in insertion order; for a non-empty selected id, exactly the stored records of that employee as a subsequence; otherwise the empty list |
| `App.HandleEmployeeChange` | src/App.tsx:128-141 | `null` or the sentinel select all employees, a null id and the all-transactions load; anything else selects that id (null if empty) and the by-employee load; all-employees implies a null id |
| `App.SelectionView` | src/App.tsx:125-146 | after a selection change the view is all records, or exactly the chosen employee's records; for an empty id it is empty and the by-employee load issues no request |
| `App.ShouldLoadAllOnInit` | src/App.tsx:110 | the first-page load fires only for all employees with no page data held and no load running, and it then asks for page 0 |
| `App.ShowViewMore` | src/App.tsx:172 | View More shows only for all employees with a held page whose cursor is truthy, and the click then asks for that cursor, never page 0 |
| `App.InitialLoadGuard` | src/App.tsx:110 | a well-formed page closes the initialise guard; a malformed or absent response leaves it as it was, so the load fires again |
| `App.ViewMoreGuard` | src/App.tsx:172 | View More shows only for all employees with a truthy cursor and then requests that cursor; an exhausted cursor hides it, although `fetchAll` would ask for page 0 |
| `App.MergePaginatedEffect` | src/App.tsx:29-40 | a null page state leaves the store; otherwise its whole accumulated data is merged |
| `App.MergeByEmployeeEffect` | src/App.tsx:42-53 | a null by-employee state leaves the store; a held array is merged; a held value that is not an array makes `forEach` throw and leaves the store as it was |
| `App.PaginatedEffectMergesOnlyNewBatch` | src/App.tsx:29-40 | after each `fetchAll`, re-merging all accumulated data equals merging only the batch just delivered |
| `App.ApprovalVisibleAfterRefilter` | src/App.tsx:42-67 | after approving a record and switching to its employee, the view shows it with the local flag whatever the by-employee feed returns |
| `App.ApproveThenRefilter` | src/App.tsx:29-81 | two pages `[t1,t2]`, `[t3]`; approve `t2`; select `t2`'s employee; merge an unapproved server copy of `t2`; the view shows `t2` approved |

## Left out

- `useCustomFetch` / `fetchWithCache` is not part of this model: the request cache, its key
  canonicalisation, in-flight de-duplication and invalidation. Each fetch result is an input.
- `src/hooks/useEmployees.ts` stores whatever the employee fetch returns when it is truthy, and
  does nothing else. The employee load in the initialise effect (`src/App.tsx:107-109`) is
  left out with it.
- `src/utils/types.ts` is not part of this model. The fields used come from their uses in the
  source: the transaction `id` (`src/App.tsx:34`), `employee.id` (`:62`) and `approved`
  (`:75`), and the employee `firstName` and `lastName` (`:161`). `amount`, `merchant` and
  `date` are assumed payload fields that no modelled code reads.
- React machinery is left out: effect scheduling, `useState` batching, `useCallback`
  dependency lists, and the stale-closure read of `paginatedTransactions` in `fetchAll`. The
  model runs each call to completion against the current state.
- The `transactionsLoading` flag is left out: it is set and cleared around the loads
  (`src/App.tsx:88-103`, `:132-143`), and its value depends on async interleavings. It appears
  only as an input of `ShouldLoadAllOnInit`.
- The interim clearing of `selectedTransactions` at `src/App.tsx:133` is left out. The visible
  list is modelled as the projection of the current state.
- What React does with the exception thrown by the by-employee merge effect on a non-array
  value is left out. The model reports it as `threw` and leaves the store unchanged.
- Rendering and JSX, the `InputSelect` and `Transactions` components, and all logging are
  left out.
- The `setData` setters the two hooks also return are not used by the App component, so they
  are not modelled.
- Amount: floating point, kept as an opaque type.
