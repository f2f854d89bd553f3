/** The `useTransactionsByEmployee` hook: it holds the transactions last fetched for one
    employee, or `null`. */
module ByEmployee {
  import opened Types

  const TRANSACTIONS_BY_EMPLOYEE: string := "transactionsByEmployee"

  /** A truthy response as received: an array of transactions, or some other truthy value,
      which the hook stores all the same. */
  datatype EmployeeData = TransactionList(items: seq<Transaction>) | NotAList

  /** The call `fetchById(employeeId)` issues: none for an empty id or the "all employees"
      sentinel, otherwise one request for that employee. */
  function FetchByIdRequest(employeeId: string): (request: Option<Request>)
    ensures request.None? <==> employeeId == "" || employeeId == ALL_EMPLOYEES
    ensures request.Some? ==>
              request.value.resource == TRANSACTIONS_BY_EMPLOYEE
              && request.value.params == EmployeeParams(employeeId)
  {
    if employeeId == "" || employeeId == ALL_EMPLOYEES then None
    else Some(Request(TRANSACTIONS_BY_EMPLOYEE, EmployeeParams(employeeId)))
  }

  class TransactionsByEmployee {
    var transactionsByEmployee: Option<EmployeeData>

    constructor()
      ensures transactionsByEmployee == None
    {
      transactionsByEmployee := None;
    }

    /** `fetchById`, given what `fetchWithCache` would return; `request` is the call it issues.
        After the guard a truthy response replaces the state wholesale (nothing is appended),
        whether or not it is an array; a falsy one, or a guarded id, leaves it as it was. */
    method FetchById(employeeId: string, response: Option<EmployeeData>) returns (request: Option<Request>)
      modifies this
      ensures request == FetchByIdRequest(employeeId)
      ensures request.None? ==> transactionsByEmployee == old(transactionsByEmployee)
      ensures request.Some? && response.Some? ==> transactionsByEmployee == response
      ensures response.None? ==> transactionsByEmployee == old(transactionsByEmployee)
    {
      if employeeId == "" || employeeId == ALL_EMPLOYEES {
        request := None;
        return;
      }
      request := Some(Request(TRANSACTIONS_BY_EMPLOYEE, EmployeeParams(employeeId)));
      var data := response;
      if data.Some? {
        transactionsByEmployee := data;
      }
    }

    /** `invalidateData`. */
    method InvalidateData()
      modifies this
      ensures transactionsByEmployee == None
    {
      transactionsByEmployee := None;
    }
  }
}
