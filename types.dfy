/** Shared value types: employees, transactions, the optional values JavaScript writes as
    `null`/`undefined`, and the requests handed to the fetch layer. */
module Types {

  /** A JavaScript value that may be `null` (or `undefined`, or otherwise falsy). */
  datatype Option<+T> = None | Some(value: T)

  /** The sentinel id of the "All Employees" entry of the employee dropdown. */
  const ALL_EMPLOYEES: string := "all-employees"

  /** The monetary amount of a transaction: a floating-point number that this layer only
      carries along, so it is kept opaque. */
  type Amount(==, !new)

  datatype Employee = Employee(id: string, firstName: string, lastName: string)

  datatype Transaction = Transaction(
    id: string,
    amount: Amount,
    employee: Employee,
    merchant: string,
    date: string,
    approved: bool)

  /** The parameter object passed to the fetch layer. */
  datatype RequestParams =
    | PageParams(page: int)
    | EmployeeParams(employeeId: string)

  /** One call `fetchWithCache(resource, params)`. */
  datatype Request = Request(resource: string, params: RequestParams)
}
