/** What both versions of the expense screen share: the wire records, the three form
    fields, the JavaScript truthiness guard of `createExpense`, and the request it sends.
    `src/components/ExpenseList.tsx` declares all of these; `src/ExpenseList.tsx` declares the
    list record, the create request and the guard identically, and has no update request. */
module Expenses {
  import opened Wrappers
  import opened DateUtils

  /** A row of `GET /v1/expenses`, and the payload of `GET /v1/expenses/{id}`.
      The date is the server's string; the table shows it as sent. */
  datatype Expense = Expense(id: int, expenseDate: string, amount: real, description: string)

  /** `CreateExpenseRequest` and `UpdateExpenseRequest`: exactly these three fields. */
  datatype ExpenseBody = ExpenseBody(expenseDate: string, amount: real, description: string)

  /** The HTTP requests the screen starts. */
  datatype Request =
    | ListExpenses                                // GET /v1/expenses
    | GetExpense(id: int)                         // GET /v1/expenses/{id}
    | CreateExpense(body: ExpenseBody)            // POST /v1/expenses
    | UpdateExpense(id: int, body: ExpenseBody)   // PUT /v1/expenses/{id}
    | DeleteExpense(id: int)                      // DELETE /v1/expenses/{id}

  /** Why a promise rejected. */
  datatype Rejection =
    | MissingField    // the truthiness guard threw before any request
    | InvalidTime     // `toISOString()` threw a RangeError
    | RequestFailed   // the HTTP request rejected

  /** The form fields: `amount: number | null`, `expenseDate: Date` (null once the
      calendar is cleared) and `description: string | undefined`. */
  datatype Form = Form(amount: Option<real>, expenseDate: Option<Date>, description: Option<string>)

  /** `Date.prototype.toISOString` of the host: its text depends on the host's time zone,
      and `None` stands for the RangeError it throws on an unrepresentable date. */
  type IsoSerializer = Date -> Option<string>

  /** `new Date(text)` of the host, used on the server's date string. */
  type DateParser = string -> Date

  /** `!amount` is false: the amount is neither null nor 0. */
  predicate IsTruthyAmount(amount: Option<real>) {
    amount.Some? && amount.value != 0.0
  }

  /** `!description` is false: the text is neither undefined nor empty. */
  predicate IsTruthyText(text: Option<string>) {
    text.Some? && text.value != ""
  }

  /** `!expenseDate || !amount || !description` is false: none of the three fields holds
      one of JavaScript's falsy values for its type (null, undefined, 0 or ""). */
  function FormGuardPasses(f: Form): (ok: bool)
    ensures !ok <==>
      || f.expenseDate == None
      || f.amount == None || f.amount == Some(0.0)
      || f.description == None || f.description == Some("")
  {
    f.expenseDate.Some? && IsTruthyAmount(f.amount) && IsTruthyText(f.description)
  }

  /** `resetFormFields`: amount null, date `new Date()` (given as `now`), description undefined. */
  function ResetForm(now: Date): (f: Form)
    ensures f.amount == None && f.description == None && f.expenseDate == Some(now)
    ensures !FormGuardPasses(f)
  {
    Form(None, Some(now), None)
  }

  /** The body `createExpense` and `updateExpense` send once the guard has passed:
      the serialised date, the amount and the description, nothing else. */
  function RequestBody(f: Form, toIso: IsoSerializer): (r: Result<ExpenseBody, Rejection>)
    ensures !FormGuardPasses(f) ==> r == Failure(MissingField)
    ensures r.Success? <==> FormGuardPasses(f) && toIso(f.expenseDate.value).Some?
    ensures r.Success? ==>
      && r.value.expenseDate == toIso(f.expenseDate.value).value
      && Some(r.value.amount) == f.amount
      && Some(r.value.description) == f.description
  {
    if !FormGuardPasses(f) then Failure(MissingField)
    else match toIso(f.expenseDate.value)
      case None => Failure(InvalidTime)
      case Some(wire) => Success(ExpenseBody(wire, f.amount.value, f.description.value))
  }

  /** `createExpense`: fails with no request when the date is missing, the amount is null
      or 0, or the description is undefined or empty; a negative amount passes. Otherwise
      it POSTs exactly the current fields. */
  function CreateExpenseCall(f: Form, toIso: IsoSerializer): (r: Result<Request, Rejection>)
    ensures f.expenseDate == None || f.amount == None || f.amount == Some(0.0)
         || f.description == None || f.description == Some("")
      ==> r == Failure(MissingField)
    ensures r.Success? <==>
      && f.expenseDate.Some? && f.amount.Some? && f.amount.value != 0.0
      && f.description.Some? && f.description.value != ""
      && toIso(f.expenseDate.value).Some?
    ensures r.Success? ==>
      && r.value.CreateExpense?
      && r.value.body == ExpenseBody(toIso(f.expenseDate.value).value, f.amount.value, f.description.value)
  {
    match RequestBody(f, toIso)
    case Failure(why) => Failure(why)
    case Success(body) => Success(CreateExpense(body))
  }
}
