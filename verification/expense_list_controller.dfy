/** The expense screen routed at `/expenses` (`src/components/ExpenseList.tsx`) as a state
    machine. Every handler is a pure transition from the current state to the next state
    plus the HTTP requests it starts; every promise continuation is a separate event that
    carries the settled promise, so "only on success" is a property of that event. */
module ExpenseListController {
  import opened Wrappers
  import opened DateUtils
  import opened Expenses

  /** The component's `useState` slots, plus the one pending delete confirmation
      (the `confirmDialog` prompt whose `accept` callback holds the expense id). */
  datatype State = State(
    expenses: seq<Expense>,
    createDialogVisible: bool,
    updateDialogVisible: bool,
    updatableExpenseId: Option<int>,
    form: Form,
    deletePrompt: Option<int>)

  /** The state after an event, and the requests it started, in order. */
  datatype Transition = Transition(state: State, requests: seq<Request>)

  /** What can happen to the screen: user actions, widget callbacks, settled promises. */
  datatype Event =
    | ExpensesFetched(list: Result<seq<Expense>, Rejection>)
    | OpenCreateDialog
    | HideCreateDialog(now: Date)
    | AmountChanged(amount: Option<real>)
    | DateChanged(date: Option<Date>)
    | DescriptionChanged(text: string)
    | SubmitCreate
    | CreateSettled(created: Result<Expense, Rejection>, now: Date)
    | OpenUpdateDialog(id: int, now: Date)
    | ExpenseFetched(fetched: Result<Expense, Rejection>)
    | HideUpdateDialog(now: Date)
    | SubmitUpdate
    | UpdateSettled(updated: Result<Expense, Rejection>, now: Date)
    | OpenDeleteConfirm(id: int)
    | AcceptDelete
    | RejectDelete
    | DeleteSettled(deleted: Result<(), Rejection>)

  /** The first render: empty list, both dialogs hidden, no target, an empty form dated
      `now`; the mount effect then starts the first list fetch. */
  function Mount(now: Date): (t: Transition)
    ensures t.state.expenses == [] && !t.state.createDialogVisible && !t.state.updateDialogVisible
    ensures t.state.updatableExpenseId == None && t.state.deletePrompt == None
    ensures t.state.form == ResetForm(now)
    ensures t.requests == [ListExpenses]
  {
    Transition(State([], false, false, None, ResetForm(now), None), [ListExpenses])
  }

  /** `fetchAllExpenses`: starts `GET /v1/expenses` and changes nothing yet. */
  function FetchAllExpenses(s: State): (t: Transition)
    ensures t.state == s && t.requests == [ListExpenses]
  {
    Transition(s, [ListExpenses])
  }

  /** The fetch's continuation: the list is replaced wholesale by `response.expenses`;
      a rejected fetch leaves the old list on screen. */
  function OnExpensesFetched(s: State, list: Result<seq<Expense>, Rejection>): (r: State)
    ensures list.Success? ==> r.expenses == list.value
    ensures list.Failure? ==> r == s
    ensures r == s.(expenses := r.expenses)
  {
    match list
    case Success(l) => s.(expenses := l)
    case Failure(_) => s
  }

  /** `resetFormFields`: amount null, date `now`, description undefined; nothing else changes. */
  function ResetFormFields(s: State, now: Date): (r: State)
    ensures r.form.amount == None && r.form.description == None && r.form.expenseDate == Some(now)
    ensures r == s.(form := r.form)
  {
    s.(form := ResetForm(now))
  }

  function OpenCreateExpenseDialogBox(s: State): (r: State)
    ensures r.createDialogVisible
    ensures r == s.(createDialogVisible := true)
  {
    s.(createDialogVisible := true)
  }

  /** `closeCreateExpenseDialogBox`: hides the dialog and discards the draft. */
  function CloseCreateExpenseDialogBox(s: State, now: Date): (r: State)
    ensures !r.createDialogVisible && r.form == ResetForm(now)
    ensures r == s.(createDialogVisible := false, form := r.form)
  {
    ResetFormFields(s.(createDialogVisible := false), now)
  }

  /** `handleCreateExpenseSubmit`: runs `createExpense` on the current draft. The state is
      untouched; a POST is started only when the guard and the date serialisation pass. */
  function HandleCreateExpenseSubmit(s: State, toIso: IsoSerializer): (t: Transition)
    ensures t.state == s
    ensures CreateExpenseCall(s.form, toIso).Failure? <==> t.requests == []
    ensures CreateExpenseCall(s.form, toIso).Success? ==> t.requests == [CreateExpenseCall(s.form, toIso).value]
  {
    match CreateExpenseCall(s.form, toIso)
    case Failure(_) => Transition(s, [])
    case Success(request) => Transition(s, [request])
  }

  /** The create promise's `.then`: only a fulfilled POST refreshes the list and closes the
      dialog; a rejection changes nothing and starts nothing. */
  function OnCreateSettled(s: State, created: Result<Expense, Rejection>, now: Date): (t: Transition)
    ensures created.Failure? ==> t == Transition(s, [])
    ensures created.Success? ==>
      && t.requests == [ListExpenses]
      && t.state == CloseCreateExpenseDialogBox(s, now)
  {
    match created
    case Failure(_) => Transition(s, [])
    case Success(_) =>
      var refreshed := FetchAllExpenses(s);
      Transition(CloseCreateExpenseDialogBox(refreshed.state, now), refreshed.requests)
  }

  /** `closeUpdateExpenseDialogBox`: hides the dialog, forgets the target and discards the draft. */
  function CloseUpdateExpenseDialogBox(s: State, now: Date): (r: State)
    ensures !r.updateDialogVisible && r.updatableExpenseId == None && r.form == ResetForm(now)
    ensures r == s.(updateDialogVisible := false, updatableExpenseId := None, form := r.form)
  {
    ResetFormFields(s.(updateDialogVisible := false, updatableExpenseId := None), now)
  }

  /** `openUpdateExpenseDialogBox`: resets the draft, records the target id and fetches the
      record; the dialog itself is not shown yet. */
  function OpenUpdateExpenseDialogBox(s: State, id: int, now: Date): (t: Transition)
    ensures t.state.updatableExpenseId == Some(id) && t.state.form == ResetForm(now)
    ensures t.state == s.(updatableExpenseId := Some(id), form := t.state.form)
    ensures t.requests == [GetExpense(id)]
  {
    Transition(ResetFormFields(s, now).(updatableExpenseId := Some(id)), [GetExpense(id)])
  }

  /** The fetch's `.then`: copies amount, parsed date and description from the response and
      then shows the update dialog. A rejected fetch changes nothing. */
  function OnExpenseFetched(s: State, fetched: Result<Expense, Rejection>, parse: DateParser): (r: State)
    ensures fetched.Failure? ==> r == s
    ensures fetched.Success? ==>
      && r.updateDialogVisible
      && r.form == Form(Some(fetched.value.amount), Some(parse(fetched.value.expenseDate)), Some(fetched.value.description))
      && r == s.(updateDialogVisible := true, form := r.form)
  {
    match fetched
    case Failure(_) => s
    case Success(e) =>
      s.(form := Form(Some(e.amount), Some(parse(e.expenseDate)), Some(e.description)),
         updateDialogVisible := true)
  }

  /** `updateExpense`: the create guard plus `!updatableExpenseId`; the PUT targets exactly
      the recorded id and carries exactly the current fields. */
  function UpdateExpenseCall(f: Form, target: Option<int>, toIso: IsoSerializer): (r: Result<Request, Rejection>)
    ensures !FormGuardPasses(f) || target == None || target == Some(0) ==> r == Failure(MissingField)
    ensures r.Success? <==>
      && FormGuardPasses(f) && target.Some? && target.value != 0
      && toIso(f.expenseDate.value).Some?
    ensures r.Success? ==>
      && r.value == UpdateExpense(target.value, ExpenseBody(toIso(f.expenseDate.value).value, f.amount.value, f.description.value))
  {
    if !FormGuardPasses(f) || target == None || target == Some(0) then Failure(MissingField)
    else match RequestBody(f, toIso)
      case Failure(why) => Failure(why)
      case Success(body) => Success(UpdateExpense(target.value, body))
  }

  /** `handleUpdateExpenseSubmit`: the state is untouched; a PUT is started only when
      `updateExpense`'s guard and serialisation pass. */
  function HandleUpdateExpenseSubmit(s: State, toIso: IsoSerializer): (t: Transition)
    ensures t.state == s
    ensures UpdateExpenseCall(s.form, s.updatableExpenseId, toIso).Failure? <==> t.requests == []
    ensures UpdateExpenseCall(s.form, s.updatableExpenseId, toIso).Success? ==>
      t.requests == [UpdateExpenseCall(s.form, s.updatableExpenseId, toIso).value]
  {
    match UpdateExpenseCall(s.form, s.updatableExpenseId, toIso)
    case Failure(_) => Transition(s, [])
    case Success(request) => Transition(s, [request])
  }

  /** The update promise's `.then`: only a fulfilled PUT refreshes and closes. */
  function OnUpdateSettled(s: State, updated: Result<Expense, Rejection>, now: Date): (t: Transition)
    ensures updated.Failure? ==> t == Transition(s, [])
    ensures updated.Success? ==>
      && t.requests == [ListExpenses]
      && t.state == CloseUpdateExpenseDialogBox(s, now)
  {
    match updated
    case Failure(_) => Transition(s, [])
    case Success(_) =>
      var refreshed := FetchAllExpenses(s);
      Transition(CloseUpdateExpenseDialogBox(refreshed.state, now), refreshed.requests)
  }

  /** `openDeleteConfirmDialog`: shows the prompt for this id; nothing is deleted yet. */
  function OpenDeleteConfirmDialog(s: State, id: int): (r: State)
    ensures r.deletePrompt == Some(id)
    ensures r == s.(deletePrompt := Some(id))
  {
    s.(deletePrompt := Some(id))
  }

  /** The prompt's `accept`: the only place a DELETE is started, for the prompted id. */
  function OnDeleteAccepted(s: State): (t: Transition)
    ensures t.state == s.(deletePrompt := None)
    ensures s.deletePrompt.Some? ==> t.requests == [DeleteExpense(s.deletePrompt.value)]
    ensures s.deletePrompt.None? ==> t.requests == []
  {
    match s.deletePrompt
    case None => Transition(s, [])
    case Some(id) => Transition(s.(deletePrompt := None), [DeleteExpense(id)])
  }

  /** The delete promise's `.then`: a completed DELETE is followed by a refresh. */
  function OnDeleteSettled(s: State, deleted: Result<(), Rejection>): (t: Transition)
    ensures t.state == s
    ensures deleted.Success? <==> t.requests == [ListExpenses]
    ensures deleted.Failure? <==> t.requests == []
  {
    match deleted
    case Failure(_) => Transition(s, [])
    case Success(_) => FetchAllExpenses(s)
  }

  /** One event: the widget bindings of the table, the two dialogs and the confirmation
      prompt. `toIso` and `parse` are the host's `toISOString` and `new Date(text)`. */
  function Step(s: State, e: Event, toIso: IsoSerializer, parse: DateParser): (t: Transition)
    // each input writes its own form slot and nothing else
    ensures e.AmountChanged? ==> t == Transition(s.(form := s.form.(amount := e.amount)), [])
    ensures e.DateChanged? ==> t == Transition(s.(form := s.form.(expenseDate := e.date)), [])
    ensures e.DescriptionChanged? ==> t == Transition(s.(form := s.form.(description := Some(e.text))), [])
    // each dialog's hide and submit reach that dialog's own handlers
    ensures e.HideCreateDialog? ==> t == Transition(CloseCreateExpenseDialogBox(s, e.now), [])
    ensures e.SubmitCreate? ==> t == HandleCreateExpenseSubmit(s, toIso)
    ensures e.HideUpdateDialog? ==> t == Transition(CloseUpdateExpenseDialogBox(s, e.now), [])
    ensures e.SubmitUpdate? ==> t == HandleUpdateExpenseSubmit(s, toIso)
    // the row buttons open the update flow and the prompt; dismissing the prompt starts nothing
    ensures e.OpenUpdateDialog? ==> t == OpenUpdateExpenseDialogBox(s, e.id, e.now)
    ensures e.OpenDeleteConfirm? ==> t == Transition(OpenDeleteConfirmDialog(s, e.id), [])
    ensures e.RejectDelete? ==> t == Transition(s.(deletePrompt := None), [])
    // the "Add Expense" button opens the create dialog
    ensures e.OpenCreateDialog? ==> t == Transition(OpenCreateExpenseDialogBox(s), [])
  {
    match e
    case ExpensesFetched(list) => Transition(OnExpensesFetched(s, list), [])
    case OpenCreateDialog => Transition(OpenCreateExpenseDialogBox(s), [])
    case HideCreateDialog(now) => Transition(CloseCreateExpenseDialogBox(s, now), [])
    case AmountChanged(amount) => Transition(s.(form := s.form.(amount := amount)), [])
    case DateChanged(date) => Transition(s.(form := s.form.(expenseDate := date)), [])
    case DescriptionChanged(text) => Transition(s.(form := s.form.(description := Some(text))), [])
    case SubmitCreate => HandleCreateExpenseSubmit(s, toIso)
    case CreateSettled(created, now) => OnCreateSettled(s, created, now)
    case OpenUpdateDialog(id, now) => OpenUpdateExpenseDialogBox(s, id, now)
    case ExpenseFetched(fetched) => Transition(OnExpenseFetched(s, fetched, parse), [])
    case HideUpdateDialog(now) => Transition(CloseUpdateExpenseDialogBox(s, now), [])
    case SubmitUpdate => HandleUpdateExpenseSubmit(s, toIso)
    case UpdateSettled(updated, now) => OnUpdateSettled(s, updated, now)
    case OpenDeleteConfirm(id) => Transition(OpenDeleteConfirmDialog(s, id), [])
    case AcceptDelete => OnDeleteAccepted(s)
    case RejectDelete => Transition(s.(deletePrompt := None), [])
    case DeleteSettled(deleted) => OnDeleteSettled(s, deleted)
  }

  /** Each settled promise reaches its own continuation, and the prompt's accept reaches
      the delete handler. */
  lemma ContinuationsDispatch(s: State, e: Event, toIso: IsoSerializer, parse: DateParser)
    ensures e.ExpensesFetched? ==> Step(s, e, toIso, parse) == Transition(OnExpensesFetched(s, e.list), [])
    ensures e.CreateSettled? ==> Step(s, e, toIso, parse) == OnCreateSettled(s, e.created, e.now)
    ensures e.ExpenseFetched? ==> Step(s, e, toIso, parse) == Transition(OnExpenseFetched(s, e.fetched, parse), [])
    ensures e.UpdateSettled? ==> Step(s, e, toIso, parse) == OnUpdateSettled(s, e.updated, e.now)
    ensures e.AcceptDelete? ==> Step(s, e, toIso, parse) == OnDeleteAccepted(s)
    ensures e.DeleteSettled? ==> Step(s, e, toIso, parse) == OnDeleteSettled(s, e.deleted)
  {
  }

  /** A sequence of events from state s: the final state and every request started, in order. */
  function Run(s: State, events: seq<Event>, toIso: IsoSerializer, parse: DateParser): Transition
    decreases |events|
  {
    if |events| == 0 then Transition(s, [])
    else
      var first := Step(s, events[0], toIso, parse);
      var rest := Run(first.state, events[1..], toIso, parse);
      Transition(rest.state, first.requests + rest.requests)
  }

  /** Two events in a row: the second starts from the first's state, requests concatenate. */
  lemma RunPair(s: State, a: Event, b: Event, toIso: IsoSerializer, parse: DateParser)
    ensures var first := Step(s, a, toIso, parse);
      var second := Step(first.state, b, toIso, parse);
      Run(s, [a, b], toIso, parse) == Transition(second.state, first.requests + second.requests)
  {
    var first := Step(s, a, toIso, parse);
    assert [a, b][1..] == [b];
    assert [b][1..] == [];
    var second := Step(first.state, b, toIso, parse);
    assert Run(first.state, [b], toIso, parse) == Transition(second.state, second.requests + []);
  }

  /** Every event starts at most one request. */
  lemma AtMostOneRequestPerEvent(s: State, e: Event, toIso: IsoSerializer, parse: DateParser)
    ensures |Step(s, e, toIso, parse).requests| <= 1
  {
  }

  /** A DELETE for id is started by an event iff that event is the prompt's `accept`
      while the prompt is showing id. */
  lemma DeleteOnlyFromAccept(s: State, e: Event, toIso: IsoSerializer, parse: DateParser, id: int)
    ensures DeleteExpense(id) in Step(s, e, toIso, parse).requests <==> e == AcceptDelete && s.deletePrompt == Some(id)
  {
  }

  /** The prompt starts showing id only when it is opened for id. */
  lemma PromptOpenedOnlyByOpenDeleteConfirm(s: State, e: Event, toIso: IsoSerializer, parse: DateParser, id: int)
    requires s.deletePrompt != Some(id) && Step(s, e, toIso, parse).state.deletePrompt == Some(id)
    ensures e == OpenDeleteConfirm(id)
  {
  }

  /** Over any run, a DELETE for id is only ever started after a confirmation prompt for id
      was opened (or was already showing at the start). */
  lemma {:induction false} DeleteOnlyAfterConfirmation(s: State, events: seq<Event>, toIso: IsoSerializer, parse: DateParser, id: int)
    requires DeleteExpense(id) in Run(s, events, toIso, parse).requests
    ensures s.deletePrompt == Some(id) || OpenDeleteConfirm(id) in events
    decreases |events|
  {
    var first := Step(s, events[0], toIso, parse);
    var rest := Run(first.state, events[1..], toIso, parse);
    if DeleteExpense(id) in first.requests {
      DeleteOnlyFromAccept(s, events[0], toIso, parse, id);
    } else {
      assert DeleteExpense(id) in rest.requests;
      DeleteOnlyAfterConfirmation(first.state, events[1..], toIso, parse, id);
      if s.deletePrompt == Some(id) {
      } else if first.state.deletePrompt == Some(id) {
        PromptOpenedOnlyByOpenDeleteConfirm(s, events[0], toIso, parse, id);
      } else {
        assert OpenDeleteConfirm(id) in events[1..];
      }
    }
  }

  /** A list refresh is started iff the event is a fulfilled create, update or delete. */
  lemma RefreshOnlyAfterSuccessfulMutation(s: State, e: Event, toIso: IsoSerializer, parse: DateParser)
    ensures ListExpenses in Step(s, e, toIso, parse).requests <==>
      || (e.CreateSettled? && e.created.Success?)
      || (e.UpdateSettled? && e.updated.Success?)
      || (e.DeleteSettled? && e.deleted.Success?)
  {
  }

  /** The list changes only when a fetch is fulfilled, and then it is exactly the response. */
  lemma ListReplacedOnlyByFetch(s: State, e: Event, toIso: IsoSerializer, parse: DateParser)
    ensures var r := Step(s, e, toIso, parse).state;
      && (r.expenses != s.expenses ==> e.ExpensesFetched? && e.list.Success?)
      && (e.ExpensesFetched? && e.list.Success? ==> r.expenses == e.list.value)
  {
  }

  /** A submit followed by a rejected settlement leaves the whole state as it was: the
      dialog stays open and the draft intact. At most the one POST was started. */
  lemma FailedCreateKeepsDraft(s: State, toIso: IsoSerializer, parse: DateParser, why: Rejection, now: Date)
    ensures Run(s, [SubmitCreate, CreateSettled(Failure(why), now)], toIso, parse).state == s
    ensures Run(s, [SubmitCreate, CreateSettled(Failure(why), now)], toIso, parse).requests
      == HandleCreateExpenseSubmit(s, toIso).requests
  {
    RunPair(s, SubmitCreate, CreateSettled(Failure(why), now), toIso, parse);
  }

  /** The same for the update dialog. */
  lemma FailedUpdateKeepsDraft(s: State, toIso: IsoSerializer, parse: DateParser, why: Rejection, now: Date)
    ensures Run(s, [SubmitUpdate, UpdateSettled(Failure(why), now)], toIso, parse).state == s
    ensures Run(s, [SubmitUpdate, UpdateSettled(Failure(why), now)], toIso, parse).requests
      == HandleUpdateExpenseSubmit(s, toIso).requests
  {
    RunPair(s, SubmitUpdate, UpdateSettled(Failure(why), now), toIso, parse);
  }

  /** Opening the update dialog and having the fetch fulfilled shows the dialog with the
      fetched record's fields and the clicked id as target; a rejected fetch leaves it as
      it was, with the target recorded and the draft reset. */
  lemma OpenUpdateThenFetch(s: State, id: int, now: Date, fetched: Result<Expense, Rejection>, toIso: IsoSerializer, parse: DateParser)
    ensures var r := Run(s, [OpenUpdateDialog(id, now), ExpenseFetched(fetched)], toIso, parse);
      && r.requests == [GetExpense(id)]
      && r.state.updatableExpenseId == Some(id)
      && (fetched.Success? ==>
           && r.state.updateDialogVisible
           && r.state.form.amount == Some(fetched.value.amount)
           && r.state.form.expenseDate == Some(parse(fetched.value.expenseDate))
           && r.state.form.description == Some(fetched.value.description))
      && (fetched.Failure? ==>
           && r.state.updateDialogVisible == s.updateDialogVisible
           && r.state.form == ResetForm(now))
  {
    RunPair(s, OpenUpdateDialog(id, now), ExpenseFetched(fetched), toIso, parse);
  }

  /** A PUT only ever goes to the recorded target id, which is neither null nor 0. */
  lemma UpdateTargetsRecordedId(s: State, e: Event, toIso: IsoSerializer, parse: DateParser, id: int, body: ExpenseBody)
    requires UpdateExpense(id, body) in Step(s, e, toIso, parse).requests
    ensures e == SubmitUpdate && s.updatableExpenseId == Some(id) && id != 0
    ensures Some(body.amount) == s.form.amount && Some(body.description) == s.form.description
  {
  }

  /** The update dialog becomes visible only when a record fetch is fulfilled; the create
      dialog closes only by hiding it or by a fulfilled create. */
  lemma DialogsChangeOnlyAsWired(s: State, e: Event, toIso: IsoSerializer, parse: DateParser)
    ensures var r := Step(s, e, toIso, parse).state;
      && (!s.updateDialogVisible && r.updateDialogVisible ==> e.ExpenseFetched? && e.fetched.Success?)
      && (s.createDialogVisible && !r.createDialogVisible ==>
            e.HideCreateDialog? || (e.CreateSettled? && e.created.Success?))
      && (s.updateDialogVisible && !r.updateDialogVisible ==>
            e.HideUpdateDialog? || (e.UpdateSettled? && e.updated.Success?))
  {
  }
}
