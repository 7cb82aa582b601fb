/** The earlier, unrouted expense screen (`src/ExpenseList.tsx`) as a state machine of its
    own. It differs from the routed one in its wiring: closing the create dialog keeps the
    draft, the update button only raises a flag, and the "Update Expense" dialog is bound
    to the create dialog's flag and handlers, so that flag is never seen. */
module EarlyExpenseList {
  import opened Wrappers
  import opened DateUtils
  import opened Expenses

  /** The component's `useState` slots, plus the pending delete confirmation. */
  datatype State = State(
    expenses: seq<Expense>,
    createDialogVisible: bool,
    updateDialogVisible: bool,
    form: Form,
    deletePrompt: Option<int>)

  datatype Transition = Transition(state: State, requests: seq<Request>)

  /** What the rendered screen shows: the table rows, which of the two dialogs is up,
      the shared form fields, and the delete prompt. */
  datatype Screen = Screen(
    rows: seq<Expense>,
    createDialogShown: bool,
    updateDialogShown: bool,
    form: Form,
    deletePrompt: Option<int>)

  /** Both dialogs' inputs write the same three slots, so one set of change events serves
      both; the "Update Expense" dialog's hide and submit have events of their own. */
  datatype Event =
    | ExpensesFetched(list: Result<seq<Expense>, Rejection>)
    | OpenCreateDialog
    | HideCreateDialog
    | HideUpdateDialog
    | AmountChanged(amount: Option<real>)
    | DateChanged(date: Option<Date>)
    | DescriptionChanged(text: string)
    | SubmitCreateForm
    | SubmitUpdateForm
    | CreateSettled(created: Result<Expense, Rejection>, now: Date)
    | OpenUpdateDialog(id: int)
    | OpenDeleteConfirm(id: int)
    | AcceptDelete
    | RejectDelete
    | DeleteSettled(deleted: Result<(), Rejection>)

  function Mount(now: Date): (t: Transition)
    ensures t.state.expenses == [] && !t.state.createDialogVisible && !t.state.updateDialogVisible
    ensures t.state.form == ResetForm(now) && t.state.deletePrompt == None
    ensures t.requests == [ListExpenses]
  {
    Transition(State([], false, false, ResetForm(now), None), [ListExpenses])
  }

  /** The render: the "Update Expense" dialog's `visible` is the create flag. */
  function View(s: State): (v: Screen)
    ensures v.rows == s.expenses && v.form == s.form && v.deletePrompt == s.deletePrompt
    ensures v.createDialogShown == s.createDialogVisible && v.updateDialogShown == s.createDialogVisible
  {
    Screen(s.expenses, s.createDialogVisible, s.createDialogVisible, s.form, s.deletePrompt)
  }

  function FetchAllExpenses(s: State): (t: Transition)
    ensures t.state == s && t.requests == [ListExpenses]
  {
    Transition(s, [ListExpenses])
  }

  /** The fetch's continuation replaces the list wholesale; a rejection changes nothing. */
  function OnExpensesFetched(s: State, list: Result<seq<Expense>, Rejection>): (r: State)
    ensures list.Success? ==> r.expenses == list.value
    ensures list.Failure? ==> r == s
    ensures r == s.(expenses := r.expenses)
  {
    match list
    case Success(l) => s.(expenses := l)
    case Failure(_) => s
  }

  function ResetFormFields(s: State, now: Date): (r: State)
    ensures r.form.amount == None && r.form.description == None && r.form.expenseDate == Some(now)
    ensures r == s.(form := r.form)
  {
    s.(form := ResetForm(now))
  }

  function OpenCreateExpenseDialogBox(s: State): (r: State)
    ensures r == s.(createDialogVisible := true)
  {
    s.(createDialogVisible := true)
  }

  /** `closeCreateExpenseDialogBox`: only the flag; the draft survives. */
  function CloseCreateExpenseDialogBox(s: State): (r: State)
    ensures !r.createDialogVisible
    ensures r.form == s.form
    ensures r == s.(createDialogVisible := false)
  {
    s.(createDialogVisible := false)
  }

  /** `handleCreateExpenseSubmit`: state untouched; a POST only when `createExpense`'s guard
      and date serialisation pass. */
  function HandleCreateExpenseSubmit(s: State, toIso: IsoSerializer): (t: Transition)
    ensures t.state == s
    ensures CreateExpenseCall(s.form, toIso).Failure? <==> t.requests == []
    ensures CreateExpenseCall(s.form, toIso).Success? ==> t.requests == [CreateExpenseCall(s.form, toIso).value]
  {
    match CreateExpenseCall(s.form, toIso)
    case Failure(_) => Transition(s, [])
    case Success(request) => Transition(s, [request])
  }

  /** The create promise's `.then`: reset the form, refresh, then clear the create flag;
      a rejection changes nothing. */
  function OnCreateSettled(s: State, created: Result<Expense, Rejection>, now: Date): (t: Transition)
    ensures created.Failure? ==> t == Transition(s, [])
    ensures created.Success? ==>
      && t.requests == [ListExpenses]
      && t.state == s.(form := ResetForm(now), createDialogVisible := false)
  {
    match created
    case Failure(_) => Transition(s, [])
    case Success(_) =>
      var reset := ResetFormFields(s, now);
      var refreshed := FetchAllExpenses(reset);
      Transition(CloseCreateExpenseDialogBox(refreshed.state), refreshed.requests)
  }

  /** `closeUpdateExpenseDialogBox`: clears the update flag. Nothing in the screen calls it,
      so no event below leads here. */
  function CloseUpdateExpenseDialogBox(s: State): (r: State)
    ensures !r.updateDialogVisible
    ensures r == s.(updateDialogVisible := false)
  {
    s.(updateDialogVisible := false)
  }

  /** `openUpdateExpenseDialogBox`: the id is ignored and only the update flag is raised. */
  function OpenUpdateExpenseDialogBox(s: State, id: int): (r: State)
    ensures r == s.(updateDialogVisible := true)
  {
    s.(updateDialogVisible := true)
  }

  function OpenDeleteConfirmDialog(s: State, id: int): (r: State)
    ensures r == s.(deletePrompt := Some(id))
  {
    s.(deletePrompt := Some(id))
  }

  /** The prompt's `accept` calls `deleteExpense` for the prompted id. */
  function OnDeleteAccepted(s: State): (t: Transition)
    ensures t.state == s.(deletePrompt := None)
    ensures s.deletePrompt.Some? ==> t.requests == [DeleteExpense(s.deletePrompt.value)]
    ensures s.deletePrompt.None? ==> t.requests == []
  {
    match s.deletePrompt
    case None => Transition(s, [])
    case Some(id) => Transition(s.(deletePrompt := None), [DeleteExpense(id)])
  }

  /** `deleteExpense` after its `await`: the refresh runs only once the DELETE completed. */
  function OnDeleteSettled(s: State, deleted: Result<(), Rejection>): (t: Transition)
    ensures t.state == s
    ensures deleted.Success? <==> t.requests == [ListExpenses]
    ensures deleted.Failure? <==> t.requests == []
  {
    match deleted
    case Failure(_) => Transition(s, [])
    case Success(_) => FetchAllExpenses(s)
  }

  /** One event: the widget bindings of the table, the two dialogs and the confirmation
      prompt. The "Update Expense" dialog's hide and submit run the create handlers. */
  function Step(s: State, e: Event, toIso: IsoSerializer): (t: Transition)
    // each input writes its own form slot and nothing else
    ensures e.AmountChanged? ==> t == Transition(s.(form := s.form.(amount := e.amount)), [])
    ensures e.DateChanged? ==> t == Transition(s.(form := s.form.(expenseDate := e.date)), [])
    ensures e.DescriptionChanged? ==> t == Transition(s.(form := s.form.(description := Some(e.text))), [])
    // both dialogs' hide and submit reach the create handlers
    ensures e.HideCreateDialog? || e.HideUpdateDialog? ==> t == Transition(CloseCreateExpenseDialogBox(s), [])
    ensures e.SubmitCreateForm? || e.SubmitUpdateForm? ==> t == HandleCreateExpenseSubmit(s, toIso)
    // the edit button only raises the update flag; the delete button only opens the prompt
    ensures e.OpenUpdateDialog? ==> t == Transition(s.(updateDialogVisible := true), [])
    ensures e.OpenDeleteConfirm? ==> t == Transition(s.(deletePrompt := Some(e.id)), [])
    ensures e.RejectDelete? ==> t == Transition(s.(deletePrompt := None), [])
    // the "Add Expense" button opens the create dialog
    ensures e.OpenCreateDialog? ==> t == Transition(OpenCreateExpenseDialogBox(s), [])
  {
    match e
    case ExpensesFetched(list) => Transition(OnExpensesFetched(s, list), [])
    case OpenCreateDialog => Transition(OpenCreateExpenseDialogBox(s), [])
    case HideCreateDialog => Transition(CloseCreateExpenseDialogBox(s), [])
    case HideUpdateDialog => Transition(CloseCreateExpenseDialogBox(s), [])
    case AmountChanged(amount) => Transition(s.(form := s.form.(amount := amount)), [])
    case DateChanged(date) => Transition(s.(form := s.form.(expenseDate := date)), [])
    case DescriptionChanged(text) => Transition(s.(form := s.form.(description := Some(text))), [])
    case SubmitCreateForm => HandleCreateExpenseSubmit(s, toIso)
    case SubmitUpdateForm => HandleCreateExpenseSubmit(s, toIso)
    case CreateSettled(created, now) => OnCreateSettled(s, created, now)
    case OpenUpdateDialog(id) => Transition(OpenUpdateExpenseDialogBox(s, id), [])
    case OpenDeleteConfirm(id) => Transition(OpenDeleteConfirmDialog(s, id), [])
    case AcceptDelete => OnDeleteAccepted(s)
    case RejectDelete => Transition(s.(deletePrompt := None), [])
    case DeleteSettled(deleted) => OnDeleteSettled(s, deleted)
  }

  /** Each settled promise reaches its own continuation, and the prompt's accept reaches
      the delete handler. */
  lemma ContinuationsDispatch(s: State, e: Event, toIso: IsoSerializer)
    ensures e.ExpensesFetched? ==> Step(s, e, toIso) == Transition(OnExpensesFetched(s, e.list), [])
    ensures e.CreateSettled? ==> Step(s, e, toIso) == OnCreateSettled(s, e.created, e.now)
    ensures e.AcceptDelete? ==> Step(s, e, toIso) == OnDeleteAccepted(s)
    ensures e.DeleteSettled? ==> Step(s, e, toIso) == OnDeleteSettled(s, e.deleted)
  {
  }

  function Run(s: State, events: seq<Event>, toIso: IsoSerializer): Transition
    decreases |events|
  {
    if |events| == 0 then Transition(s, [])
    else
      var first := Step(s, events[0], toIso);
      var rest := Run(first.state, events[1..], toIso);
      Transition(rest.state, first.requests + rest.requests)
  }

  /** Submitting the "Update Expense" form does exactly what submitting the create form does:
      it may POST a new expense, and never PUTs. */
  lemma UpdateFormSubmitsCreate(s: State, toIso: IsoSerializer)
    ensures Step(s, SubmitUpdateForm, toIso) == Step(s, SubmitCreateForm, toIso)
    ensures forall r :: r in Step(s, SubmitUpdateForm, toIso).requests ==> r.CreateExpense?
  {
  }

  /** The update flag is raised only by the update button and no event ever lowers it. */
  lemma UpdateFlagOnlyRises(s: State, e: Event, toIso: IsoSerializer)
    ensures s.updateDialogVisible ==> Step(s, e, toIso).state.updateDialogVisible
    ensures !s.updateDialogVisible && Step(s, e, toIso).state.updateDialogVisible ==> e.OpenUpdateDialog?
  {
  }

  /** Once raised, the update flag stays raised for the rest of any run. */
  lemma {:induction false} UpdateFlagStaysSet(s: State, events: seq<Event>, toIso: IsoSerializer)
    requires s.updateDialogVisible
    ensures Run(s, events, toIso).state.updateDialogVisible
    decreases |events|
  {
    if |events| > 0 {
      UpdateFlagOnlyRises(s, events[0], toIso);
      UpdateFlagStaysSet(Step(s, events[0], toIso).state, events[1..], toIso);
    }
  }

  /** The update button's id reaches nothing: two clicks on different rows lead to the same state. */
  lemma OpenUpdateIgnoresId(s: State, a: int, b: int, toIso: IsoSerializer)
    ensures Step(s, OpenUpdateDialog(a), toIso) == Step(s, OpenUpdateDialog(b), toIso)
  {
  }

  /** One event on two states that differ only in the update flag: same requests, same
      screen, and the states still differ only in that flag. */
  lemma StepIgnoresUpdateFlag(s1: State, s2: State, e: Event, toIso: IsoSerializer)
    requires s1 == s2.(updateDialogVisible := s1.updateDialogVisible)
    ensures var t1 := Step(s1, e, toIso); var t2 := Step(s2, e, toIso);
      && t1.requests == t2.requests
      && View(t1.state) == View(t2.state)
      && t1.state == t2.state.(updateDialogVisible := t1.state.updateDialogVisible)
  {
  }

  /** The update flag is unobservable: from two states that differ only in it, any run of
      events starts the same requests and ends on the same screen. */
  lemma {:induction false} UpdateFlagUnobservable(s1: State, s2: State, events: seq<Event>, toIso: IsoSerializer)
    requires s1 == s2.(updateDialogVisible := s1.updateDialogVisible)
    ensures Run(s1, events, toIso).requests == Run(s2, events, toIso).requests
    ensures View(Run(s1, events, toIso).state) == View(Run(s2, events, toIso).state)
    decreases |events|
  {
    if |events| > 0 {
      StepIgnoresUpdateFlag(s1, s2, events[0], toIso);
      UpdateFlagUnobservable(Step(s1, events[0], toIso).state, Step(s2, events[0], toIso).state, events[1..], toIso);
    } else {
      assert View(s1) == View(s2);
    }
  }

  /** Hiding either dialog lowers the create flag and keeps the draft. */
  lemma HideKeepsDraft(s: State, toIso: IsoSerializer)
    ensures Step(s, HideCreateDialog, toIso).state == s.(createDialogVisible := false)
    ensures Step(s, HideUpdateDialog, toIso).state == s.(createDialogVisible := false)
    ensures Step(s, HideUpdateDialog, toIso).state.updateDialogVisible == s.updateDialogVisible
  {
  }

  /** Every event starts at most one request, and a PUT or a record fetch never. */
  lemma RequestsOfAStep(s: State, e: Event, toIso: IsoSerializer)
    ensures |Step(s, e, toIso).requests| <= 1
    ensures forall r :: r in Step(s, e, toIso).requests ==> !r.UpdateExpense? && !r.GetExpense?
  {
  }

  /** A DELETE for id is started iff the event is the prompt's `accept` while it shows id;
      a refresh iff the event is a fulfilled create or delete. */
  lemma RequestSources(s: State, e: Event, toIso: IsoSerializer, id: int)
    ensures DeleteExpense(id) in Step(s, e, toIso).requests <==> e == AcceptDelete && s.deletePrompt == Some(id)
    ensures ListExpenses in Step(s, e, toIso).requests <==>
      || (e.CreateSettled? && e.created.Success?)
      || (e.DeleteSettled? && e.deleted.Success?)
  {
  }

  lemma PromptOpenedOnlyByOpenDeleteConfirm(s: State, e: Event, toIso: IsoSerializer, id: int)
    requires s.deletePrompt != Some(id) && Step(s, e, toIso).state.deletePrompt == Some(id)
    ensures e == OpenDeleteConfirm(id)
  {
  }

  /** Over any run, a DELETE for id follows a confirmation prompt for id. */
  lemma {:induction false} DeleteOnlyAfterConfirmation(s: State, events: seq<Event>, toIso: IsoSerializer, id: int)
    requires DeleteExpense(id) in Run(s, events, toIso).requests
    ensures s.deletePrompt == Some(id) || OpenDeleteConfirm(id) in events
    decreases |events|
  {
    var first := Step(s, events[0], toIso);
    var rest := Run(first.state, events[1..], toIso);
    if DeleteExpense(id) in first.requests {
      RequestSources(s, events[0], toIso, id);
    } else {
      assert DeleteExpense(id) in rest.requests;
      DeleteOnlyAfterConfirmation(first.state, events[1..], toIso, id);
      if s.deletePrompt == Some(id) {
      } else if first.state.deletePrompt == Some(id) {
        PromptOpenedOnlyByOpenDeleteConfirm(s, events[0], toIso, id);
      } else {
        assert OpenDeleteConfirm(id) in events[1..];
      }
    }
  }

  /** A submit followed by a rejected settlement leaves the whole state as it was. */
  lemma FailedCreateKeepsDraft(s: State, toIso: IsoSerializer, why: Rejection, now: Date)
    ensures Run(s, [SubmitCreateForm, CreateSettled(Failure(why), now)], toIso).state == s
  {
    var first := Step(s, SubmitCreateForm, toIso);
    assert [SubmitCreateForm, CreateSettled(Failure(why), now)][1..] == [CreateSettled(Failure(why), now)];
    assert [CreateSettled(Failure(why), now)][1..] == [];
    assert Run(first.state, [CreateSettled(Failure(why), now)], toIso).state == s;
  }
}
