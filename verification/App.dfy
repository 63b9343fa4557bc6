/**
 * The `App` component's state and the handlers that move it: the to-do list
 * together with the form's edit session, hydration from and mirroring to
 * local storage, and a runner that applies a sequence of user actions.
 */
module App {
  import opened Wrappers
  import opened Text
  import opened TodoList

  /**
   * The form's state: whether an existing record is being edited, the id of
   * the record targeted by the edit (`undefined` is `None`), and the draft
   * title and completed flag bound to the form's inputs.
   */
  datatype Session = Session(isEditing: bool, updateItemId: Option<Id>, title: string, isCompleted: bool)

  datatype State = State(todos: seq<Todo>, session: Session)

  /** The session the component starts with and returns to after a submit. */
  const Idle: Session := Session(false, None, "", false)

  /** A not-editing state has nothing to edit; the target is defined while editing. */
  predicate Consistent(s: State)
  {
    s.session.isEditing ==> s.session.updateItemId.Some?
  }

  /**
   * Submitting the form. A blank draft does nothing. Otherwise, when not
   * editing, a record `{freshId, title, isCompleted}` is appended; when
   * editing a defined target, every record with the target id is overwritten
   * by the draft. Either way the session then returns to `Idle`.
   */
  function Submit(s: State, freshId: Id): (r: State)
    ensures IsBlank(s.session.title) ==> r == s
    ensures !IsBlank(s.session.title) ==> r.session == Idle
    ensures !IsBlank(s.session.title) && !s.session.isEditing ==>
      && |r.todos| == |s.todos| + 1
      && r.todos[..|s.todos|] == s.todos
      && r.todos[|s.todos|] == Todo(freshId, s.session.title, s.session.isCompleted)
    ensures !IsBlank(s.session.title) && s.session.isEditing && s.session.updateItemId.Some? ==>
      var u := s.session.updateItemId.value;
      && |r.todos| == |s.todos|
      && (forall i :: 0 <= i < |s.todos| && s.todos[i].id == u ==>
            r.todos[i] == Todo(u, s.session.title, s.session.isCompleted))
      && (forall i :: 0 <= i < |s.todos| && s.todos[i].id != u ==> r.todos[i] == s.todos[i])
    ensures !IsBlank(s.session.title) && s.session.isEditing && s.session.updateItemId.None? ==>
      r.todos == s.todos
  {
    var d := s.session;
    if Trim(d.title) == [] then s
    else
      var todos :=
        if !d.isEditing then s.todos + [Todo(freshId, d.title, d.isCompleted)]
        else if d.updateItemId.Some? then
          ReplaceById(s.todos, d.updateItemId.value, Todo(d.updateItemId.value, d.title, d.isCompleted))
        else s.todos;
      State(todos, Idle)
  }

  /** Leaving the edit: the draft is cleared but the target id is kept. */
  function CancelEdit(s: State): (r: State)
    ensures r.todos == s.todos
    ensures !r.session.isEditing && r.session.title == [] && !r.session.isCompleted
    ensures r.session.updateItemId == s.session.updateItemId
  {
    State(s.todos, s.session.(isEditing := false, title := "", isCompleted := false))
  }

  /** Flipping the `completed` flag of every record with `id`. */
  function Toggle(s: State, id: Id): (r: State)
    ensures r.session == s.session
    ensures |r.todos| == |s.todos|
    ensures forall i :: 0 <= i < |s.todos| && s.todos[i].id == id ==>
      r.todos[i].id == id && r.todos[i].title == s.todos[i].title
      && r.todos[i].completed == !s.todos[i].completed
    ensures forall i :: 0 <= i < |s.todos| && s.todos[i].id != id ==> r.todos[i] == s.todos[i]
  {
    State(ToggleById(s.todos, id), s.session)
  }

  /** Entering the edit of `item`: the draft is loaded from it and it becomes the target. */
  function StartEdit(s: State, item: Todo): (r: State)
    ensures r.todos == s.todos
    ensures r.session.isEditing && r.session.updateItemId == Some(item.id)
    ensures r.session.title == item.title && r.session.isCompleted == item.completed
  {
    State(s.todos, Session(true, Some(item.id), item.title, item.completed))
  }

  /** Deleting every record with `id`. */
  function Delete(s: State, id: Id): (r: State)
    ensures r.session == s.session
    ensures forall t :: t in r.todos <==> t in s.todos && t.id != id
    ensures |r.todos| == |s.todos| - CountId(s.todos, id)
    ensures IsSubsequence(r.todos, s.todos)
  {
    State(RemoveById(s.todos, id), s.session)
  }

  /** Typing into the title input. */
  function TypeTitle(s: State, title: string): (r: State)
    ensures r.todos == s.todos && r.session.title == title
    ensures r.session.isEditing == s.session.isEditing
    ensures r.session.updateItemId == s.session.updateItemId
    ensures r.session.isCompleted == s.session.isCompleted
  {
    State(s.todos, s.session.(title := title))
  }

  /** Ticking the form's checkbox. */
  function CheckDraft(s: State, checked: bool): (r: State)
    ensures r.todos == s.todos && r.session.isCompleted == checked
    ensures r.session.isEditing == s.session.isEditing
    ensures r.session.updateItemId == s.session.updateItemId
    ensures r.session.title == s.session.title
  {
    State(s.todos, s.session.(isCompleted := checked))
  }

  /**
   * The list read back from local storage at start-up, already parsed;
   * `None` when the key is missing or empty or its contents do not parse.
   */
  type Stored = Option<seq<Todo>>

  /** Start-up hydration: a stored, non-empty list replaces the current one. */
  function Hydrate(current: seq<Todo>, stored: Stored): (r: seq<Todo>)
    ensures stored.Some? && |stored.value| > 0 ==> r == stored.value
    ensures stored.None? || |stored.value| == 0 ==> r == current
  {
    match stored
    case Some(parsed) => if |parsed| > 0 then parsed else current
    case None => current
  }

  /** The state of a freshly loaded page: the hydrated list and an idle form. */
  function Load(stored: Stored): (r: State)
    ensures r.session == Idle && Consistent(r)
    ensures stored.Some? && |stored.value| > 0 ==> r.todos == stored.value
    ensures stored.None? || |stored.value| == 0 ==> r.todos == []
  {
    State(Hydrate([], stored), Idle)
  }

  /**
   * Reloading the page after the list was written (the effect stores the
   * list on every change) gives back that list, the empty one included.
   */
  lemma ReloadRoundTrip(todos: seq<Todo>)
    ensures Load(Some(todos)).todos == todos
  {
    if |todos| == 0 {
      assert todos == [];
    }
  }

  /** The user intents the page forwards to the component. */
  datatype Action =
    | SubmitForm(freshId: Id)
    | CancelForm
    | ToggleItem(id: Id)
    | EditItem(item: Todo)
    | DeleteItem(id: Id)
    | Type(title: string)
    | Check(checked: bool)

  /** The handler the action is forwarded to. */
  function Step(s: State, a: Action): (r: State)
  {
    match a
    case SubmitForm(f) => Submit(s, f)
    case CancelForm => CancelEdit(s)
    case ToggleItem(id) => Toggle(s, id)
    case EditItem(item) => StartEdit(s, item)
    case DeleteItem(id) => Delete(s, id)
    case Type(t) => TypeTitle(s, t)
    case Check(c) => CheckDraft(s, c)
  }

  /** The state after the actions, in order. */
  function Run(s: State, actions: seq<Action>): (r: State)
    decreases |actions|
  {
    if actions == [] then s else Run(Step(s, actions[0]), actions[1..])
  }

  /** Every handler keeps the target defined while editing. */
  lemma StepConsistent(s: State, a: Action)
    requires Consistent(s)
    ensures Consistent(Step(s, a))
  {
  }

  /** From a loaded page, whatever the user does, editing always has a target. */
  lemma {:induction false} RunConsistent(s: State, actions: seq<Action>)
    requires Consistent(s)
    ensures Consistent(Run(s, actions))
    decreases |actions|
  {
    if actions != [] {
      StepConsistent(s, actions[0]);
      RunConsistent(Step(s, actions[0]), actions[1..]);
    }
  }

  /** Every state a loaded page can reach has a target whenever it is editing. */
  lemma ReachableConsistent(stored: Stored, actions: seq<Action>)
    ensures Consistent(Run(Load(stored), actions))
  {
    RunConsistent(Load(stored), actions);
  }

  /** Every record of the list has a title that is not all white space. */
  predicate TitlesNonBlank(todos: seq<Todo>)
  {
    forall i :: 0 <= i < |todos| ==> !IsBlank(todos[i].title)
  }

  /** No handler puts a record with a blank title into the list. */
  lemma StepKeepsTitles(s: State, a: Action)
    requires TitlesNonBlank(s.todos)
    ensures TitlesNonBlank(Step(s, a).todos)
  {
    match a
    case DeleteItem(id) =>
      var r := Step(s, a).todos;
      forall i | 0 <= i < |r|
        ensures !IsBlank(r[i].title)
      {
        assert r[i] in r;
        var j :| 0 <= j < |s.todos| && s.todos[j] == r[i];
      }
    case _ =>
  }

  /** After any sequence of user actions the list still has no blank title. */
  lemma {:induction false} RunKeepsTitles(s: State, actions: seq<Action>)
    requires TitlesNonBlank(s.todos)
    ensures TitlesNonBlank(Run(s, actions).todos)
    decreases |actions|
  {
    if actions != [] {
      StepKeepsTitles(s, actions[0]);
      RunKeepsTitles(Step(s, actions[0]), actions[1..]);
    }
  }

  /**
   * Titles are never blank on a loaded page when the stored list has none:
   * the submit guard is what keeps blank drafts out of the list.
   */
  lemma ReachableTitlesNonBlank(stored: Stored, actions: seq<Action>)
    requires stored.Some? ==> TitlesNonBlank(stored.value)
    ensures TitlesNonBlank(Run(Load(stored), actions).todos)
  {
    RunKeepsTitles(Load(stored), actions);
  }

  /**
   * So on a reachable page a non-blank submit while editing always overwrites
   * the target: the branch that leaves the list alone is never taken.
   */
  lemma EditingSubmitUpdates(s: State, freshId: Id)
    requires Consistent(s) && s.session.isEditing && !IsBlank(s.session.title)
    ensures var u := s.session.updateItemId.value;
      Submit(s, freshId).todos == ReplaceById(s.todos, u, Todo(u, s.session.title, s.session.isCompleted))
  {
  }

  /**
   * Editing a record and submitting without changes leaves the list as it
   * was (a blank title submits nothing), provided no other record shares its id with a different content.
   */
  lemma EditUnchangedIsIdentity(s: State, item: Todo, freshId: Id)
    requires forall t :: t in s.todos && t.id == item.id ==> t == item
    ensures Submit(StartEdit(s, item), freshId).todos == s.todos
  {
    var r := Submit(StartEdit(s, item), freshId).todos;
    assert forall i :: 0 <= i < |s.todos| ==> s.todos[i] in s.todos;
    assert forall i :: 0 <= i < |s.todos| ==> r[i] == s.todos[i];
  }

  /**
   * Cancelling an edit forgets the draft but not the target; the next
   * non-blank submit then adds a new record instead of overwriting it.
   */
  lemma CancelThenSubmitAdds(s: State, item: Todo, title: string, freshId: Id)
    requires !IsBlank(title)
    ensures var c := TypeTitle(CancelEdit(StartEdit(s, item)), title);
      && c.session.updateItemId == Some(item.id)
      && Submit(c, freshId).todos == s.todos + [Todo(freshId, title, false)]
  {
    var c := TypeTitle(CancelEdit(StartEdit(s, item)), title);
    var r := Submit(c, freshId).todos;
    assert r == r[..|s.todos|] + [r[|s.todos|]];
  }

  /** The walk-through: add "Buy milk", toggle it, delete it. */
  lemma BuyMilk(freshId: Id)
    ensures var s1 := Submit(TypeTitle(Load(None), "Buy milk"), freshId);
      && s1.todos == [Todo(freshId, "Buy milk", false)]
      && Toggle(s1, freshId).todos == [Todo(freshId, "Buy milk", true)]
      && Delete(Toggle(s1, freshId), freshId).todos == []
  {
    var s0 := TypeTitle(Load(None), "Buy milk");
    assert !IsTrimmable(s0.session.title[0]);
    var s1 := Submit(s0, freshId);
    assert s1.todos == s1.todos[..0] + [s1.todos[0]];
    var s2 := Toggle(s1, freshId);
    assert s2.todos == [s2.todos[0]];
    var s3 := Delete(s2, freshId);
    assert |s3.todos| == 0;
  }
}
