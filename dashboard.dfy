/**
 * The `App` component's state and handlers. Each remote call is replaced by
 * the outcome the caller passes in, and each notification the handler shows
 * is returned.
 */
module Dashboard {
  import opened Wrappers
  import opened JsValues
  import opened UserList

  /** What `notification.success` / `notification.error` displays. */
  datatype Notice = Success(message: string) | Error(message: string)

  /** How `axios.get` of the collection settled. */
  datatype FetchOutcome = Fetched(data: Users) | FetchFailed

  /** How `axios.put` / `axios.post` settled; `data` is the response body (ignored after a PUT). */
  datatype SaveOutcome = Saved(data: Record) | SaveFailed

  class App {
    var users: Users
    var loading: bool
    var isModalOpen: bool
    var isEditing: bool
    var currentUser: Option<Record>

    /**
     * A user is under edit exactly when the form is in edit mode, so an edit
     * submit never meets a missing user (see `HandleAddOrEdit`).
     */
    ghost predicate Valid()
      reads this
    {
      isEditing <==> currentUser.Some?
    }

    /** The `useState` initial values. */
    constructor ()
      ensures Valid()
      ensures users == [] && !loading && !isModalOpen && !isEditing && currentUser == None
    {
      users := [];
      loading := false;
      isModalOpen := false;
      isEditing := false;
      currentUser := None;
    }

    /** Load the collection: replace-all on success, `loading` ends false either way. */
    method FetchUsers(outcome: FetchOutcome) returns (notice: Option<Notice>)
      modifies this
      ensures users == (if outcome.Fetched? then outcome.data else old(users))
      ensures !loading
      ensures notice == (if outcome.Fetched? then None else Some(Error("Error fetching users.")))
      ensures isModalOpen == old(isModalOpen) && isEditing == old(isEditing) && currentUser == old(currentUser)
      ensures old(Valid()) ==> Valid()
    {
      loading := true;
      match outcome {
        case Fetched(data) =>
          users := data;
          notice := None;
        case FetchFailed =>
          notice := Some(Error("Error fetching users."));
      }
      loading := false;
    }

    /** Delete the user with `id`; on failure the collection is untouched. */
    method HandleDelete(id: Value, ok: bool) returns (notice: Notice)
      modifies this
      ensures users == (if ok then Remove(old(users), id) else old(users))
      ensures ok ==> |users| == |old(users)| - CountId(old(users), id)
      ensures ok ==> forall i | 0 <= i < |users| :: IdOf(users[i]) != id
      ensures ok ==> IsSubsequence(users, old(users))
      ensures UniqueIds(old(users)) ==> UniqueIds(users)
      ensures notice == (if ok then Success("User deleted successfully.") else Error("Error deleting user."))
      ensures loading == old(loading) && isModalOpen == old(isModalOpen)
      ensures isEditing == old(isEditing) && currentUser == old(currentUser)
    {
      if ok {
        RemoveLength(users, id);
        RemoveKeepsOrder(users, id);
        if UniqueIds(users) {
          RemoveKeepsUnique(users, id);
        }
        users := Remove(users, id);
        notice := Success("User deleted successfully.");
      } else {
        notice := Error("Error deleting user.");
      }
    }

    /**
     * Submit the form: edit the user under edit, or create a user with the
     * client's candidate id. Whatever the outcome, the modal closes and the
     * edit session is reset.
     */
    method HandleAddOrEdit(values: Record, outcome: SaveOutcome) returns (notice: Notice)
      modifies this
      ensures old(isEditing) && old(currentUser).Some? && outcome.Saved? ==>
        users == ApplyEdit(old(users), old(currentUser).value, values)
        && notice == Success("User updated successfully.")
      ensures !old(isEditing) && outcome.Saved? ==>
        users == old(users) + [CreatedEntry(NewUserDraft(old(users), values), outcome.data)]
        && notice == Success("User added successfully.")
      ensures outcome.SaveFailed? || (old(isEditing) && old(currentUser) == None) ==>
        users == old(users) && notice == Error("Error saving user.")
      ensures old(Valid()) && old(isEditing) && outcome.Saved? ==> notice == Success("User updated successfully.")
      ensures UniqueIds(old(users)) && "id" !in values ==> UniqueIds(users)
      ensures !isModalOpen && currentUser == None && !isEditing
      ensures loading == old(loading)
      ensures Valid()
    {
      if isEditing {
        match currentUser {
          case None =>
            // `currentUser.id` throws before any request is made
            notice := Error("Error saving user.");
          case Some(current) =>
            if outcome.Saved? {
              if UniqueIds(users) && "id" !in values {
                EditKeepsUnique(users, current, values);
              }
              users := ApplyEdit(users, current, values);
              notice := Success("User updated successfully.");
            } else {
              notice := Error("Error saving user.");
            }
        }
      } else {
        var draft := NewUserDraft(users, values);
        if outcome.Saved? {
          if UniqueIds(users) && "id" !in values {
            AppendKeepsUnique(users, values, outcome.data);
          }
          users := users + [CreatedEntry(draft, outcome.data)];
          notice := Success("User added successfully.");
        } else {
          notice := Error("Error saving user.");
        }
      }
      isModalOpen := false;
      currentUser := None;
      isEditing := false;
    }

    /** Open the form to create a user. */
    method OpenAddModal()
      modifies this
      ensures currentUser == None && !isEditing && isModalOpen
      ensures users == old(users) && loading == old(loading)
      ensures Valid()
    {
      currentUser := None;
      isEditing := false;
      isModalOpen := true;
    }

    /** Open the form to edit `user`, its department normalised to a string. */
    method OpenEditModal(user: Record)
      modifies this
      ensures currentUser == Some(NormalizeForEdit(user)) && isEditing && isModalOpen
      ensures users == old(users) && loading == old(loading)
      ensures Valid()
    {
      currentUser := Some(NormalizeForEdit(user));
      isEditing := true;
      isModalOpen := true;
    }

    /** The modal's `onCancel`: close it and change nothing else. */
    method CancelModal()
      modifies this
      ensures !isModalOpen
      ensures users == old(users) && loading == old(loading)
      ensures isEditing == old(isEditing) && currentUser == old(currentUser)
      ensures old(Valid()) ==> Valid()
    {
      isModalOpen := false;
    }
  }

  /** The scenarios the dashboard is expected to go through, followed on the model. */
  method Scenarios() {
    var app := new App();
    var a: Record := map["id" := Num(1), "name" := Str("A"), "email" := Str("a@x.com")];
    var fetched := app.FetchUsers(Fetched([a]));
    assert fetched == None && |app.users| == 1 && DepartmentLabel(Get(app.users[0], "company")) == Str("N/A");

    // a failed edit closes the modal and leaves the entry alone
    app.OpenEditModal(a);
    var s := app.HandleAddOrEdit(map["name" := Str("Z")], SaveFailed);
    assert app.users == [a] && !app.isModalOpen && s == Error("Error saving user.");

    // deleting an absent id changes nothing
    var d := app.HandleDelete(Num(7), true);
    assert app.users == [a];

    // creating into an empty collection gets id 1, whatever the server echoes
    d := app.HandleDelete(Num(1), true);
    assert app.users == [];
    app.OpenAddModal();
    s := app.HandleAddOrEdit(map["name" := Str("B"), "email" := Str("b@x.com")], Saved(map["id" := Num(11)]));
    assert IdOf(app.users[0]) == Num(1);
  }
}
