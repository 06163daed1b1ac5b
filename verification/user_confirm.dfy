/** The dialog that asks to confirm a status toggle or a permanent delete. */
module UserConfirm {
  import opened Wrappers
  import opened JsText
  import opened UserTypes
  import UsersTable

  datatype ConfirmAction = ToggleStatus | PermanentDelete

  /** What confirming will do to the user. */
  datatype Intent = Deactivate | Activate | Delete

  function IntentOf(u: UserResponse, action: ConfirmAction): (r: Intent)
    ensures r.Delete? <==> action.PermanentDelete?
    ensures r.Deactivate? <==> action.ToggleStatus? && IsActive(u)
  {
    if action.PermanentDelete? then Delete
    else if IsActive(u) then Deactivate
    else Activate
  }

  function Title(i: Intent): string {
    match i
    case Deactivate => "Confirm Deactivate User"
    case Activate => "Confirm Activate User"
    case Delete => "Confirm Permanent Delete"
  }

  /** The second line of the dialog: the status a toggle leaves, or the
      irreversibility of a delete. */
  function Warning(i: Intent): string {
    match i
    case Deactivate => "The user will be marked as inactive."
    case Activate => "The user will be marked as active."
    case Delete => "This action cannot be undone. All data associated with this user will be permanently deleted."
  }

  function ConfirmLabel(i: Intent): string {
    match i
    case Deactivate => "Deactivate User"
    case Activate => "Activate User"
    case Delete => "Delete Permanently"
  }

  /** The user's name as the message shows it. */
  function FullName(u: UserResponse): string {
    u.firstName + " " + u.lastName
  }

  /** The message's words before the name. */
  function MessageLead(i: Intent): string {
    match i
    case Deactivate => "Are you sure you want to deactivate "
    case Activate => "Are you sure you want to activate "
    case Delete => "Are you sure you want to permanently delete "
  }

  /** The message's words after the name: for a toggle, whether the user
      can still log in. */
  function MessageTail(i: Intent): string {
    match i
    case Deactivate => "? They will not be able to log in until reactivated."
    case Activate => "? They will be able to log in again."
    case Delete => "?"
  }

  /** The message paragraph as rendered text: the whitespace-only line
      breaks around the name's `<span>` vanish under JSX's rules. */
  function Message(i: Intent, u: UserResponse): string {
    MessageLead(i) + FullName(u) + MessageTail(i)
  }

  /** The message names the user and ends with the sentence for the intent. */
  lemma MessageNamesUser(i: Intent, u: UserResponse)
    ensures Contains(Message(i, u), FullName(u))
    ensures |MessageTail(i)| <= |Message(i, u)|
    ensures Message(i, u)[|Message(i, u)| - |MessageTail(i)|..] == MessageTail(i)
  {
    ContainsInMiddle(MessageLead(i), FullName(u), MessageTail(i));
    var m := Message(i, u);
    assert m[|m| - |MessageTail(i)|..] == MessageTail(i);
  }

  /** What the open dialog shows; `busy` disables the close, cancel and
      confirm buttons alike. */
  datatype Dialog = Dialog(
    title: string,
    message: string,
    warning: string,
    confirmLabel: string,
    busy: bool)

  /** The dialog is rendered only when open and given a user; the confirm
      button reads "Updating..." or "Deleting..." while the mutation runs. */
  function Render(isOpen: bool, user: Option<UserResponse>, action: ConfirmAction, isPending: bool): (r: Option<Dialog>)
    ensures r.Some? <==> isOpen && user.Some?
    ensures r.Some? ==> r.value.busy == isPending
    ensures r.Some? && !isPending ==> r.value.confirmLabel == ConfirmLabel(IntentOf(user.value, action))
    ensures r.Some? && isPending ==> r.value.confirmLabel == (if action.ToggleStatus? then "Updating..." else "Deleting...")
    ensures r.Some? ==> r.value.title == Title(IntentOf(user.value, action))
    ensures r.Some? ==> r.value.warning == Warning(IntentOf(user.value, action))
    ensures r.Some? ==> r.value.message == Message(IntentOf(user.value, action), user.value)
  {
    if !isOpen || user.None? then None
    else
      var i := IntentOf(user.value, action);
      var confirm :=
        if !isPending then ConfirmLabel(i)
        else if action.ToggleStatus? then "Updating..."
        else "Deleting...";
      Some(Dialog(Title(i), Message(i, user.value), Warning(i), confirm, isPending))
  }

  /** Confirming a toggle names the same action as the table's toggle button
      for that user, and the title repeats it; the warning names the status
      opposite to the one the table's badge shows. */
  lemma ToggleDialogMatchesTable(u: UserResponse)
    ensures var d := Render(true, Some(u), ToggleStatus, false).value;
      && d.confirmLabel == UsersTable.ToggleTitle(u)
      && d.title == "Confirm " + d.confirmLabel
      && (UsersTable.StatusBadge(u) == "Active" ==> d.warning == "The user will be marked as inactive.")
      && (UsersTable.StatusBadge(u) == "Inactive" ==> d.warning == "The user will be marked as active.")
  {
    if IsActive(u) {
      assert "Confirm " + "Deactivate User" == "Confirm Deactivate User";
    } else {
      assert "Confirm " + "Activate User" == "Confirm Activate User";
    }
  }

  /** A toggle's message says the user will be locked out exactly as the
      table's badge says they are active now. */
  lemma ToggleMessageMatchesBadge(u: UserResponse)
    ensures var m := Render(true, Some(u), ToggleStatus, false).value.message;
      && Contains(m, FullName(u))
      && (UsersTable.StatusBadge(u) == "Active" ==> m == Message(Deactivate, u) && MessageTail(Deactivate) == "? They will not be able to log in until reactivated.")
      && (UsersTable.StatusBadge(u) == "Inactive" ==> m == Message(Activate, u) && MessageTail(Activate) == "? They will be able to log in again.")
  {
    MessageNamesUser(IntentOf(u, ToggleStatus), u);
  }

  /** The three intents have three different titles, warnings and labels. */
  lemma IntentTextsDistinct(i1: Intent, i2: Intent)
    requires i1 != i2
    ensures Title(i1) != Title(i2)
    ensures Warning(i1) != Warning(i2)
    ensures ConfirmLabel(i1) != ConfirmLabel(i2)
  {
    TextKeys(i1);
    TextKeys(i2);
  }

  /** One character of each title and label, and each warning's length, tell the intents apart. */
  lemma TextKeys(i: Intent)
    ensures |Title(i)| > 8 && Title(i)[8] == (match i case Deactivate => 'D' case Activate => 'A' case Delete => 'P')
    ensures |ConfirmLabel(i)| > 2 && ConfirmLabel(i)[2] == (match i case Deactivate => 'a' case Activate => 't' case Delete => 'l')
    ensures |Warning(i)| == (match i case Deactivate => 36 case Activate => 34 case Delete => 93)
  {
    match i
    case Deactivate =>
    case Activate =>
    case Delete =>
  }

  /** Different intents get different titles, warnings and confirm labels,
      so the dialog always tells apart what is being confirmed. */
  lemma DialogsAreDistinguishable(u1: UserResponse, a1: ConfirmAction, u2: UserResponse, a2: ConfirmAction)
    requires IntentOf(u1, a1) != IntentOf(u2, a2)
    ensures var d1 := Render(true, Some(u1), a1, false).value;
      var d2 := Render(true, Some(u2), a2, false).value;
      d1.title != d2.title && d1.warning != d2.warning && d1.confirmLabel != d2.confirmLabel
  {
    IntentTextsDistinct(IntentOf(u1, a1), IntentOf(u2, a2));
  }
}
