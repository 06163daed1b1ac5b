/** The add/edit user dialog: which form it starts from, what it sends on
    submit, and the labels that follow the pending state. */
module AddUser {
  import opened Wrappers
  import opened UserTypes
  import opened UserSchema

  /** `!!editUser`: the dialog edits when it was handed a user. */
  predicate IsEditMode(editUser: Option<User>) {
    editUser.Some?
  }

  /** The default values the form is created with. */
  const BlankForm: Registration := Registration("", "", "", "", "", "", "", "")

  /** The form the dialog shows when it opens: the user's six fields with
      empty password boxes when editing, the blank form otherwise. A string
      field `|| ""` is the field itself, since only "" is falsy among strings. */
  function FormOnOpen(editUser: Option<User>): (r: Registration)
    ensures r.password == "" && r.confirmPassword == ""
    ensures editUser.None? ==> r == BlankForm
  {
    match editUser
    case None => BlankForm
    case Some(u) => Registration(u.firstName, u.lastName, u.email, u.nic, u.phone, u.role, "", "")
  }

  /** What the dialog sends: an update of the edited user, or a sign-up. */
  datatype Submission =
    | Update(userId: string, body: UpdateUserBody)
    | Signup(form: Registration)

  /** `onSubmit`: an update needs edit mode and a non-empty id; the update
      carries the six profile fields and the password only when one was
      typed, never the confirmation or a status. Anything else signs up the
      whole form, confirmation included. */
  function OnSubmit(editUser: Option<User>, form: Registration): (r: Submission)
    ensures r.Update? <==> editUser.Some? && editUser.value.id != ""
    ensures r.Update? ==> r.userId == editUser.value.id
    ensures r.Update? ==> (r.body.password.Some? <==> form.password != "")
    ensures r.Update? && r.body.password.Some? ==> r.body.password.value == form.password
    ensures r.Update? ==> r.body.isActive.None?
    ensures r.Signup? ==> r.form == form
  {
    if IsEditMode(editUser) && editUser.value.id != "" then
      var password := if |form.password| > 0 then Some(form.password) else None;
      Update(editUser.value.id,
        UpdateUserBody(Some(form.firstName), Some(form.lastName), Some(form.email), Some(form.nic),
                       Some(form.phone), Some(form.role), password, None))
    else
      Signup(form)
  }

  /** The submitted profile fields are exactly the form's. */
  lemma UpdateCarriesForm(editUser: Option<User>, form: Registration)
    requires OnSubmit(editUser, form).Update?
    ensures var b := OnSubmit(editUser, form).body;
      && b.firstName == Some(form.firstName) && b.lastName == Some(form.lastName)
      && b.email == Some(form.email) && b.nic == Some(form.nic)
      && b.phone == Some(form.phone) && b.role == Some(form.role)
  {
  }

  /** `handleSubmit(onSubmit)`: the form goes out only when the schema for
      the dialog's mode accepts it. */
  function HandleSubmit(editUser: Option<User>, form: Registration, emailFormat: string -> bool): (r: Option<Submission>)
    ensures r.Some? <==> Valid(form, IsEditMode(editUser), emailFormat)
    ensures r.Some? ==> r.value == OnSubmit(editUser, form)
  {
    if Valid(form, IsEditMode(editUser), emailFormat) then Some(OnSubmit(editUser, form)) else None
  }

  /** Whatever reaches the server satisfies the schema's promises: a sign-up
      or an update with a password carries a strong one, confirmed; an update
      without one leaves the password alone; every role sent is a known one. */
  lemma SubmittedPasswordIsStrong(editUser: Option<User>, form: Registration, emailFormat: string -> bool)
    requires HandleSubmit(editUser, form, emailFormat).Some?
    ensures var s := HandleSubmit(editUser, form, emailFormat).value;
      && (s.Update? && s.body.password.Some? ==> StrongPassword(s.body.password.value))
      && (s.Update? ==> RoleOk(s.body.role.value))
      && (editUser.None? ==> s.Signup? && StrongPassword(s.form.password) && s.form.confirmPassword == s.form.password)
      && (s.Signup? ==> RoleOk(s.form.role) && NameOk(s.form.firstName) && NameOk(s.form.lastName))
  {
    ValidMeaning(form, IsEditMode(editUser), emailFormat);
  }

  /** Opening the dialog on a user and saving without touching the form
      sends that user's own six fields back and no password. */
  lemma UnchangedEditRoundTrip(u: User)
    requires u.id != ""
    ensures OnSubmit(Some(u), FormOnOpen(Some(u))) ==
      Update(u.id, UpdateUserBody(Some(u.firstName), Some(u.lastName), Some(u.email), Some(u.nic),
                                  Some(u.phone), Some(u.role), None, None))
  {
  }

  /** The edit form as opened passes the password rules: editing never
      forces a new password. The blank create form never passes. */
  lemma OpenedFormPasswordRules(u: User, emailFormat: string -> bool)
    ensures PasswordRule(FormOnOpen(Some(u)).password, true)
    ensures ConfirmRule(FormOnOpen(Some(u)).password, FormOnOpen(Some(u)).confirmPassword)
    ensures !Valid(FormOnOpen(None), false, emailFormat)
  {
    NameRuleMeaning("");
  }

  /** The form library's state: the values shown and the default values.
      `reset(values)` replaces both; `reset()` restores the defaults. */
  datatype FormState = FormState(values: Registration, defaults: Registration)

  /** The state `useForm` starts in. */
  const InitialForm: FormState := FormState(BlankForm, BlankForm)

  /** The effect that runs when the dialog opens: `reset` with the form for
      the edited user, or with the blank form. */
  function OnOpen(f: FormState, editUser: Option<User>): (r: FormState)
    ensures r.values == FormOnOpen(editUser)
    ensures r.defaults == r.values
  {
    f.(values := FormOnOpen(editUser), defaults := FormOnOpen(editUser))
  }

  /** `handleClose`: `reset()` with no argument, which restores the default
      values the last `reset(values)` installed, not the ones `useForm` was
      created with. */
  function HandleClose(f: FormState): (r: FormState)
    ensures r.values == f.defaults
    ensures r.defaults == f.defaults
  {
    f.(values := f.defaults)
  }

  /** After editing, closing leaves the form holding the edited user's
      fields (whatever was typed) rather than the blank form. */
  lemma CloseAfterEditKeepsUser(f: FormState, u: User, typed: Registration)
    ensures HandleClose(OnOpen(f, Some(u)).(values := typed)).values == FormOnOpen(Some(u))
    ensures u.firstName != "" ==> HandleClose(OnOpen(f, Some(u)).(values := typed)).values != BlankForm
  {
  }

  /** Whatever closing left behind, the next opening shows the same form as
      a freshly created one would, so the difference is never on screen. */
  lemma ReopenIgnoresClose(f: FormState, editUser: Option<User>)
    ensures OnOpen(HandleClose(f), editUser) == OnOpen(InitialForm, editUser)
  {
  }

  // ---------------------------------------------------------------------
  // Rendering.

  /** What the open dialog shows; `busy` disables cancel and submit. */
  datatype FormView = FormView(title: string, submitLabel: string, busy: bool)

  function Render(isOpen: bool, editUser: Option<User>, signupPending: bool, updatePending: bool): (r: Option<FormView>)
    ensures r.Some? <==> isOpen
    ensures r.Some? ==> r.value.busy == (signupPending || updatePending)
    ensures r.Some? ==> r.value.title == (if IsEditMode(editUser) then "Edit User" else "Add New User")
    ensures r.Some? && r.value.busy && IsEditMode(editUser) ==> r.value.submitLabel == "Updating..."
    ensures r.Some? && r.value.busy && !IsEditMode(editUser) ==> r.value.submitLabel == "Creating..."
    ensures r.Some? && !r.value.busy && IsEditMode(editUser) ==> r.value.submitLabel == "Update User"
    ensures r.Some? && !r.value.busy && !IsEditMode(editUser) ==> r.value.submitLabel == "Create User"
  {
    if !isOpen then None
    else
      var edit := IsEditMode(editUser);
      var busy := signupPending || updatePending;
      var title := if edit then "Edit User" else "Add New User";
      var submit :=
        if busy then (if edit then "Updating..." else "Creating...")
        else if edit then "Update User" else "Create User";
      Some(FormView(title, submit, busy))
  }

  /** The four submit labels tell apart mode and pending state, and the
      title tells apart the mode. */
  lemma LabelsDistinguishState(e1: Option<User>, s1: bool, u1: bool, e2: Option<User>, s2: bool, u2: bool)
    requires IsEditMode(e1) != IsEditMode(e2) || (s1 || u1) != (s2 || u2)
    ensures Render(true, e1, s1, u1).value.submitLabel != Render(true, e2, s2, u2).value.submitLabel
    ensures IsEditMode(e1) != IsEditMode(e2) ==> Render(true, e1, s1, u1).value.title != Render(true, e2, s2, u2).value.title
  {
    var l1, l2 := Render(true, e1, s1, u1).value.submitLabel, Render(true, e2, s2, u2).value.submitLabel;
    assert l1[0] != l2[0] || l1[5] != l2[5];
    var t1, t2 := Render(true, e1, s1, u1).value.title, Render(true, e2, s2, u2).value.title;
    assert IsEditMode(e1) != IsEditMode(e2) ==> t1[0] != t2[0];
  }
}
