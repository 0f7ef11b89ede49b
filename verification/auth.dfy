/**
 * The sign-in handler (`useAuth.handleSubmit`): checks the form, calls the
 * sign-in endpoint, and maps what comes back to a status code and an error
 * message shown under the form.
 */
module Auth {
  import opened Wrappers
  import opened Http
  import opened Text
  import opened Session

  const AllFieldsRequired: string := "All fields are required"
  const PasswordIncorrect: string := "Password is incorrect"
  const UserNotFound: string := "User not found"
  const SomethingWentWrong: string := "Something went wrong. Please try again later."
  const NetworkError: string := "Network error. Please check your connection."

  /** The hook's `error` state together with the Redux session it dispatches to. */
  datatype AuthState<P> = AuthState(error: Option<string>, session: UserState<P>)

  /** What one submission returns and leaves behind; `requested` records whether
      the sign-in endpoint was called. */
  datatype SubmitResult<P> = SubmitResult(code: int, state: AuthState<P>, requested: bool)

  /** The message for a rejected call that carried an HTTP status. */
  function ErrorMessageFor(status: int): (m: string)
    ensures status == 401 <==> m == PasswordIncorrect
    ensures status == 404 <==> m == UserNotFound
    ensures status != 401 && status != 404 <==> m == SomethingWentWrong
  {
    if status == 401 then PasswordIncorrect
    else if status == 404 then UserNotFound
    else SomethingWentWrong
  }

  /** `handleSubmit({email, password})` given the outcome the sign-in call would have. */
  function HandleSubmit<P>(st: AuthState<P>, email: string, password: string,
                           outcome: HttpOutcome<Option<P>>): (r: SubmitResult<P>)
    // A blank field short-circuits with 400 before any request.
    ensures IsBlank(email) || IsBlank(password) ==>
      r.code == 400 && !r.requested && r.state == st.(error := Some(AllFieldsRequired))
    ensures !IsBlank(email) && !IsBlank(password) ==> r.requested
    // A resolved call returns its own status; only 200 signs the user in.
    ensures r.requested && outcome.Reply? ==>
      r.code == outcome.status &&
      (outcome.status == 200 ==> r.state == AuthState(None, Reduce(st.session, SetUser(outcome.body)))) &&
      (outcome.status != 200 ==> r.state == st)
    // A rejected call with a response returns that status and a status-specific message.
    ensures r.requested && outcome.HttpError? ==>
      r.code == outcome.status && r.state == st.(error := Some(ErrorMessageFor(outcome.status)))
    // A rejected call without a response reports a network error as 500.
    ensures r.requested && outcome.NoResponse? ==>
      r.code == 500 && r.state == st.(error := Some(NetworkError))
  {
    if IsBlank(email) || IsBlank(password) then
      SubmitResult(400, st.(error := Some(AllFieldsRequired)), false)
    else
      match outcome
      case Reply(status, user) =>
        if status == 200 then
          SubmitResult(status, AuthState(None, Reduce(st.session, SetUser(user))), true)
        else
          SubmitResult(status, st, true)
      case HttpError(status, _) =>
        SubmitResult(status, st.(error := Some(ErrorMessageFor(status))), true)
      case NoResponse =>
        SubmitResult(500, st.(error := Some(NetworkError)), true)
  }

  /** A submission signs the user in exactly when the call resolved with 200, and
      the session is otherwise left as it was. */
  lemma SignInOnlyOn200<P>(st: AuthState<P>, email: string, password: string,
                           outcome: HttpOutcome<Option<P>>)
    ensures var r := HandleSubmit(st, email, password, outcome);
      r.state.session != st.session ==> r.code == 200 && outcome.ResolvedWith(200)
    ensures var r := HandleSubmit(st, email, password, outcome);
      r.requested && outcome.ResolvedWith(200) <==> r.state.session.isAuthenticated && r.state.error.None? && r.requested && outcome.Reply? && r.code == 200
  {
  }

  /** After a rejected call the code alone tells which message is shown. */
  lemma RejectedCodeDeterminesMessage<P>(st: AuthState<P>, email: string, password: string,
                                         outcome: HttpOutcome<Option<P>>)
    requires !IsBlank(email) && !IsBlank(password)
    requires !outcome.Reply?
    ensures var r := HandleSubmit(st, email, password, outcome);
      r.state.session == st.session &&
      (r.code == 401 ==> r.state.error == Some(PasswordIncorrect)) &&
      (r.code == 404 ==> r.state.error == Some(UserNotFound)) &&
      (outcome.NoResponse? ==> r.code == 500 && r.state.error == Some(NetworkError))
  {
  }
}
