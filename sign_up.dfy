/** The sign-up page's client-side checks: the password confirmation and length
    checks run on submit, in that order, before the sign-up request; any input
    change clears the shown errors; the page shows its own error before the
    server's; the confirmation field is flagged while it differs from the password. */
module SignUp {
  import opened Common

  const MismatchMessage := "비밀번호가 일치하지 않습니다."
  const LengthMessage := "비밀번호는 8~20자로 입력해주세요."
  const MinPasswordLength := 8
  const MaxPasswordLength := 20

  /** The body of the sign-up request: the confirmation is not sent. */
  datatype SignUpRequest = SignUpRequest(email: string, password: string, nickname: string)

  /** The local error a submit produces: a mismatch is reported before a bad length. */
  function PasswordCheck(password: string, confirm: string): (r: Option<string>)
    ensures r == Some(MismatchMessage) <==> password != confirm
    ensures r == Some(LengthMessage) <==>
      password == confirm && (|password| < MinPasswordLength || |password| > MaxPasswordLength)
    ensures r == None <==> password == confirm && MinPasswordLength <= |password| <= MaxPasswordLength
  {
    if password != confirm then Some(MismatchMessage)
    else if |password| < MinPasswordLength || |password| > MaxPasswordLength then Some(LengthMessage)
    else None
  }

  /** The confirmation field is flagged while it is filled in and differs from the password. */
  predicate ConfirmMismatchShown(password: string, confirm: string)
  {
    confirm != "" && password != confirm
  }

  /** A flagged confirmation always fails the submit with the mismatch message; an empty
      confirmation is not flagged but still fails unless the password is empty too. */
  lemma FlaggedConfirmFailsSubmit(password: string, confirm: string)
    ensures ConfirmMismatchShown(password, confirm) ==> PasswordCheck(password, confirm) == Some(MismatchMessage)
    ensures confirm == "" && password != "" ==>
      !ConfirmMismatchShown(password, confirm) && PasswordCheck(password, confirm) == Some(MismatchMessage)
  {
  }

  /** `localError || error`: a truthy local error wins. */
  function DisplayError(localError: Option<string>, serverError: Option<string>): (r: Option<string>)
    ensures Truthy(localError) ==> r == localError
    ensures !Truthy(localError) ==> r == serverError
  {
    if Truthy(localError) then localError else serverError
  }

  /** The input fields of the form. */
  datatype Field = Email | Password | Confirm | Nickname

  class SignUpPage {
    var email: string
    var password: string
    var confirmPassword: string
    var nickname: string
    var localError: Option<string>
    /** The sign-up hook's error, shown here and cleared through `clearError`. */
    var serverError: Option<string>

    constructor()
      ensures email == "" && password == "" && confirmPassword == "" && nickname == ""
      ensures localError == None && serverError == None
    {
      email, password, confirmPassword, nickname := "", "", "", "";
      localError, serverError := None, None;
    }

    /** `handleSubmit`: clears the local error, runs the two checks, and returns the request to send when both pass. */
    method Submit() returns (request: Option<SignUpRequest>)
      modifies this
      ensures localError == PasswordCheck(password, confirmPassword)
      ensures request.Some? <==> localError == None
      ensures request.Some? ==> request.value == SignUpRequest(email, password, nickname)
      ensures email == old(email) && password == old(password) && confirmPassword == old(confirmPassword)
      ensures nickname == old(nickname) && serverError == old(serverError)
    {
      localError := None;
      if password != confirmPassword {
        localError := Some(MismatchMessage);
        return None;
      }
      if |password| < MinPasswordLength || |password| > MaxPasswordLength {
        localError := Some(LengthMessage);
        return None;
      }
      request := Some(SignUpRequest(email, password, nickname));
    }

    /** A field's `onChange`: the value is stored, then `handleInputChange` clears a shown server error
        and a shown local error. */
    method Change(field: Field, value: string)
      modifies this
      ensures !Truthy(localError) && !Truthy(serverError)
      ensures Truthy(old(localError)) ==> localError == None
      ensures !Truthy(old(localError)) ==> localError == old(localError)
      ensures Truthy(old(serverError)) ==> serverError == None
      ensures !Truthy(old(serverError)) ==> serverError == old(serverError)
      ensures email == (if field == Email then value else old(email))
      ensures password == (if field == Password then value else old(password))
      ensures confirmPassword == (if field == Confirm then value else old(confirmPassword))
      ensures nickname == (if field == Nickname then value else old(nickname))
    {
      match field {
        case Email => email := value;
        case Password => password := value;
        case Confirm => confirmPassword := value;
        case Nickname => nickname := value;
      }
      if Truthy(serverError) {
        serverError := None;
      }
      if Truthy(localError) {
        localError := None;
      }
    }

    function Shown(): Option<string>
      reads this
    {
      DisplayError(localError, serverError)
    }
  }

  /** After any input change no error is shown until the next submit or server answer. */
  method ChangeHidesErrors(page: SignUpPage, field: Field, value: string)
    modifies page
    ensures !Truthy(page.Shown())
  {
    page.Change(field, value);
  }
}
