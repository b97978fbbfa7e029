/**
 * The registration page: the ordered checks run before submitting, the
 * submit step that follows them, and the password-strength meter shown under
 * the password field. Lengths are JavaScript lengths (UTF-16 code units).
 */
module Register {
  import opened Wrappers
  import opened Strings
  import opened Types

  const MismatchMessage: string := "密码和确认密码不匹配"
  const TooShortMessage: string := "密码长度至少为6位"
  const BadEmailMessage: string := "请输入有效的邮箱地址"
  const UnknownErrorMessage: string := "注册时发生未知错误"

  /** The shortest password the form accepts. */
  const MinPasswordLength: int := 6

  /** The check that fails first, in the form's order, or `None` when all pass. */
  function FirstValidationError(password: string, confirmPassword: string, email: string): (e: Option<string>)
    ensures e.None? <==> password == confirmPassword && JsLength(password) >= MinPasswordLength && '@' in email
    ensures password != confirmPassword ==> e == Some(MismatchMessage)
    ensures password == confirmPassword && JsLength(password) < MinPasswordLength ==> e == Some(TooShortMessage)
    ensures password == confirmPassword && JsLength(password) >= MinPasswordLength && '@' !in email
      ==> e == Some(BadEmailMessage)
  {
    if password != confirmPassword then Some(MismatchMessage)
    else if JsLength(password) < MinPasswordLength then Some(TooShortMessage)
    else if '@' !in email then Some(BadEmailMessage)
    else None
  }

  /** The meter's reading: a level from 0 to 4 with its label and colour. */
  datatype Strength = Strength(strength: int, text: string, color: string)

  /** The label and colour that go with each level. */
  function StrengthLevel(level: int): (r: Strength)
    requires 0 <= level <= 4
    ensures r.strength == level
    ensures r.text == "" <==> level == 0
  {
    if level == 0 then Strength(0, "", "gray")
    else if level == 1 then Strength(1, "密码太短", "red")
    else if level == 2 then Strength(2, "密码强度较弱", "yellow")
    else if level == 3 then Strength(3, "密码强度中等", "blue")
    else Strength(4, "密码强度很强", "green")
  }

  predicate IsAsciiUpper(c: char) { 'A' <= c <= 'Z' }
  predicate IsAsciiDigit(c: char) { '0' <= c <= '9' }

  /** `/[A-Z]/.test(s) && /[0-9]/.test(s)`. */
  predicate HasUpperAndDigit(s: string)
  {
    (exists i :: 0 <= i < |s| && IsAsciiUpper(s[i])) && (exists i :: 0 <= i < |s| && IsAsciiDigit(s[i]))
  }

  /**
   * The strength meter. Empty is 0; shorter than 6 is 1; shorter than 8 is 2;
   * from 8 on it is 4 with an ASCII capital and an ASCII digit and 3 otherwise.
   */
  function PasswordStrength(password: string): (r: Strength)
    ensures 0 <= r.strength <= 4 && r == StrengthLevel(r.strength)
    ensures r.strength == 0 <==> password == []
    ensures 1 <= JsLength(password) < 6 ==> r.strength == 1
    ensures 6 <= JsLength(password) < 8 ==> r.strength == 2
    ensures r.strength == 4 <==> JsLength(password) >= 8 && HasUpperAndDigit(password)
    ensures r.strength == 3 <==> JsLength(password) >= 8 && !HasUpperAndDigit(password)
  {
    var n := JsLength(password);
    if n == 0 then StrengthLevel(0)
    else if n < 6 then StrengthLevel(1)
    else if n < 8 then StrengthLevel(2)
    else if n >= 8 && HasUpperAndDigit(password) then StrengthLevel(4)
    else StrengthLevel(3)
  }

  /** A password the form accepts never reads as empty or too short. */
  lemma AcceptedPasswordIsNotWeak(password: string, confirmPassword: string, email: string)
    requires FirstValidationError(password, confirmPassword, email).None?
    ensures PasswordStrength(password).strength >= 2
  {
  }

  class RegisterForm {
    var username: string
    var email: string
    var password: string
    var confirmPassword: string
    var error: string
    var isLoading: bool

    constructor ()
      ensures username == "" && email == "" && password == "" && confirmPassword == ""
      ensures error == "" && !isLoading
    {
      username, email, password, confirmPassword := "", "", "", "";
      error := "";
      isLoading := false;
    }

    /** The four inputs, as typed. */
    method Fill(newUsername: string, newEmail: string, newPassword: string, newConfirmPassword: string)
      modifies this`username, this`email, this`password, this`confirmPassword
      ensures username == newUsername && email == newEmail
      ensures password == newPassword && confirmPassword == newConfirmPassword
    {
      username, email, password, confirmPassword := newUsername, newEmail, newPassword, newConfirmPassword;
    }

    /** `validateForm`: shows the first failing check's message and reports whether all passed. */
    method ValidateForm() returns (ok: bool)
      modifies this`error
      ensures ok <==> FirstValidationError(password, confirmPassword, email).None?
      ensures !ok ==> error == FirstValidationError(password, confirmPassword, email).value
      ensures ok ==> error == old(error)
    {
      if password != confirmPassword {
        error := MismatchMessage;
        return false;
      }
      if JsLength(password) < MinPasswordLength {
        error := TooShortMessage;
        return false;
      }
      if '@' !in email {
        error := BadEmailMessage;
        return false;
      }
      return true;
    }

    /**
     * Submitting with the outcome of the registration call. A form that fails
     * validation sends nothing. Otherwise the data is sent; success schedules
     * the move to the login page and a failure shows its message.
     */
    method HandleSubmit(outcome: Result<(), Thrown>) returns (sent: Option<RegisterData>, redirectScheduled: bool)
      modifies this`error, this`isLoading
      ensures var check := FirstValidationError(password, confirmPassword, email);
        check.Some? ==> (sent == None && !redirectScheduled
          && error == check.value && isLoading == old(isLoading))
      ensures FirstValidationError(password, confirmPassword, email).None? ==>
        (sent == Some(RegisterData(username, password, email)) && !isLoading
          && redirectScheduled == outcome.Success?
          && (outcome.Success? ==> error == "")
          && (outcome.Failure? && outcome.error.ErrorValue? ==> error == outcome.error.message)
          && (outcome.Failure? && outcome.error.OtherValue? ==> error == UnknownErrorMessage))
    {
      sent, redirectScheduled := None, false;
      var ok := ValidateForm();
      if !ok {
        return;
      }
      error := "";
      isLoading := true;
      sent := Some(RegisterData(username, password, email));
      match outcome {
        case Success(_) =>
          redirectScheduled := true;
        case Failure(ErrorValue(message)) =>
          error := message;
        case Failure(OtherValue) =>
          error := UnknownErrorMessage;
      }
      isLoading := false;
    }
  }
}
