/**
 * The login form of components/WelcomeScreen.tsx: the identifier is the
 * email or the phone number, depending on the chosen method; it must be
 * non-empty, an email must contain '@', a phone number must have at least
 * ten UTF-16 code units, and on success a user is built whose school email is
 * the email itself or the phone number followed by "@school.com".
 */
module Welcome {
  import opened Wrappers
  import opened Decimal

  datatype LoginMethod = Email | Phone

  /** The user record handed to `onLogin`; its id is `user_` and the millisecond clock. */
  datatype LoginUser = LoginUser(user_id: string, school_email: string, created_at: int)

  const PhoneSuffix: string := "@school.com"
  const MinPhoneLength: nat := 10

  /**
   * JavaScript's `s.length`: the number of UTF-16 code units, one for a
   * character of the Basic Multilingual Plane and two (a surrogate pair)
   * for a character beyond U+FFFF.
   */
  function Utf16Length(s: string): (n: nat)
    ensures |s| <= n <= 2 * |s|
    ensures (forall i :: 0 <= i < |s| ==> s[i] as int < 0x1_0000) ==> n == |s|
    decreases |s|
  {
    if s == [] then 0
    else Utf16Length(s[..|s| - 1]) + (if s[|s| - 1] as int < 0x1_0000 then 1 else 2)
  }

  /** The identifier the form reads for the chosen method. */
  function Identifier(m: LoginMethod, email: string, phone: string): string {
    if m == Email then email else phone
  }

  /**
   * The validation chain of `handleSubmit`: the first failing check gives
   * its message; otherwise the school email of the new user.
   */
  function Validate(m: LoginMethod, email: string, phone: string): (r: Result<string, string>)
    ensures r.Success? <==>
      && Identifier(m, email, phone) != ""
      && (m == Email ==> '@' in Identifier(m, email, phone))
      && (m == Phone ==> Utf16Length(Identifier(m, email, phone)) >= MinPhoneLength)
    ensures r.Success? ==> '@' in r.value
    ensures r.Success? && m == Email ==> r.value == email
    ensures r.Success? && m == Phone ==> r.value == phone + PhoneSuffix
  {
    var identifier := Identifier(m, email, phone);
    if identifier == "" then
      Failure(if m == Email then "Please enter your school email" else "Please enter your phone number")
    else if m == Email && '@' !in identifier then
      Failure("Please enter a valid school email address")
    else if m == Phone && Utf16Length(identifier) < MinPhoneLength then
      Failure("Please enter a valid phone number")
    else
      var schoolEmail := if m == Email then identifier else identifier + PhoneSuffix;
      assert m == Phone ==> schoolEmail[|identifier|] == '@';
      Success(schoolEmail)
  }

  /** Which check rejects an identifier, and with which message. */
  lemma ValidationMessages(m: LoginMethod, email: string, phone: string)
    ensures Identifier(m, email, phone) == "" ==>
      Validate(m, email, phone) == Failure(if m == Email then "Please enter your school email" else "Please enter your phone number")
    ensures m == Email && email != "" && '@' !in email ==>
      Validate(m, email, phone) == Failure("Please enter a valid school email address")
    ensures m == Phone && phone != "" && Utf16Length(phone) < MinPhoneLength ==>
      Validate(m, email, phone) == Failure("Please enter a valid phone number")
    ensures m == Phone && Utf16Length(phone) >= MinPhoneLength ==> Validate(m, email, phone).Success?
    ensures m == Phone && |phone| >= MinPhoneLength ==> Validate(m, email, phone).Success?
  {
  }

  /**
   * The length check counts UTF-16 units: five mathematical bold digits
   * (U+1D7CE to U+1D7D2, each a surrogate pair) pass as a ten-unit phone
   * number, while five ASCII digits are rejected.
   */
  lemma AstralDigitsPass()
    ensures Validate(Phone, "", "\U{1D7CE}\U{1D7CF}\U{1D7D0}\U{1D7D1}\U{1D7D2}")
      == Success("\U{1D7CE}\U{1D7CF}\U{1D7D0}\U{1D7D1}\U{1D7D2}@school.com")
    ensures Validate(Phone, "", "01234") == Failure("Please enter a valid phone number")
  {
    var astral := "\U{1D7CE}\U{1D7CF}\U{1D7D0}\U{1D7D1}\U{1D7D2}";
    forall i | 0 <= i <= |astral| ensures Utf16Length(astral[..i]) == 2 * i {
      var k := 0;
      while k < i
        invariant k <= i && Utf16Length(astral[..k]) == 2 * k
      {
        assert astral[..k + 1][..k] == astral[..k];
        assert astral[k] as int >= 0x1_0000;
        k := k + 1;
      }
    }
    assert astral[..|astral|] == astral;
    assert astral + PhoneSuffix == "\U{1D7CE}\U{1D7CF}\U{1D7D0}\U{1D7D1}\U{1D7D2}@school.com";
  }

  /** A value thrown inside the `try` of `handleSubmit`: an `Error` with its message, or anything else. */
  datatype Thrown = Error(message: string) | NonError

  /** The catch branch: `err instanceof Error ? err.message : 'An error occurred'`. */
  function CaughtMessage(e: Thrown): (m: string)
    ensures e.Error? ==> m == e.message
    ensures e.NonError? ==> m == "An error occurred"
  {
    match e
    case Error(message) => message
    case NonError => "An error occurred"
  }

  /** The form component's state, with the users `onLogin` has received so far. */
  class WelcomeForm {
    var email: string
    var phone: string
    var loginMethod: LoginMethod
    var isSubmitting: bool
    var error: Option<string>
    var logins: seq<LoginUser>

    constructor ()
      ensures email == "" && phone == "" && loginMethod == Email
      ensures !isSubmitting && error == None && logins == []
    {
      email, phone, loginMethod := "", "", Email;
      isSubmitting, error, logins := false, None, [];
    }

    /**
     * `handleSubmit`: clears the error, validates, and either calls
     * `onLogin` with the new user or records the validation message; either
     * way the form ends up no longer submitting. `onLoginThrows` is what the
     * caller's `onLogin` throws, if anything: the user has then already been
     * handed over, and the catch branch records the thrown message.
     */
    method HandleSubmit(now: nat, onLoginThrows: Option<Thrown>)
      modifies this
      ensures !isSubmitting
      ensures Validate(loginMethod, email, phone).Success? ==>
        && logins == old(logins) + [LoginUser("user_" + Dec(now), Validate(loginMethod, email, phone).value, now)]
        && error == (if onLoginThrows.Some? then Some(CaughtMessage(onLoginThrows.value)) else None)
      ensures Validate(loginMethod, email, phone).Failure? ==>
        && logins == old(logins)
        && error == Some(Validate(loginMethod, email, phone).error)
      ensures email == old(email) && phone == old(phone) && loginMethod == old(loginMethod)
    {
      error := None;
      isSubmitting := true;
      var thrown: Option<Thrown> := None;
      var outcome := Validate(loginMethod, email, phone);
      match outcome {
        case Success(schoolEmail) =>
          logins := logins + [LoginUser("user_" + Dec(now), schoolEmail, now)];
          thrown := onLoginThrows;
        case Failure(message) =>
          thrown := Some(Error(message));
      }
      if thrown.Some? {
        error := Some(CaughtMessage(thrown.value));
      }
      isSubmitting := false;
    }
  }
}
