/** The sign-in and registration form: the live password rules and the
    confirmation check run on every edit, the gate that refuses to submit
    while either reports an error, and where the user is sent afterwards.
    The identity provider's answers are inputs. */
module AuthForm {
  import opened Wrappers
  import opened JsStrings

  /** The characters `/[!@#$%^&*(),.?":{}|<>]/` matches. */
  const Special: string := "!@#$%^&*(),.?\":{}|<>"

  /** The four password rules, in the order their messages are listed. */
  datatype Rule = MinLength | Uppercase | Digit | SpecialChar

  predicate HasCharIn(s: string, lo: char, hi: char) {
    exists i | 0 <= i < |s| :: lo <= s[i] <= hi
  }

  predicate HasSpecial(s: string) {
    exists i | 0 <= i < |s| :: s[i] in Special
  }

  /** Whether `value` satisfies rule `r`. */
  predicate Holds(r: Rule, value: string) {
    match r
    case MinLength => Utf16Length(value) >= 6
    case Uppercase => HasCharIn(value, 'A', 'Z')
    case Digit => HasCharIn(value, '0', '9')
    case SpecialChar => HasSpecial(value)
  }

  const TooShort: string := "• Minimum 6 characters"
  const NoUppercase: string := "• At least one uppercase letter"
  const NoNumber: string := "• At least one number"
  const NoSpecial: string := "• At least one special character"
  const Mismatch: string := "Passwords do not match"

  function Message(r: Rule): string {
    match r
    case MinLength => TooShort
    case Uppercase => NoUppercase
    case Digit => NoNumber
    case SpecialChar => NoSpecial
  }

  /** The error list a password edit produces: one message per failed
      rule, in the fixed order length, uppercase, digit, special. */
  function PasswordErrors(value: string): (errs: seq<string>)
    ensures |errs| <= 4
  {
    (if Holds(MinLength, value) then [] else [TooShort]) +
    (if Holds(Uppercase, value) then [] else [NoUppercase]) +
    (if Holds(Digit, value) then [] else [NoNumber]) +
    (if Holds(SpecialChar, value) then [] else [NoSpecial])
  }

  /** All four rules hold. */
  predicate Strong(value: string) {
    forall r: Rule :: Holds(r, value)
  }

  /** A rule's message is listed exactly when the rule fails. */
  lemma PasswordErrorsIff(value: string, r: Rule)
    ensures Message(r) in PasswordErrors(value) <==> !Holds(r, value)
  {
  }

  /** The list is empty exactly for a password meeting all four rules. */
  lemma PasswordErrorsEmptyIff(value: string)
    ensures PasswordErrors(value) == [] <==> Strong(value)
  {
    if PasswordErrors(value) == [] {
      forall r: Rule ensures Holds(r, value) {
        PasswordErrorsIff(value, r);
      }
    }
  }

  /** The fields of the form, by their input names. */
  datatype Field = FirstName | LastName | Email | Password | ConfirmPassword

  /** The `form` state cell. */
  datatype Fields = Fields(firstName: string, lastName: string, email: string, password: string, confirmPassword: string)
  {
    function Get(name: Field): string {
      match name
      case FirstName => firstName
      case LastName => lastName
      case Email => email
      case Password => password
      case ConfirmPassword => confirmPassword
    }

    /** `{ ...prev, [name]: value }`: the named field takes the value and
        every other field keeps its own. */
    function Set(name: Field, value: string): (f: Fields)
      ensures f.Get(name) == value
      ensures forall n: Field | n != name :: f.Get(n) == Get(n)
    {
      match name
      case FirstName => this.(firstName := value)
      case LastName => this.(lastName := value)
      case Email => this.(email := value)
      case Password => this.(password := value)
      case ConfirmPassword => this.(confirmPassword := value)
    }
  }

  const EmptyFields: Fields := Fields("", "", "", "", "")

  /** The `formErrors` state cell. */
  datatype FormErrors = FormErrors(password: seq<string>, confirmPassword: string)

  const NoErrors: FormErrors := FormErrors([], "")

  /** What every reachable form state satisfies: the password errors are
      those of the current password, or the password field was never
      edited (the empty password would fail all four rules, yet shows no
      message before its first edit); the confirmation error is the mismatch message or empty, set
      only when the confirmation differs from the password, and cleared only
      when it is empty or matches. */
  predicate Consistent(form: Fields, errors: FormErrors) {
    && (errors.password == PasswordErrors(form.password) || (form.password == "" && errors.password == []))
    && (errors.confirmPassword == "" || errors.confirmPassword == Mismatch)
    && (errors.confirmPassword == Mismatch ==> form.confirmPassword != form.password)
    && (errors.confirmPassword == "" ==> form.confirmPassword == "" || form.confirmPassword == form.password)
  }

  /** The errors after `name` is edited to `value`. The handler compares
      against `form` as it was before this edit: a password edit checks the
      old confirmation (and only a non-empty one), a confirmation edit the
      password. Other fields leave the errors alone. */
  function AfterEdit(form: Fields, errors: FormErrors, name: Field, value: string): (e: FormErrors)
    ensures name == Password ==> e.password == PasswordErrors(value)
    ensures name == Password ==>
      (e.confirmPassword == Mismatch <==> form.confirmPassword != "" && value != form.confirmPassword)
    ensures name == ConfirmPassword ==> e.password == errors.password
    ensures name == ConfirmPassword ==> (e.confirmPassword == Mismatch <==> value != form.password)
    ensures name != Password && name != ConfirmPassword ==> e == errors
    ensures e.confirmPassword == "" || e.confirmPassword == Mismatch || e.confirmPassword == errors.confirmPassword
  {
    match name
    case Password =>
      FormErrors(PasswordErrors(value), if form.confirmPassword != "" && value != form.confirmPassword then Mismatch else "")
    case ConfirmPassword =>
      errors.(confirmPassword := if value != form.password then Mismatch else "")
    case _ => errors
  }

  /** The initial state is consistent, and every edit keeps it so. */
  lemma EditKeepsConsistent(form: Fields, errors: FormErrors, name: Field, value: string)
    requires Consistent(form, errors)
    ensures Consistent(EmptyFields, NoErrors)
    ensures Consistent(form.Set(name, value), AfterEdit(form, errors, name, value))
  {
    var f := form.Set(name, value);
    if name != Password && name != ConfirmPassword {
      assert f.password == form.password && f.confirmPassword == form.confirmPassword;
    }
  }

  /** `formErrors.password.length > 0 || formErrors.confirmPassword`
      negated: submitting may go ahead. */
  predicate GateOpen(errors: FormErrors) {
    errors.password == [] && errors.confirmPassword == ""
  }

  /** What an open gate means for a consistent form: the password is strong
      or was never typed, and the confirmation is empty or matches. */
  lemma GateMeans(form: Fields, errors: FormErrors)
    requires Consistent(form, errors)
    requires GateOpen(errors)
    ensures form.password == "" || Strong(form.password)
    ensures form.confirmPassword == "" || form.confirmPassword == form.password
  {
    if form.password != "" {
      PasswordErrorsEmptyIff(form.password);
    }
  }

  /** The rule checks of a password edit, pushing one message per failed
      rule onto `errors`. */
  method CollectPasswordErrors(value: string) returns (errors: seq<string>)
    ensures errors == PasswordErrors(value)
    ensures errors == [] <==> Strong(value)
  {
    errors := [];
    if Utf16Length(value) < 6 { errors := errors + [TooShort]; }
    if !HasCharIn(value, 'A', 'Z') { errors := errors + [NoUppercase]; }
    if !HasCharIn(value, '0', '9') { errors := errors + [NoNumber]; }
    if !HasSpecial(value) { errors := errors + [NoSpecial]; }
    PasswordErrorsEmptyIff(value);
  }

  /** `` `${firstName} ${lastName}` ``. */
  function FullName(first: string, last: string): (n: string)
    ensures |n| == |first| + |last| + 1
  {
    first + " " + last
  }

  /** Names without spaces can be read back from the full name. */
  lemma FullNameSplits(first: string, last: string)
    requires ' ' !in first && ' ' !in last
    ensures Split(FullName(first, last), " ") == [first, last]
  {
    assert Join([last], " ") == last;
    assert Join([first, last], " ") == FullName(first, last);
    SplitJoinChar([first, last], ' ');
  }

  /** `from === "/login" ? "/" : from`. */
  function RedirectTarget(from: string): (t: string)
    ensures t != "/login"
    ensures from != "/login" ==> t == from
  {
    if from == "/login" then "/" else from
  }

  /** The call made to the identity provider. */
  datatype AuthCall =
    | RegisterWithEmail(email: string, password: string, displayName: string)
    | LoginWithEmail(email: string, password: string)

  /** Its answer: a signed-in user, or a thrown error. */
  datatype AuthReply = Signed(userEmail: string, emailVerified: bool) | Threw(message: string)

  /** How a submit ends: refused by the gate, waiting for the e-mail to be
      verified, signed in and sent to a page, or failed with a message. */
  datatype SubmitResult = Refused | AwaitVerification(email: string) | Navigated(target: string) | Failed(message: string)

  const VerifyFirst: string := "Please verify your email before logging in."

  /** The `catch` branch: that one error, with a current user, means the
      account waits for verification; any other error is shown. */
  function OnError(message: string, currentUser: Option<string>): (r: SubmitResult)
    ensures r.AwaitVerification? <==> message == VerifyFirst && currentUser.Some?
    ensures r.AwaitVerification? ==> r.email == currentUser.value
    ensures !r.AwaitVerification? ==> r == Failed(message)
  {
    if message == VerifyFirst && currentUser.Some? then AwaitVerification(currentUser.value) else Failed(message)
  }

  /** `handleGoogleLogin`. */
  function GoogleLogin(from: string, reply: Option<string>): (r: SubmitResult)
    ensures reply.None? ==> r == Navigated(RedirectTarget(from))
    ensures reply.Some? ==> r == Failed(reply.value)
  {
    if reply.None? then Navigated(RedirectTarget(from)) else Failed(reply.value)
  }

  /** The form component's state cells. */
  class Form {
    var form: Fields
    var formErrors: FormErrors
    var pendingVerification: bool
    var pendingEmail: string

    ghost predicate Valid()
      reads this
    {
      Consistent(form, formErrors)
    }

    constructor ()
      ensures form == EmptyFields && formErrors == NoErrors
      ensures !pendingVerification && pendingEmail == ""
      ensures Valid()
    {
      form, formErrors := EmptyFields, NoErrors;
      pendingVerification, pendingEmail := false, "";
    }

    /** `handleChange`: store the value, and after a password or
        confirmation edit recompute the errors against the form as it was
        before this edit. */
    method HandleChange(name: Field, value: string)
      requires Valid()
      modifies this
      ensures Valid()
      ensures form == old(form).Set(name, value)
      ensures formErrors == AfterEdit(old(form), old(formErrors), name, value)
      ensures pendingVerification == old(pendingVerification) && pendingEmail == old(pendingEmail)
    {
      var prev, prevErrors := form, formErrors;
      form := form.Set(name, value);
      if name == Password {
        var errors := CollectPasswordErrors(value);
        formErrors := formErrors.(password := errors);
        if prev.confirmPassword != "" && value != prev.confirmPassword {
          formErrors := formErrors.(confirmPassword := Mismatch);
        } else {
          formErrors := formErrors.(confirmPassword := "");
        }
      }
      if name == ConfirmPassword {
        if value != prev.password {
          formErrors := formErrors.(confirmPassword := Mismatch);
        } else {
          formErrors := formErrors.(confirmPassword := "");
        }
      }
      EditKeepsConsistent(prev, prevErrors, name, value);
    }

    /** `handleSubmit`: the gate first; then registration or sign-in with
        `reply` as the provider's answer and `currentUser` as the e-mail of
        the provider's current user, if any. */
    method HandleSubmit(isRegister: bool, from: string, reply: AuthReply, currentUser: Option<string>)
      returns (call: Option<AuthCall>, result: SubmitResult)
      modifies this
      ensures call.None? <==> !GateOpen(old(formErrors))
      ensures call.None? ==> result == Refused
      ensures call.Some? && isRegister ==>
        call.value == RegisterWithEmail(form.email, form.password, FullName(form.firstName, form.lastName))
      ensures call.Some? && !isRegister ==> call.value == LoginWithEmail(form.email, form.password)
      ensures call.Some? && reply.Threw? ==> result == OnError(reply.message, currentUser)
      ensures call.Some? && reply.Signed? && (isRegister || !reply.emailVerified) ==>
        result == AwaitVerification(reply.userEmail)
      ensures call.Some? && reply.Signed? && !isRegister && reply.emailVerified ==>
        result == Navigated(RedirectTarget(from))
      ensures isRegister ==> !result.Navigated?
      ensures result.AwaitVerification? ==> pendingVerification && pendingEmail == result.email
      ensures !result.AwaitVerification? ==>
        pendingVerification == old(pendingVerification) && pendingEmail == old(pendingEmail)
      ensures form == old(form) && formErrors == old(formErrors)
    {
      if !GateOpen(formErrors) {
        return None, Refused;
      }
      if isRegister {
        call := Some(RegisterWithEmail(form.email, form.password, FullName(form.firstName, form.lastName)));
        match reply
        case Signed(e, _) => result := AwaitVerification(e);
        case Threw(m) => result := OnError(m, currentUser);
      } else {
        call := Some(LoginWithEmail(form.email, form.password));
        match reply
        case Signed(e, verified) =>
          result := if verified then Navigated(RedirectTarget(from)) else AwaitVerification(e);
        case Threw(m) => result := OnError(m, currentUser);
      }
      if result.AwaitVerification? {
        pendingEmail, pendingVerification := result.email, true;
      }
    }
  }
}
