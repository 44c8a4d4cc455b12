/** The stand-alone sign-in / registration page: a register flag read from
    the query string, the form fields, the registration checks run on
    submit (matching confirmation first, then a character-class strength
    rule) and the link that switches between the two modes. */
module LoginRegister {
  import opened Wrappers
  import opened JsStrings
  import AuthForm

  predicate IsAsciiUpper(c: char) { 'A' <= c <= 'Z' }
  predicate IsAsciiLower(c: char) { 'a' <= c <= 'z' }
  predicate IsAsciiDigit(c: char) { '0' <= c <= '9' }

  /** `/[^A-Za-z0-9]/`: everything else, spaces included. */
  predicate IsOther(c: char) { !IsAsciiUpper(c) && !IsAsciiLower(c) && !IsAsciiDigit(c) }

  /** The UTF-16 code units of one character. */
  function Units(c: char): nat {
    if c as int > 0xFFFF then 2 else 1
  }

  /** `(s.match(re) || []).length` for a one-character class `re` without
      the `u` flag: the number of UTF-16 code units in the class, a
      character above U+FFFF counting as two. */
  function CountUnits(s: string, p: char -> bool): (n: nat)
    ensures n <= Utf16Length(s)
  {
    if s == [] then 0
    else (if p(s[0]) then Units(s[0]) else 0) + CountUnits(s[1..], p)
  }

  /** A non-zero count means some character is in the class. */
  lemma {:induction false} CountUnitsWitness(s: string, p: char -> bool)
    requires CountUnits(s, p) > 0
    ensures exists i | 0 <= i < |s| :: p(s[i])
  {
    if !p(s[0]) {
      CountUnitsWitness(s[1..], p);
      var i :| 0 <= i < |s[1..]| && p(s[1..][i]);
      assert p(s[i + 1]);
    }
  }

  /** The four classes split the password: their counts add up to its
      `length`. */
  lemma {:induction false} ClassesPartition(s: string)
    ensures CountUnits(s, IsAsciiUpper) + CountUnits(s, IsAsciiLower) + CountUnits(s, IsAsciiDigit)
            + CountUnits(s, IsOther) == Utf16Length(s)
  {
    if s != [] {
      ClassesPartition(s[1..]);
    }
  }

  /** `validatePassword`: at least two of each class, so an accepted
      password is at least eight UTF-16 units long. */
  predicate ValidatePassword(password: string): (ok: bool)
    ensures ok ==> Utf16Length(password) >= 8
  {
    ClassesPartition(password);
    && CountUnits(password, IsAsciiUpper) >= 2
    && CountUnits(password, IsAsciiLower) >= 2
    && CountUnits(password, IsAsciiDigit) >= 2
    && CountUnits(password, IsOther) >= 2
  }

  /** A password this page accepts is at least eight units long and meets
      the form's length, uppercase and digit rules. It need not meet the
      form's special-character rule, since a space counts as "other" here. */
  lemma AcceptedMeetsFormRules(password: string)
    requires ValidatePassword(password)
    ensures Utf16Length(password) >= 8
    ensures AuthForm.Holds(AuthForm.MinLength, password)
    ensures AuthForm.Holds(AuthForm.Uppercase, password)
    ensures AuthForm.Holds(AuthForm.Digit, password)
  {
    ClassesPartition(password);
    CountUnitsWitness(password, IsAsciiUpper);
    CountUnitsWitness(password, IsAsciiDigit);
  }

  /** Every character of the form's special set counts as "other" here,
      but "other" is wider: a space is "other" and not special. */
  lemma OtherWiderThanSpecial(c: char)
    ensures c in AuthForm.Special ==> IsOther(c)
    ensures IsOther(' ') && ' ' !in AuthForm.Special
  {
  }

  const MismatchAlert: string := "Passwords do not match"
  const StrengthAlert: string :=
    "Password must contain at least 2 uppercase, 2 lowercase, 2 numbers, and 2 special characters."

  /** The page's state cells. */
  class Page {
    var isRegister: bool
    var form: AuthForm.Fields

    constructor ()
      ensures !isRegister && form == AuthForm.EmptyFields
    {
      isRegister, form := false, AuthForm.EmptyFields;
    }

    /** The effect on the search parameters; `register` is
        `params.get("register")`. */
    method SyncRegisterFlag(register: Option<string>)
      modifies this
      ensures isRegister <==> register == Some("true")
      ensures form == old(form)
    {
      isRegister := register == Some("true");
    }

    /** `handleChange`: one field takes the new value. */
    method HandleChange(name: AuthForm.Field, value: string)
      modifies this
      ensures form == old(form).Set(name, value)
      ensures isRegister == old(isRegister)
    {
      form := form.Set(name, value);
    }

    /** `handleSubmit`: the alert it raises, if any. Sign-in checks
        nothing; registration reports a mismatch before a weak password. */
    method HandleSubmit() returns (alert: Option<string>)
      ensures !isRegister ==> alert == None
      ensures isRegister && form.password != form.confirmPassword ==> alert == Some(MismatchAlert)
      ensures isRegister && form.password == form.confirmPassword && !ValidatePassword(form.password) ==>
        alert == Some(StrengthAlert)
      ensures alert == None <==>
        !isRegister || (form.password == form.confirmPassword && ValidatePassword(form.password))
    {
      alert := None;
      if isRegister {
        if form.password != form.confirmPassword {
          return Some(MismatchAlert);
        }
        if !ValidatePassword(form.password) {
          return Some(StrengthAlert);
        }
      }
    }

    /** `toggleMode`: where the link leads. */
    method ToggleMode() returns (target: string)
      ensures isRegister ==> target == "/login"
      ensures !isRegister ==> target == "/login?register=true"
    {
      target := if isRegister then "/login" else "/login?register=true";
    }
  }
}
