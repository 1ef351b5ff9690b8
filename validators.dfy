/**
 * The five field validators of the entry form. Each returns the pair
 * `{ isValid, error }`; the error is the message shown under the field.
 */
module Validators {
  import opened Text

  datatype Validation = Validation(isValid: bool, error: string)

  // The messages shown under a field.
  const RequiredSuffix: string := " is required"
  const PhoneRequired: string := "Phone number is required"
  const PhoneInvalid: string := "Please enter a valid phone number"
  const PinRequired: string := "Spidr PIN is required"
  const PinInvalid: string := "PIN must be 16 digits in format ####-####-####-####"
  const EmailRequired: string := "Email address is required"
  const EmailInvalid: string := "Please enter a valid email address"
  const CostRequired: string := "Air Fryer cost is required"
  const CostTooLow: string := "Air Fryer cost must be at least $0.01"
  const NameInvalid: string := "Only letters and spaces are allowed"

  // ---------------------------------------------------------------------------
  // Names

  /** `[a-zA-Z.\s]`: the characters a first or last name may hold. */
  predicate IsNameChar(c: char) {
    'a' <= c <= 'z' || 'A' <= c <= 'Z' || c == '.' || IsWhitespace(c)
  }

  /** `validateName`: `fieldName` only shapes the "required" message. */
  function ValidateName(name: string, fieldName: string): (r: Validation)
    ensures r.isValid <==> r.error == ""
    ensures IsBlank(name) ==> r.error == fieldName + RequiredSuffix
  {
    var trimmed := Trim(name);
    if trimmed == [] then
      Validation(false, fieldName + RequiredSuffix)
    else if !(forall i :: 0 <= i < |trimmed| ==> IsNameChar(trimmed[i])) then
      Validation(false, NameInvalid)
    else
      Validation(true, "")
  }

  /**
   * A name passes exactly when it holds something besides white space and
   * every one of its characters (the surrounding white space included) is a
   * letter, a period or white space.
   */
  lemma {:induction false} NameValidIff(name: string, fieldName: string)
    ensures ValidateName(name, fieldName).isValid
        <==> !AllWhitespace(name) && forall i :: 0 <= i < |name| ==> IsNameChar(name[i])
  {
    BlankIff(name);
    var t := Trim(name);
    var lo := TrimSpan(name);
    if forall i :: 0 <= i < |t| ==> IsNameChar(t[i]) {
      forall i | lo <= i < lo + |t| ensures IsNameChar(name[i]) {
        assert t[i - lo] == name[i];
      }
    } else {
      var i :| 0 <= i < |t| && !IsNameChar(t[i]);
      assert name[lo + i] == t[i];
    }
  }

  // ---------------------------------------------------------------------------
  // Phone and PIN

  /** `validatePhone`: ten digits, whatever else surrounds them. */
  function ValidatePhone(phone: string): (r: Validation)
    ensures r.isValid <==> r.error == ""
    ensures IsBlank(phone) ==> r.error == PhoneRequired
  {
    if IsBlank(phone) then
      Validation(false, PhoneRequired)
    else if |Digits(phone)| != 10 then
      Validation(false, PhoneInvalid)
    else
      Validation(true, "")
  }

  /** A phone number passes exactly when it has ten digits: a digit is never white space. */
  lemma {:induction false} PhoneValidIff(phone: string)
    ensures ValidatePhone(phone).isValid <==> |Digits(phone)| == 10
  {
    if |Digits(phone)| == 10 {
      DigitsNotBlank(phone);
    }
  }

  /** `validatePin`: sixteen digits, whatever else surrounds them. */
  function ValidatePin(pin: string): (r: Validation)
    ensures r.isValid <==> r.error == ""
    ensures IsBlank(pin) ==> r.error == PinRequired
  {
    if IsBlank(pin) then
      Validation(false, PinRequired)
    else if |Digits(pin)| != 16 then
      Validation(false, PinInvalid)
    else
      Validation(true, "")
  }

  /** A PIN passes exactly when it has sixteen digits. */
  lemma {:induction false} PinValidIff(pin: string)
    ensures ValidatePin(pin).isValid <==> |Digits(pin)| == 16
  {
    if |Digits(pin)| == 16 {
      DigitsNotBlank(pin);
    }
  }

  // ---------------------------------------------------------------------------
  // Email

  /** `[^\s@]`. */
  predicate IsEmailChar(c: char) {
    !IsWhitespace(c) && c != '@'
  }

  /**
   * `^[^\s@]+@[^\s@]+\.[^\s@]+$`: an `@` at `at` and a `.` at `dot`, each
   * with at least one character on either side, and every character but the
   * `@` drawn from `[^\s@]` (a `.` is one of them).
   */
  predicate MatchesEmailPattern(e: string) {
    exists at, dot :: 0 < at < |e| && at + 1 < dot < |e| - 1 && e[at] == '@' && e[dot] == '.'
      && forall k :: 0 <= k < |e| && k != at ==> IsEmailChar(e[k])
  }

  /** `validateEmail`: the pattern is tested on the untrimmed value. */
  function ValidateEmail(email: string): (r: Validation)
    ensures r.isValid <==> r.error == ""
    ensures IsBlank(email) ==> r.error == EmailRequired
  {
    if IsBlank(email) then
      Validation(false, EmailRequired)
    else if !MatchesEmailPattern(email) then
      Validation(false, EmailInvalid)
    else
      Validation(true, "")
  }

  /** A domain with a `.` that is neither its first nor its last character. */
  ghost predicate HasInnerDot(domain: string) {
    exists i :: 0 < i < |domain| - 1 && domain[i] == '.'
  }

  /**
   * The shape of an accepted address: no white space anywhere, exactly one
   * `@`, something before it, and after it a domain with an inner `.`.
   */
  ghost predicate EmailShape(e: string) {
    && (forall k :: 0 <= k < |e| ==> !IsWhitespace(e[k]))
    && exists at :: 0 < at < |e| && e[at] == '@'
         && '@' !in e[..at] && '@' !in e[at + 1..] && HasInnerDot(e[at + 1..])
  }

  lemma {:induction false} EmailValidIff(email: string)
    ensures ValidateEmail(email).isValid <==> EmailShape(email)
  {
    BlankIff(email);
    if MatchesEmailPattern(email) {
      PatternHasShape(email);
    }
    if EmailShape(email) {
      ShapeMatchesPattern(email);
    }
  }

  lemma {:induction false} PatternHasShape(email: string)
    requires MatchesEmailPattern(email)
    ensures EmailShape(email) && !AllWhitespace(email)
  {
    var at, dot :| 0 < at < |email| && at + 1 < dot < |email| - 1 && email[at] == '@' && email[dot] == '.'
      && forall k :: 0 <= k < |email| && k != at ==> IsEmailChar(email[k]);
    assert !IsWhitespace(email[0]);
    var d := email[at + 1..];
    assert '@' !in email[..at] by {
      forall i | 0 <= i < at ensures email[..at][i] != '@' {
        assert email[i] == email[..at][i];
      }
    }
    assert '@' !in d by {
      forall i | 0 <= i < |d| ensures d[i] != '@' {
        assert email[at + 1 + i] == d[i];
      }
    }
    assert d[dot - at - 1] == '.';
  }

  lemma {:induction false} ShapeMatchesPattern(email: string)
    requires EmailShape(email)
    ensures MatchesEmailPattern(email)
  {
    var at :| 0 < at < |email| && email[at] == '@'
       && '@' !in email[..at] && '@' !in email[at + 1..] && HasInnerDot(email[at + 1..]);
    var d := email[at + 1..];
    var i :| 0 < i < |d| - 1 && d[i] == '.';
    var dot := at + 1 + i;
    assert email[dot] == '.';
    forall k | 0 <= k < |email| && k != at ensures IsEmailChar(email[k]) {
      if k < at {
        assert email[..at][k] == email[k];
      } else {
        assert d[k - at - 1] == email[k];
      }
    }
  }

  // ---------------------------------------------------------------------------
  // Air fryer cost

  /**
   * `validateCost`. Whether `parseFloat` reads a number of at least 0.01 from
   * the value is the caller's `atLeastOneCent` test.
   */
  function ValidateCost(cost: string, atLeastOneCent: string -> bool): (r: Validation)
    ensures r.isValid <==> r.error == ""
    ensures IsBlank(cost) ==> r.error == CostRequired
  {
    if IsBlank(cost) then
      Validation(false, CostRequired)
    else if !atLeastOneCent(cost) then
      Validation(false, CostTooLow)
    else
      Validation(true, "")
  }

  /** A cost passes exactly when it is not blank and reads as at least one cent. */
  lemma {:induction false} CostValidIff(cost: string, atLeastOneCent: string -> bool)
    ensures ValidateCost(cost, atLeastOneCent).isValid <==> !AllWhitespace(cost) && atLeastOneCent(cost)
  {
    BlankIff(cost);
  }
}
