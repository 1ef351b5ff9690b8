/**
 * Worked examples of the entry form: the phone mask of ten digits, the PIN
 * mask of five and of sixteen digits, the verdicts on all six values of an
 * example entry (John Smith, 5551234567, j@x.com, 49.99, 1234567890123456),
 * two rejected values, and a complete entry typed into a fresh form and
 * submitted.
 */
module Scenarios {
  import opened Text
  import opened Formatters
  import opened Validators
  import opened FormController

  /** Five digits make one full group and a group of one (`12345` shows as `1234-5`): no empty group is shown. */
  lemma {:induction false} FiveDigitPin(v: string)
    requires |v| == 5 && AllDigits(v)
    ensures FormatPin(v) == v[..4] + "-" + v[4..]
  {
    DigitsIdentity(v);
    assert PinDigits(v) == v;
    PinShape(v);
    var r, e := FormatPin(v), v[..4] + "-" + v[4..];
    assert |r| == 6 == |e|;
    forall i | 0 <= i < 6 ensures r[i] == e[i] {
      if i < 4 {
        assert i - i / 5 == i;
      }
    }
  }

  /** Four groups of four digits put together keep all sixteen digits. */
  lemma {:induction false} FourGroupDigits(a: string, b: string, c: string, d: string)
    requires |a| == |b| == |c| == |d| == 4
    requires AllDigits(a) && AllDigits(b) && AllDigits(c) && AllDigits(d)
    ensures Digits(a + b + c + d) == a + b + c + d
  {
    DigitsIdentity(a);
    DigitsIdentity(b);
    DigitsIdentity(c);
    DigitsIdentity(d);
    DigitsAppend(a + b + c, d);
    DigitsAppend(a + b, c);
    DigitsAppend(a, b);
  }

  /** Sixteen digits make four full groups joined by hyphens: the complete `####-####-####-####` mask. */
  lemma {:induction false} SixteenDigitPin(a: string, b: string, c: string, d: string)
    requires |a| == |b| == |c| == |d| == 4
    requires AllDigits(a) && AllDigits(b) && AllDigits(c) && AllDigits(d)
    ensures FormatPin(a + b + c + d) == a + "-" + b + "-" + c + "-" + d
  {
    var v := a + b + c + d;
    FourGroupDigits(a, b, c, d);
    assert PinDigits(v) == v;
    PinGroupsPrefix(v);
    assert v[..4] == a && v[4..8] == b && v[8..12] == c && v[12..16] == d;
    assert PinGroups(v) == [a, b, c, d];
    var parts := [a, b, c, d];
    assert Join(parts[3..], '-') == d;
    assert Join(parts[2..], '-') == c + "-" + d;
    assert Join(parts[1..], '-') == b + "-" + (c + "-" + d);
  }

  /** The PIN of the example entry, `1234567890123456`, is shown as `1234-5678-9012-3456`. */
  lemma {:induction false} PinExample()
    ensures FormatPin("1234" + "5678" + "9012" + "3456") == "1234" + "-" + "5678" + "-" + "9012" + "-" + "3456"
  {
    SixteenDigitPin("1234", "5678", "9012", "3456");
  }

  /** Ten typed digits, `5551234567`, are shown with the full mask as `(555) 123-4567`. */
  lemma {:induction false} PhoneExample()
    ensures FormatPhoneNumber("555" + "123" + "4567") == "(" + "555" + ") " + "123" + "-" + "4567"
  {
    var v := "555" + "123" + "4567";
    DigitsIdentity("555");
    DigitsIdentity("123");
    DigitsIdentity("4567");
    DigitsAppend("555" + "123", "4567");
    DigitsAppend("555", "123");
    SplitThree(v, 3, 6);
    assert v[..3] == "555" && v[3..6] == "123" && v[6..] == "4567";
    assert Digits(v) == v && |v| == 10;
    PhoneMask(v);
    assert FormatPhoneNumber(v) == "(" + v[..3] + ") " + v[3..6] + "-" + v[6..];
  }

  /** A phone number one digit short, `555-123-456`, is stored and gets the invalid-number message. */
  lemma {:induction false} ShortPhoneExample(atLeastOneCent: string -> bool)
    ensures ValidateField(Phone, FormatField(Phone, "555" + "-" + "123" + "-" + "456"), atLeastOneCent)
         == Validation(false, "Please enter a valid phone number")
  {
    var v := "555" + "-" + "123" + "-" + "456";
    DigitsAppend("555" + "-" + "123" + "-", "456");
    DigitsAppend("555" + "-" + "123", "-");
    DigitsAppend("555" + "-", "123");
    DigitsAppend("555", "-");
    DigitsOfNonDigits("-");
    DigitsIdentity("555");
    DigitsIdentity("123");
    DigitsIdentity("456");
    StoredPhoneWrongLength(v, atLeastOneCent);
  }

  /** A cost the number test rejects gets the minimum-amount message. */
  lemma {:induction false} ZeroCostExample(atLeastOneCent: string -> bool)
    requires !atLeastOneCent("0")
    ensures ValidateField(AirFryerCost, "0", atLeastOneCent)
         == Validation(false, "Air Fryer cost must be at least $0.01")
  {
    BlankIff("0");
    assert !IsWhitespace("0"[0]);
  }

  /** The typed phone number of the example entry is stored as a valid one. */
  lemma {:induction false} PhoneAccepted(atLeastOneCent: string -> bool)
    ensures ValidateField(Phone, FormatField(Phone, "5551234567"), atLeastOneCent).isValid
  {
    StoredPhoneValidIff("5551234567", atLeastOneCent);
    DigitsIdentity("5551234567");
  }

  /** The first name of the example entry passes. */
  lemma {:induction false} NameAccepted()
    ensures ValidateName("John", "First name").isValid
  {
    var name := "John";
    NameValidIff(name, "First name");
    assert !IsWhitespace(name[0]);
  }

  /** The last name of the example entry passes. */
  lemma {:induction false} LastNameAccepted()
    ensures ValidateName("Smith", "Last name").isValid
  {
    var name := "Smith";
    NameValidIff(name, "Last name");
    assert !IsWhitespace(name[0]);
  }

  /** The typed PIN of the example entry is stored as a valid one. */
  lemma {:induction false} PinAccepted(atLeastOneCent: string -> bool)
    ensures ValidateField(SpidrPin, FormatField(SpidrPin, "1234" + "5678" + "9012" + "3456"), atLeastOneCent).isValid
  {
    FourGroupDigits("1234", "5678", "9012", "3456");
    StoredPinValidIff("1234" + "5678" + "9012" + "3456", atLeastOneCent);
  }

  /** The cost of the example entry passes when it reads as at least one cent. */
  lemma {:induction false} CostAccepted(atLeastOneCent: string -> bool)
    requires atLeastOneCent("49.99")
    ensures ValidateCost("49.99", atLeastOneCent).isValid
  {
    CostValidIff("49.99", atLeastOneCent);
    assert !IsWhitespace("49.99"[0]);
  }

  /** The address of the example entry has the accepted shape. */
  lemma {:induction false} EmailAccepted()
    ensures ValidateEmail("j@x.com").isValid
  {
    var e := "j@x.com";
    assert MatchesEmailPattern(e) by {
      assert e[1] == '@' && e[3] == '.';
      assert forall k :: 0 <= k < |e| && k != 1 ==> IsEmailChar(e[k]);
    }
    BlankIff(e);
    assert !IsWhitespace(e[0]);
  }

  /** The user types a first name, a last name and a phone number: each is stored formatted with its validator's verdict. */
  method TypeNamesAndPhone(form: SpidrForm, first: string, last: string, phone: string)
    requires form.Valid()
    modifies form
    ensures form.Valid()
    ensures form.isSubmitting == old(form.isSubmitting) && form.showSuccess == old(form.showSuccess)
    ensures form.formData == old(form.formData).(firstName := first, lastName := last, phone := FormatPhoneNumber(phone))
    ensures form.valid == old(form.valid).(
      firstName := ValidateName(first, "First name").isValid,
      lastName := ValidateName(last, "Last name").isValid,
      phone := |Digits(phone)| == 10)
    ensures form.errors == old(form.errors).(
      firstName := ValidateName(first, "First name").error,
      lastName := ValidateName(last, "Last name").error,
      phone := ValidatePhone(FormatPhoneNumber(phone)).error)
  {
    StoredPhoneValidIff(phone, form.atLeastOneCent);
    form.HandleInputChange(FirstName, first);
    form.HandleInputChange(LastName, last);
    form.HandleInputChange(Phone, phone);
  }

  /** The user types an email address, a cost and a PIN: each is stored formatted with its validator's verdict. */
  method TypeEmailCostAndPin(form: SpidrForm, email: string, cost: string, pin: string)
    requires form.Valid()
    modifies form
    ensures form.Valid()
    ensures form.isSubmitting == old(form.isSubmitting) && form.showSuccess == old(form.showSuccess)
    ensures form.formData == old(form.formData).(email := email, airFryerCost := cost, spidrPin := FormatPin(pin))
    ensures form.valid == old(form.valid).(
      email := ValidateEmail(email).isValid,
      airFryerCost := ValidateCost(cost, form.atLeastOneCent).isValid,
      spidrPin := |Digits(pin)| >= 16)
    ensures form.errors == old(form.errors).(
      email := ValidateEmail(email).error,
      airFryerCost := ValidateCost(cost, form.atLeastOneCent).error,
      spidrPin := ValidatePin(FormatPin(pin)).error)
  {
    StoredPinValidIff(pin, form.atLeastOneCent);
    form.HandleInputChange(Email, email);
    form.HandleInputChange(AirFryerCost, cost);
    form.HandleInputChange(SpidrPin, pin);
  }

  /**
   * A complete entry typed into a fresh form: the submit button is enabled,
   * the record is sent with the masked phone, the `$`-prefixed cost and the
   * encoded masked PIN, and the form is reset with the success message on.
   */
  method EntryScenario(
    atLeastOneCent: string -> bool, encode: string -> string,
    first: string, last: string, phone: string, email: string, cost: string, pin: string)
    returns (form: SpidrForm, enabled: bool, sent: Option<Submission>)
    requires ValidateName(first, "First name").isValid && ValidateName(last, "Last name").isValid
    requires |Digits(phone)| == 10 && ValidateEmail(email).isValid
    requires ValidateCost(cost, atLeastOneCent).isValid && |Digits(pin)| >= 16
    ensures enabled
    ensures sent == Some(Submission(first, last, FormatPhoneNumber(phone), email, "$" + cost, encode(FormatPin(pin))))
    ensures form.formData == Uniform("") && form.errors == Uniform("") && form.valid == Uniform(false)
    ensures !form.isSubmitting && form.showSuccess
  {
    form := new SpidrForm(atLeastOneCent);
    TypeNamesAndPhone(form, first, last, phone);
    TypeEmailCostAndPin(form, email, cost, pin);
    assert form.valid == Uniform(true);
    enabled := form.SubmitEnabled();
    sent := form.HandleSubmit(encode);
  }
}
