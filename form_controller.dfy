/**
 * The entry form's state and its two event handlers. The three records
 * `formData`, `errors` and `valid` share the six keys of `Field`; an input
 * change formats, validates and updates one key of each, and a submission
 * emits a record and resets all three.
 */
module FormController {
  import opened Text
  import opened Formatters
  import opened Validators

  datatype Option<T> = None | Some(value: T)

  /** `keyof FormData`. */
  datatype Field = FirstName | LastName | Phone | Email | AirFryerCost | SpidrPin

  /** A record with one entry per field: the shape of `FormData`, `FormErrors` and `FormValid`. */
  datatype Fields<T> = Fields(firstName: T, lastName: T, phone: T, email: T, airFryerCost: T, spidrPin: T)
  {
    /** `record[f]`. */
    function Get(f: Field): T {
      match f
      case FirstName => firstName
      case LastName => lastName
      case Phone => phone
      case Email => email
      case AirFryerCost => airFryerCost
      case SpidrPin => spidrPin
    }

    /** `{ ...record, [f]: v }`: entry `f` replaced, the five others kept. */
    function With(f: Field, v: T): (r: Fields<T>)
      ensures r.Get(f) == v
      ensures forall g :: g != f ==> r.Get(g) == Get(g)
    {
      match f
      case FirstName => this.(firstName := v)
      case LastName => this.(lastName := v)
      case Phone => this.(phone := v)
      case Email => this.(email := v)
      case AirFryerCost => this.(airFryerCost := v)
      case SpidrPin => this.(spidrPin := v)
    }

    /** `Object.values(record)`, in declaration order. */
    function Values(): (vs: seq<T>)
      ensures |vs| == 6
      ensures forall f :: Get(f) in vs
      ensures forall i :: 0 <= i < |vs| ==> exists f :: vs[i] == Get(f)
    {
      var vs := [firstName, lastName, phone, email, airFryerCost, spidrPin];
      assert vs[0] == Get(FirstName) && vs[1] == Get(LastName) && vs[2] == Get(Phone);
      assert vs[3] == Get(Email) && vs[4] == Get(AirFryerCost) && vs[5] == Get(SpidrPin);
      vs
    }
  }

  /** A record holding `v` under every key: the initial and the reset records. */
  function Uniform<T>(v: T): (r: Fields<T>)
    ensures forall f :: r.Get(f) == v
  {
    Fields(v, v, v, v, v, v)
  }

  /** `values.every(Boolean)`. */
  predicate Every(values: seq<bool>) {
    forall i :: 0 <= i < |values| ==> values[i]
  }

  /**
   * The value `handleInputChange` stores for a field: phone and PIN are
   * reformatted, the other fields are kept as typed.
   */
  function FormatField(f: Field, value: string): string {
    match f
    case Phone => FormatPhoneNumber(value)
    case SpidrPin => FormatPin(value)
    case _ => value
  }

  /** A stored value is a fixed point of its field's formatter. */
  lemma {:induction false} FormatFieldIdempotent(f: Field, value: string)
    ensures FormatField(f, FormatField(f, value)) == FormatField(f, value)
  {
    match f
    case Phone => PhoneIdempotent(value);
    case SpidrPin => PinIdempotent(value);
    case _ =>
  }

  /** The empty value is its own formatting, in every field. */
  lemma {:induction false} FormatFieldEmpty(f: Field)
    ensures FormatField(f, "") == ""
  {
    if f == SpidrPin {
      PinGroupsShape("");
    }
  }

  /** The message a blank field gets. */
  function RequiredMessage(f: Field): string {
    match f
    case FirstName => "First name" + RequiredSuffix
    case LastName => "Last name" + RequiredSuffix
    case Phone => PhoneRequired
    case Email => EmailRequired
    case AirFryerCost => CostRequired
    case SpidrPin => PinRequired
  }

  /**
   * The `switch (field)` of `handleInputChange`: each field's validator, the
   * name validators told which name they check.
   */
  function ValidateField(f: Field, value: string, atLeastOneCent: string -> bool): (r: Validation)
    ensures r.isValid <==> r.error == ""
    ensures IsBlank(value) ==> r == Validation(false, RequiredMessage(f))
  {
    match f
    case FirstName => ValidateName(value, "First name")
    case LastName => ValidateName(value, "Last name")
    case Phone => ValidatePhone(value)
    case Email => ValidateEmail(value)
    case AirFryerCost => ValidateCost(value, atLeastOneCent)
    case SpidrPin => ValidatePin(value)
  }

  /** A phone number, once stored, passes exactly when ten digits were typed. */
  lemma {:induction false} StoredPhoneValidIff(value: string, atLeastOneCent: string -> bool)
    ensures ValidateField(Phone, FormatField(Phone, value), atLeastOneCent).isValid <==> |Digits(value)| == 10
  {
    PhoneDigits(value);
    PhoneValidIff(FormatPhoneNumber(value));
  }

  /** A PIN, once stored, passes exactly when at least sixteen digits were typed (the rest are cut off). */
  lemma {:induction false} StoredPinValidIff(value: string, atLeastOneCent: string -> bool)
    ensures ValidateField(SpidrPin, FormatField(SpidrPin, value), atLeastOneCent).isValid <==> |Digits(value)| >= 16
  {
    PinDigitsPreserved(value);
    PinValidIff(FormatPin(value));
  }

  /** A stored phone number with digits, but not ten of them, gets the invalid-number message. */
  lemma {:induction false} StoredPhoneWrongLength(value: string, atLeastOneCent: string -> bool)
    requires 0 < |Digits(value)| != 10
    ensures ValidateField(Phone, FormatField(Phone, value), atLeastOneCent)
         == Validation(false, PhoneInvalid)
  {
    PhoneDigits(value);
    DigitsNotBlank(FormatPhoneNumber(value));
  }

  /** A stored PIN with digits, but fewer than sixteen, gets the format message. */
  lemma {:induction false} StoredPinTooShort(value: string, atLeastOneCent: string -> bool)
    requires 0 < |Digits(value)| < 16
    ensures ValidateField(SpidrPin, FormatField(SpidrPin, value), atLeastOneCent)
         == Validation(false, PinInvalid)
  {
    PinDigitsPreserved(value);
    DigitsNotBlank(FormatPin(value));
  }

  /**
   * One field's entries in the three records agree: the value is already
   * formatted, and either the flag and message are its validator's verdict or
   * the field is untouched since the form was created or reset.
   */
  ghost predicate FieldConsistent(f: Field, value: string, error: string, ok: bool, atLeastOneCent: string -> bool) {
    && FormatField(f, value) == value
    && (Validation(ok, error) == ValidateField(f, value, atLeastOneCent) || (value == "" && error == "" && !ok))
  }

  /** Every field consistent, as `FieldConsistent` says. */
  ghost predicate AllConsistent(data: Fields<string>, errors: Fields<string>, valid: Fields<bool>, atLeastOneCent: string -> bool) {
    forall f {:trigger FieldConsistent(f, data.Get(f), errors.Get(f), valid.Get(f), atLeastOneCent)} ::
      FieldConsistent(f, data.Get(f), errors.Get(f), valid.Get(f), atLeastOneCent)
  }

  /** Storing a formatted value with its validator's verdict keeps every field consistent. */
  lemma {:induction false} InputKeepsConsistent(
    data: Fields<string>, errors: Fields<string>, valid: Fields<bool>, atLeastOneCent: string -> bool,
    f: Field, value: string)
    requires AllConsistent(data, errors, valid, atLeastOneCent)
    ensures var stored := FormatField(f, value);
            var verdict := ValidateField(f, stored, atLeastOneCent);
      AllConsistent(data.With(f, stored), errors.With(f, verdict.error), valid.With(f, verdict.isValid), atLeastOneCent)
  {
    var stored := FormatField(f, value);
    var verdict := ValidateField(f, stored, atLeastOneCent);
    var data', errors', valid' := data.With(f, stored), errors.With(f, verdict.error), valid.With(f, verdict.isValid);
    forall g ensures FieldConsistent(g, data'.Get(g), errors'.Get(g), valid'.Get(g), atLeastOneCent) {
      if g == f {
        FormatFieldIdempotent(f, value);
        assert Validation(valid'.Get(g), errors'.Get(g)) == verdict;
      } else {
        assert FieldConsistent(g, data.Get(g), errors.Get(g), valid.Get(g), atLeastOneCent);
      }
    }
  }

  /** Only digits and hyphens: every character is below U+0100, so `btoa` accepts the text. */
  predicate PinText(s: string) {
    forall i :: 0 <= i < |s| ==> IsDigit(s[i]) || s[i] == '-'
  }

  /** The reset records are consistent. */
  lemma {:induction false} ResetConsistent(atLeastOneCent: string -> bool)
    ensures AllConsistent(Uniform(""), Uniform(""), Uniform(false), atLeastOneCent)
  {
    forall f ensures FormatField(f, "") == "" {
      FormatFieldEmpty(f);
    }
  }

  /** What a successful submission emits (the object passed to `console.log`). */
  datatype Submission = Submission(
    firstName: string, lastName: string, phone: string, email: string,
    airFryerCost: string, spidrPin: string)

  class SpidrForm {
    var formData: Fields<string>
    var errors: Fields<string>
    var valid: Fields<bool>
    var isSubmitting: bool
    var showSuccess: bool
    /** Stands for `!isNaN(parseFloat(cost)) && parseFloat(cost) >= 0.01`. */
    const atLeastOneCent: string -> bool

    ghost predicate Valid()
      reads this
    {
      AllConsistent(formData, errors, valid, atLeastOneCent)
    }

    /** The state at mount: every value and message empty, every flag false. */
    constructor (atLeastOneCent: string -> bool)
      ensures Valid()
      ensures formData == Uniform("") && errors == Uniform("") && valid == Uniform(false)
      ensures !isSubmitting && !showSuccess
      ensures this.atLeastOneCent == atLeastOneCent
    {
      formData := Uniform("");
      errors := Uniform("");
      valid := Uniform(false);
      isSubmitting := false;
      showSuccess := false;
      this.atLeastOneCent := atLeastOneCent;
      new;
      ResetConsistent(atLeastOneCent);
    }

    /**
     * A validity flag is set exactly when the field's validator accepts its
     * stored value, and a set flag comes with an empty message: an untouched
     * field holds the empty value, which every validator rejects.
     */
    lemma {:induction false} ValidFlags()
      requires Valid()
      ensures forall f :: valid.Get(f) <==> ValidateField(f, formData.Get(f), atLeastOneCent).isValid
      ensures forall f :: valid.Get(f) ==> errors.Get(f) == ""
    {
      assert IsBlank("");
      forall f ensures valid.Get(f) <==> ValidateField(f, formData.Get(f), atLeastOneCent).isValid {
        assert FieldConsistent(f, formData.Get(f), errors.Get(f), valid.Get(f), atLeastOneCent);
      }
      forall f | valid.Get(f) ensures errors.Get(f) == "" {
        assert FieldConsistent(f, formData.Get(f), errors.Get(f), valid.Get(f), atLeastOneCent);
      }
    }

    /** The stored PIN is only digits and hyphens: it is empty or the output of the PIN mask. */
    lemma {:induction false} StoredPinText()
      requires Valid()
      ensures PinText(formData.spidrPin)
    {
      assert FieldConsistent(SpidrPin, formData.Get(SpidrPin), errors.Get(SpidrPin), valid.Get(SpidrPin), atLeastOneCent);
      PinShape(formData.spidrPin);
    }

    /** `isFormValid`: every validity flag is set. */
    function IsFormValid(): (r: bool)
      reads this
      ensures r <==> forall f :: valid.Get(f)
    {
      Every(valid.Values())
    }

    /** The submit button is enabled (`disabled={!isFormValid || isSubmitting}` is false). */
    function SubmitEnabled(): (r: bool)
      reads this
      ensures r <==> (forall f :: valid.Get(f)) && !isSubmitting
    {
      !(!IsFormValid() || isSubmitting)
    }

    /** `handleInputChange(f, value)`. */
    method HandleInputChange(f: Field, value: string)
      requires Valid()
      modifies this
      ensures isSubmitting == old(isSubmitting) && showSuccess == old(showSuccess)
      ensures var stored := FormatField(f, value);
              var verdict := ValidateField(f, stored, atLeastOneCent);
        && formData == old(formData).With(f, stored)
        && errors == old(errors).With(f, verdict.error)
        && valid == old(valid).With(f, verdict.isValid)
      ensures Valid()
    {
      var formattedValue := FormatField(f, value);
      var validation := ValidateField(f, formattedValue, atLeastOneCent);
      InputKeepsConsistent(formData, errors, valid, atLeastOneCent, f, value);
      formData, errors, valid :=
        formData.With(f, formattedValue), errors.With(f, validation.error), valid.With(f, validation.isValid);
    }

    /**
     * `handleSubmit`: nothing happens unless every flag is set; otherwise the
     * record is emitted (cost prefixed with `$`, PIN passed through `encode`,
     * the browser's `btoa`) and the form is reset with the success message on.
     */
    method HandleSubmit(encode: string -> string) returns (sent: Option<Submission>)
      requires Valid()
      modifies this
      ensures Valid()
      ensures !old(IsFormValid()) ==>
        && sent == None
        && formData == old(formData) && errors == old(errors) && valid == old(valid)
        && isSubmitting == old(isSubmitting) && showSuccess == old(showSuccess)
      ensures old(IsFormValid()) ==>
        && sent == Some(Submission(
             old(formData).firstName, old(formData).lastName, old(formData).phone, old(formData).email,
             "$" + old(formData).airFryerCost, encode(old(formData).spidrPin)))
        && formData == Uniform("") && errors == Uniform("") && valid == Uniform(false)
        && !isSubmitting && showSuccess
      ensures sent.Some? ==> forall f :: ValidateField(f, old(formData).Get(f), atLeastOneCent).isValid
      ensures sent.Some? ==> PinText(old(formData).spidrPin)
    {
      if !IsFormValid() {
        sent := None;
        return;
      }
      assert forall f :: ValidateField(f, formData.Get(f), atLeastOneCent).isValid by {
        ValidFlags();
      }
      StoredPinText();

      isSubmitting := true;
      sent := Some(Submission(
        formData.firstName, formData.lastName, formData.phone, formData.email,
        "$" + formData.airFryerCost, encode(formData.spidrPin)));
      isSubmitting := false;
      showSuccess := true;

      formData := Uniform("");
      errors := Uniform("");
      valid := Uniform(false);
      assert Valid() by {
        ResetConsistent(atLeastOneCent);
      }
    }

    /** The callback scheduled three seconds after a submission: hide the success message. */
    method DismissSuccess()
      requires Valid()
      modifies this
      ensures Valid()
      ensures !showSuccess
      ensures formData == old(formData) && errors == old(errors) && valid == old(valid)
      ensures isSubmitting == old(isSubmitting)
    {
      showSuccess := false;
    }
  }
}
