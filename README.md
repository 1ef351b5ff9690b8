# Spidr entry form — a Dafny model

This project models the logic of the Spidr entry form
(`components/spidr-form.tsx`). The form is a React component that collects a
first and last name, a phone number, an email address, an air fryer cost and a
sixteen-digit Spidr PIN. It is modelled in four parts:

- **Formatting.** As the user types, the phone number is masked as
  `(AAA) BBB-CCCC` and the PIN as `####-####-####-####`.
- **Validation.** Each field is checked by its own validator, which returns a
  flag and the message shown under the field.
- **Enabling submit.** The submit button is enabled only when all six fields
  are valid and no submission is in progress.
- **Submitting.** A submission emits a record and resets the form.

The model is split into five modules:

- `Text` (`text.dfy`): the character classes the code's regular expressions
  use. `\d` is the ASCII digits; `\s` is the ECMAScript white-space and
  line-terminator set, which `trim` also strips. It also holds `Digits`
  (`s.replace(/\D/g, "")`), clamped `Slice` and `Trim`.
- `Formatters` (`formatters.dfy`): `formatPhoneNumber` and `formatPin`, with
  the mask shape, digit preservation and idempotence of each.
- `Validators` (`validators.dfy`): the five validators, with a character-level
  characterisation of when each accepts.
- `FormController` (`form_controller.dfy`): the component's state, as the class
  `SpidrForm`. It holds the records `formData`, `errors` and `valid`, which share
  the six keys of `Field`, plus the flags `isSubmitting` and `showSuccess`. Its
  methods are `HandleInputChange`, `HandleSubmit` and `DismissSuccess`; its
  functions are `IsFormValid` and `SubmitEnabled`.
  - The class invariant `Valid()` says every field is consistent. Its value is
    already formatted, and its flag and message are either its validator's
    verdict on that value or the untouched initial state (`""`, `""`, `false`).
- `Scenarios` (`scenarios.dfy`): worked examples of the entry form.

Some inputs of the component are parameters of the model:

- `atLeastOneCent: string -> bool` is the numeric test of `validateCost`
  (`parseFloat`, `isNaN` and `< 0.01`). It is fixed when the form is created.
- `encode: string -> string` is the browser's `btoa`, which a submission applies
  to the PIN.
- The `console.log` of a submission is `HandleSubmit`'s result: `Some(record)`
  when a record is emitted, `None` when the submission is ignored.

## Model

| member | source | states |
|---|---|---|
| Text.Digits | components/spidr-form.tsx:89 | `replace(/\D/g, "")` returns only digits and is never longer than its input |
| Text.LeadingWhitespace | components/spidr-form.tsx:71 | the count of leading characters `trim` strips: all of them are white space and the next one is not |
| Text.TrailingWhitespace | components/spidr-form.tsx:71 | the count of trailing characters `trim` strips: all of them are white space and the one before them is not |
| Text.Trim | components/spidr-form.tsx:71 | `trim()` never lengthens its input, and a non-empty result starts and ends with a non-white-space character |
| Text.TrimSpan | components/spidr-form.tsx:71 | the trimmed string is a contiguous part of the input, with only white space before and after it |
| Text.BlankIff | components/spidr-form.tsx:86 | `!s.trim()` holds exactly when every character of `s` is white space |
| Text.DigitsAppend | components/spidr-form.tsx:131 | stripping non-digits distributes over concatenation |
| Text.DigitsIdentity | components/spidr-form.tsx:131 | stripping non-digits leaves a string unchanged exactly when it is all digits |
| Text.DigitsOfNonDigits | components/spidr-form.tsx:131 | a string without digits strips to the empty string |
| Text.DigitsComeFromInput | components/spidr-form.tsx:89 | a non-empty stripped string means the input held a digit |
| Text.DigitsNotBlank | components/spidr-form.tsx:86-90 | an input with a digit never takes the "required" branch |
| Formatters.PhoneMask | components/spidr-form.tsx:130-137 | by digit count: 0–3 digits give just the digits, 4–6 give `(AAA) B…` without a hyphen, 7–10 give `(AAA) BBB-C…`, at most 10 digits give at most 14 characters, and more than 10 return the input unchanged |
| Formatters.MaskDigits | components/spidr-form.tsx:134 | the punctuation of the phone mask adds no digit: the mask's digits are the three groups in order |
| Formatters.PhoneDigits | components/spidr-form.tsx:130-137 | formatting a phone number keeps exactly the input's digits, in order, in every branch |
| Formatters.PhoneIdempotent | components/spidr-form.tsx:130-137 | formatting a formatted phone number changes nothing, the pass-through of more than 10 digits included |
| Formatters.NonEmpty | components/spidr-form.tsx:144 | `filter(Boolean)` keeps only non-empty groups and loses no character of their concatenation |
| Formatters.PinDigits | components/spidr-form.tsx:141 | `slice(0, 16)` of the digits is a prefix of the digits of length at most 16, and all of them when there are fewer than 16 |
| Formatters.NonEmptyPrefix | components/spidr-form.tsx:144 | filtering non-empty groups followed by empty ones keeps exactly the non-empty ones |
| Formatters.FourGroupsConcat | components/spidr-form.tsx:142-144 | the four regex groups of at most 16 digits, concatenated, are those digits |
| Formatters.PinGroupsPrefix | components/spidr-form.tsx:142-144 | of the four groups of `n` digits, the first `(n + 3) / 4` are kept and the rest are empty |
| Formatters.PinGroupsShape | components/spidr-form.tsx:142-144 | the PIN's groups hold all its digits, every group but the last has 4 digits, and the last has 1 to 4 |
| Formatters.JoinGrouped | components/spidr-form.tsx:144 | a `join` of 4-character groups has the separator at every fifth position and the groups' characters, in order, everywhere else |
| Formatters.MaskOfDigits | components/spidr-form.tsx:144 | such a join of digits holds only digits and hyphens, has at most 19 characters, and starts and ends with a digit |
| Formatters.PinShape | components/spidr-form.tsx:140-147 | `formatPin` output: a hyphen exactly at every fifth position and otherwise the first 16 digits in order; only digits and hyphens, at most 19 characters, no empty group, and `""` when there are no digits |
| Formatters.JoinDigits | components/spidr-form.tsx:144 | joining groups of digits with `-` keeps their digits, in order |
| Formatters.PinGroupDigits | components/spidr-form.tsx:142 | each PIN group is made of digits |
| Formatters.ConcatSplit | components/spidr-form.tsx:142 | in groups of four, group `i` starts at position `4 * i` |
| Formatters.PinDigitsPreserved | components/spidr-form.tsx:140-147 | the digits of a formatted PIN are exactly the first 16 digits of the input, in order |
| Formatters.PinIdempotent | components/spidr-form.tsx:140-147 | formatting a formatted PIN changes nothing |
| Validators.ValidateName | components/spidr-form.tsx:70-82 | valid exactly when the message is empty; a blank name gets `fieldName + " is required"` |
| Validators.NameValidIff | components/spidr-form.tsx:70-82 | a name passes exactly when it is not all white space and every character is an ASCII letter, `.` or white space |
| Validators.ValidatePhone | components/spidr-form.tsx:85-94 | valid exactly when the message is empty; a blank value gets "Phone number is required" |
| Validators.PhoneValidIff | components/spidr-form.tsx:85-94 | a phone number passes exactly when it has ten digits |
| Validators.ValidatePin | components/spidr-form.tsx:118-127 | valid exactly when the message is empty; a blank value gets "Spidr PIN is required" |
| Validators.PinValidIff | components/spidr-form.tsx:118-127 | a PIN passes exactly when it has sixteen digits |
| Validators.ValidateEmail | components/spidr-form.tsx:96-105 | valid exactly when the message is empty; a blank value gets "Email address is required" |
| Validators.EmailValidIff | components/spidr-form.tsx:96-105 | an address passes exactly when it has no white space, one `@` with something before it, and after it a domain with a `.` that is neither its first nor its last character |
| Validators.PatternHasShape | components/spidr-form.tsx:100-101 | a match of `^[^\s@]+@[^\s@]+\.[^\s@]+$` has that shape and is not blank |
| Validators.ShapeMatchesPattern | components/spidr-form.tsx:100-101 | an address of that shape matches the regular expression |
| Validators.ValidateCost | components/spidr-form.tsx:107-116 | valid exactly when the message is empty; a blank value gets "Air Fryer cost is required" |
| Validators.CostValidIff | components/spidr-form.tsx:107-116 | a cost passes exactly when it is not blank and reads as at least one cent |
| FormController.Fields.With | components/spidr-form.tsx:159 | `{ ...prev, [field]: v }` sets entry `field` to `v` and keeps the other five |
| FormController.Fields.Values | components/spidr-form.tsx:191 | `Object.values` lists exactly the six entries |
| FormController.Uniform | components/spidr-form.tsx:37-62 | the initial and reset records hold the same value under every key |
| FormController.FormatFieldIdempotent | components/spidr-form.tsx:153-157 | a stored value is a fixed point of its field's formatting |
| FormController.FormatFieldEmpty | components/spidr-form.tsx:37-43 | the empty initial value is already formatted, in every field |
| FormController.ValidateField | components/spidr-form.tsx:163-184 | each field's validator: valid exactly when the message is empty, and a blank value gets that field's "required" message |
| FormController.StoredPhoneValidIff | components/spidr-form.tsx:153-172 | a phone number stored by an input change is valid exactly when the typed text had ten digits |
| FormController.StoredPinValidIff | components/spidr-form.tsx:155-181 | a PIN stored by an input change is valid exactly when the typed text had at least sixteen digits |
| FormController.StoredPhoneWrongLength | components/spidr-form.tsx:153-172 | a stored phone number with some digits, but not ten, gets "Please enter a valid phone number" |
| FormController.StoredPinTooShort | components/spidr-form.tsx:155-181 | a stored PIN with some digits, but fewer than sixteen, gets the 16-digit format message |
| FormController.InputKeepsConsistent | components/spidr-form.tsx:150-188 | an input change keeps every field consistent: formatted, with its validator's verdict or untouched |
| FormController.ResetConsistent | components/spidr-form.tsx:214-238 | the reset records are consistent |
| FormController.SpidrForm.constructor | components/spidr-form.tsx:37-65 | the initial state: every value and message `""`, every flag false, not submitting, no success message |
| FormController.SpidrForm.ValidFlags | components/spidr-form.tsx:186-187 | a validity flag is set exactly when the field's validator accepts the stored value, and a set flag comes with an empty message |
| FormController.SpidrForm.StoredPinText | components/spidr-form.tsx:155-159 | the stored PIN holds only digits and hyphens, so every character is one `btoa` accepts |
| FormController.SpidrForm.IsFormValid | components/spidr-form.tsx:191 | `Object.values(valid).every(Boolean)` holds exactly when all six flags are set |
| FormController.SpidrForm.SubmitEnabled | components/spidr-form.tsx:406 | the submit button is enabled exactly when all six flags are set and no submission is in progress |
| FormController.SpidrForm.HandleInputChange | components/spidr-form.tsx:150-188 | stores the formatted value and its validator's message and flag for the changed field, leaves the other five entries of each record and both flags alone, and keeps the form consistent |
| FormController.SpidrForm.HandleSubmit | components/spidr-form.tsx:194-241 | ignored unless every flag is set; otherwise it emits the stored values with `$` before the cost and the encoded PIN, resets all three records, and ends with the success message shown and no submission in progress; an emitted record's every value passes its validator, and the PIN handed to `encode` holds only digits and hyphens |
| FormController.SpidrForm.DismissSuccess | components/spidr-form.tsx:241 | the timer's callback hides the success message and changes nothing else |
| Scenarios.FiveDigitPin | components/spidr-form.tsx:140-147 | five digits show as one full group, a hyphen and the fifth digit (`12345` gives `1234-5`) |
| Scenarios.ZeroCostExample | components/spidr-form.tsx:107-116 | a cost that does not read as at least one cent gets "Air Fryer cost must be at least $0.01" |
| Scenarios.PhoneAccepted | components/spidr-form.tsx:150-172 | the typed phone number `5551234567` is stored as a valid one |
| Scenarios.NameAccepted | components/spidr-form.tsx:70-82 | the first name `John` passes |
| Scenarios.LastNameAccepted | components/spidr-form.tsx:70-82 | the last name `Smith` passes |
| Scenarios.CostAccepted | components/spidr-form.tsx:107-116 | the cost `49.99` passes when it reads as at least one cent |
| Scenarios.EmailAccepted | components/spidr-form.tsx:96-105 | the address `j@x.com` passes |
| Scenarios.SixteenDigitPin | components/spidr-form.tsx:140-147 | sixteen digits show as four groups of four joined by hyphens |
| Scenarios.PinExample | components/spidr-form.tsx:140-147 | the digits `1234567890123456` show as `1234-5678-9012-3456` |
| Scenarios.PinAccepted | components/spidr-form.tsx:118-127 | the typed PIN `1234567890123456` is stored as a valid one |
| Scenarios.PhoneExample | components/spidr-form.tsx:130-137 | the digits `5551234567` show as `(555) 123-4567` |
| Scenarios.ShortPhoneExample | components/spidr-form.tsx:85-94 | the nine-digit `555-123-456` is stored and gets "Please enter a valid phone number" |
| Scenarios.TypeNamesAndPhone | components/spidr-form.tsx:150-188 | typing the two names and a phone number stores each formatted value with its validator's flag and message, and leaves the other three entries of every record and both flags unchanged |
| Scenarios.TypeEmailCostAndPin | components/spidr-form.tsx:150-188 | typing an email address, a cost and a PIN stores each formatted value with its validator's flag and message, and leaves the other three entries of every record and both flags unchanged |
| Scenarios.EntryScenario | components/spidr-form.tsx:194-241 | a complete valid entry typed into a fresh form enables the submit button, is sent with the masked phone, the `$`-prefixed cost and the encoded masked PIN, and leaves the form reset with the success message shown |

## Left out

- The numeric test of `validateCost` (`Number.parseFloat`, `isNaN`, `< 0.01`) is floating point with JavaScript's prefix parsing. It is the parameter `atLeastOneCent`.
- `btoa` is a browser function (base64 as in section 4 of RFC 4648). It is the parameter `encode` of `HandleSubmit`. Its `InvalidCharacterError` for characters above U+00FF cannot arise: a stored PIN holds only digits and hyphens (`StoredPinText`, and the matching `ensures` of `HandleSubmit`).
- `console.log` is output. The logged record is `HandleSubmit`'s result instead.
- `setTimeout(..., 3000)` is scheduling. Its callback is the separate event `DismissSuccess`; how long it waits is not modelled.
- React's `useState` batching, re-rendering and `e.preventDefault()` are not modelled. Each handler is one atomic step on the current state, and `isFormValid` is read from that state.
- The `showPin` toggle, the JSX markup and its styling are presentation and are not modelled.
- The `default` branch of the `switch` in `handleInputChange` cannot be reached with a key of `FormData`, so `ValidateField` has no such case.
- White space is the fixed set of ECMAScript `WhiteSpace` and `LineTerminator` characters as of ES2015: tab, line feed, vertical tab, form feed, carriage return, space, U+00A0, U+1680, U+2000–U+200A, U+2028, U+2029, U+202F, U+205F, U+3000 and U+FEFF. Unicode category tables are not modelled.
- The fallback `return value` of `formatPin` is kept as a branch, but it is never taken: sixteen or fewer digits always match `^(\d{0,4})(\d{0,4})(\d{0,4})(\d{0,4})$`.
