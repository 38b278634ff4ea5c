/**
 * The logic of the pass purchase form: the email check, validation of the
 * four required fields, the per-field error flags and the handlers that clear
 * them, and the pass assembled at submission. Rendering, alerts, the camera
 * and the loading flag are not modelled; the state a React update would
 * produce is returned instead.
 */
module PassForm {
  import opened Wrappers
  import opened JsText
  import opened Domain

  // ------------------------------------------------------------------- email

  /** A character `[^\s@]` accepts. */
  predicate Plain(c: char) {
    !IsWhitespace(c) && c != '@'
  }

  predicate AllPlain(s: string) {
    forall k :: 0 <= k < |s| ==> Plain(s[k])
  }

  /**
   * What `/^[^\s@]+@[^\s@]+\.[^\s@]+$/` accepts, by positions: an '@' at `at`
   * with something before it, a '.' at `dot` with something between them and
   * something after it, and every other character plain.
   */
  predicate IsEmailAt(s: string, at: int, dot: int) {
    && 0 < at && at + 1 < dot < |s| - 1
    && s[at] == '@' && s[dot] == '.'
    && forall k :: 0 <= k < |s| && k != at ==> Plain(s[k])
  }

  ghost predicate EmailShape(s: string) {
    exists at, dot :: IsEmailAt(s, at, dot)
  }

  /** Every address of the form `local@domain.tld` with plain non-empty parts has the shape. */
  lemma EmailOfParts(local: string, domain: string, tld: string)
    requires |local| > 0 && |domain| > 0 && |tld| > 0
    requires AllPlain(local) && AllPlain(domain) && AllPlain(tld)
    ensures EmailShape(local + "@" + domain + "." + tld)
  {
    var s := local + "@" + domain + "." + tld;
    var at, dot := |local|, |local| + 1 + |domain|;
    assert s[at] == '@' && s[dot] == '.';
    forall k | 0 <= k < |s| && k != at
      ensures Plain(s[k])
    {
      if k < at {
        assert s[k] == local[k];
      } else if k < dot {
        assert s[k] == domain[k - at - 1];
      } else if k > dot {
        assert s[k] == tld[k - dot - 1];
      } else {
        NotWhitespace('.');
      }
    }
    assert IsEmailAt(s, at, dot);
  }

  /** Conversely, an address with the shape splits into such parts. */
  lemma EmailParts(s: string) returns (local: string, domain: string, tld: string)
    requires EmailShape(s)
    ensures s == local + "@" + domain + "." + tld
    ensures |local| > 0 && |domain| > 0 && |tld| > 0
    ensures AllPlain(local) && AllPlain(domain) && AllPlain(tld)
  {
    var at, dot :| IsEmailAt(s, at, dot);
    local, domain, tld := s[..at], s[at + 1..dot], s[dot + 1..];
    assert s == s[..at] + [s[at]] + s[at + 1..dot] + [s[dot]] + s[dot + 1..];
    assert forall k :: 0 <= k < |domain| ==> domain[k] == s[at + 1 + k];
    assert forall k :: 0 <= k < |tld| ==> tld[k] == s[dot + 1 + k];
  }

  /**
   * `validateEmail`, as one left-to-right scan: it remembers the '@' and the
   * first '.' at least two places after it, and gives up at a blank or a
   * second '@'.
   */
  method ValidateEmail(email: string) returns (ok: bool)
    ensures ok <==> EmailShape(email)
  {
    var at := -1;
    var dot := -1;
    for i := 0 to |email|
      invariant -1 <= at < i || (at == -1 && i == 0)
      invariant forall k :: 0 <= k < i && k != at ==> Plain(email[k])
      invariant at >= 0 ==> email[at] == '@'
      invariant dot >= 0 ==> 0 <= at && at + 1 < dot < i && email[dot] == '.'
      invariant dot >= 0 ==> forall k :: at + 1 < k < dot ==> email[k] != '.'
      invariant dot == -1 && at >= 0 ==> forall k :: at + 1 < k < i ==> email[k] != '.'
    {
      var c := email[i];
      if IsWhitespace(c) {
        NotWhitespace('@');
        assert !Plain(email[i]) && email[i] != '@';
        return false;
      }
      if c == '@' {
        if at >= 0 {
          forall at', dot'
            ensures !IsEmailAt(email, at', dot')
          {
            if at' != at {
              assert !Plain(email[at]);
            } else {
              assert !Plain(email[i]);
            }
          }
          return false;
        }
        at := i;
      } else if c == '.' && at >= 0 && i > at + 1 && dot == -1 {
        dot := i;
      }
    }
    ok := at > 0 && dot >= 0 && dot < |email| - 1;
    if ok {
      assert IsEmailAt(email, at, dot);
    } else {
      NotWhitespace('@');
      forall at', dot'
        ensures !IsEmailAt(email, at', dot')
      {
        if at' != at && at >= 0 {
          assert !Plain(email[at]);
        }
      }
    }
  }

  /** Blanks around an address make it invalid, even though the trimmed address is not empty. */
  lemma PaddedEmailInvalid(s: string)
    requires |s| > 0 && (IsWhitespace(s[0]) || IsWhitespace(s[|s| - 1]))
    ensures !EmailShape(s)
  {
  }

  // -------------------------------------------------------------------- form

  /** The form's fields; `passType` starts as "festival" and the others empty. */
  datatype FormData = FormData(firstName: string, lastName: string, email: string, passType: string, photoUri: string)

  const InitialData: FormData := FormData("", "", "", "festival", "")

  datatype Field = FirstName | LastName | Email | Photo

  /** `""` once the field was edited; otherwise the message kind validation left. */
  datatype FieldError = Cleared | Required | InvalidEmail

  datatype PassFormState = PassFormState(data: FormData, errors: map<Field, FieldError>)

  const InitialForm: PassFormState := PassFormState(InitialData, map[])

  /** `!value.trim()`: nothing but blanks. */
  predicate Missing(value: string) {
    |Trim(value)| == 0
  }

  /** A field is missing exactly when it holds nothing but blanks. */
  lemma MissingIsBlank(value: string)
    ensures Missing(value) <==> IsBlank(value)
  {
    TrimSpec(value);
  }

  /** The fields have no error entry other than `Cleared`. */
  predicate NoErrors(errors: map<Field, FieldError>) {
    forall f :: f in errors ==> errors[f] == Cleared
  }

  /**
   * `errors` is what `validateForm` builds for `data`, from scratch: a blank
   * first or last name is required; a blank email is required and an email
   * not matching the pattern as typed is invalid; an empty photo URI is
   * required; no other entry.
   */
  ghost predicate ErrorsFor(data: FormData, errors: map<Field, FieldError>) {
    && (FirstName in errors <==> IsBlank(data.firstName))
    && (LastName in errors <==> IsBlank(data.lastName))
    && (Email in errors <==> IsBlank(data.email) || !EmailShape(data.email))
    && (Photo in errors <==> data.photoUri == "")
    && (forall f :: f in errors ==> errors[f] == (if f == Email && !IsBlank(data.email) then InvalidEmail else Required))
  }

  /** What `validateForm` leaves behind: its verdict and the rebuilt errors. */
  datatype Validation = Validation(valid: bool, errors: map<Field, FieldError>)

  /**
   * `validateForm`: a blank first or last name is required; a blank email is
   * required and otherwise must match the pattern as typed, blanks included;
   * an empty photo URI is required. The errors are rebuilt from scratch.
   */
  method ValidateForm(data: FormData) returns (r: Validation)
    ensures FirstName in r.errors <==> IsBlank(data.firstName)
    ensures LastName in r.errors <==> IsBlank(data.lastName)
    ensures Email in r.errors <==> IsBlank(data.email) || !EmailShape(data.email)
    ensures Photo in r.errors <==> data.photoUri == ""
    ensures forall f :: f in r.errors ==> r.errors[f] == (if f == Email && !IsBlank(data.email) then InvalidEmail else Required)
    ensures r.valid <==> (!IsBlank(data.firstName) && !IsBlank(data.lastName)
      && !IsBlank(data.email) && EmailShape(data.email) && data.photoUri != "")
  {
    MissingIsBlank(data.firstName);
    MissingIsBlank(data.lastName);
    MissingIsBlank(data.email);
    var errors: map<Field, FieldError> := map[];
    if Missing(data.firstName) {
      errors := errors[FirstName := Required];
    }
    if Missing(data.lastName) {
      errors := errors[LastName := Required];
    }
    if Missing(data.email) {
      errors := errors[Email := Required];
    } else {
      var ok := ValidateEmail(data.email);
      if !ok {
        errors := errors[Email := InvalidEmail];
      }
    }
    if data.photoUri == "" {
      errors := errors[Photo := Required];
    }
    if |errors| == 0 {
      assert errors == map[];
    } else {
      var f :| f in errors;
    }
    r := Validation(|errors| == 0, errors);
  }

  /** Sets one field and clears only that field's error (`{ ...errors, field: "" }`). */
  function Edit(st: PassFormState, data: FormData, field: Field): (r: PassFormState)
    ensures r.data == data
    ensures field in r.errors && r.errors[field] == Cleared
    ensures forall f :: f != field ==> (f in r.errors <==> f in st.errors)
    ensures forall f :: f != field && f in st.errors ==> r.errors[f] == st.errors[f]
  {
    PassFormState(data, st.errors[field := Cleared])
  }

  function EditFirstName(st: PassFormState, text: string): (r: PassFormState)
    ensures r.data == st.data.(firstName := text)
    ensures r.errors == st.errors[FirstName := Cleared]
  {
    Edit(st, st.data.(firstName := text), FirstName)
  }

  function EditLastName(st: PassFormState, text: string): (r: PassFormState)
    ensures r.data == st.data.(lastName := text)
    ensures r.errors == st.errors[LastName := Cleared]
  {
    Edit(st, st.data.(lastName := text), LastName)
  }

  function EditEmail(st: PassFormState, text: string): (r: PassFormState)
    ensures r.data == st.data.(email := text)
    ensures r.errors == st.errors[Email := Cleared]
  {
    Edit(st, st.data.(email := text), Email)
  }

  /** Choosing a pass type touches no error. */
  function SelectPassType(st: PassFormState, passType: string): (r: PassFormState)
    ensures r.data == st.data.(passType := passType) && r.errors == st.errors
  {
    PassFormState(st.data.(passType := passType), st.errors)
  }

  /**
   * `handleTakePhoto` once the picker returns: a picture with a non-empty URI
   * is stored and clears only the photo error; a cancelled pick changes nothing.
   */
  function PhotoPicked(st: PassFormState, picked: Option<string>): (r: PassFormState)
    ensures picked.Some? && picked.value != "" ==>
      r.data == st.data.(photoUri := picked.value) && r.errors == st.errors[Photo := Cleared]
    ensures picked.None? || picked.value == "" ==> r == st
  {
    if picked.Some? && picked.value != "" then Edit(st, st.data.(photoUri := picked.value), Photo) else st
  }

  /** Editing one field never flags another: the errors it leaves are a subset of the old ones plus a cleared entry. */
  lemma EditsOnlyClear(st: PassFormState, text: string)
    requires NoErrors(st.errors)
    ensures NoErrors(EditFirstName(st, text).errors) && NoErrors(EditLastName(st, text).errors)
    ensures NoErrors(EditEmail(st, text).errors)
  {
  }

  // ------------------------------------------------------------------ submit

  /** Seven days in milliseconds, the pass's validity. */
  const PassValidityMs: int := 7 * 24 * 60 * 60 * 1000

  /** `handleSubmit`: the form with the rebuilt errors, and the pass handed to `onSubmit` if it was called. */
  datatype Submission = Submission(state: PassFormState, sent: Option<UserPass>)

  /**
   * `handleSubmit` at time `now` (milliseconds): the pass is issued only when
   * the form is valid, carries the fields exactly as typed, and is valid for
   * seven days from `now`.
   */
  method HandleSubmit(st: PassFormState, now: nat) returns (r: Submission)
    ensures r.state.data == st.data
    ensures ErrorsFor(st.data, r.state.errors)
    ensures r.sent.Some? <==> (!IsBlank(st.data.firstName) && !IsBlank(st.data.lastName)
      && !IsBlank(st.data.email) && EmailShape(st.data.email) && st.data.photoUri != "")
    ensures r.sent.Some? ==>
      var pass := r.sent.value;
      && pass.firstName == st.data.firstName && pass.lastName == st.data.lastName
      && pass.email == st.data.email && pass.photoUri == st.data.photoUri && pass.passType == st.data.passType
      && pass.createdAt == now && pass.validUntil == now + 604800000
      && pass.id == "pass-" + Decimal(now) && pass.qrCode.passId == pass.id
  {
    var v := ValidateForm(st.data);
    var state := PassFormState(st.data, v.errors);
    if !v.valid {
      return Submission(state, None);
    }
    var id := "pass-" + Decimal(now);
    var d := st.data;
    var qr := PassQrPayload(id, d.firstName, d.lastName, d.email, d.passType, now);
    var pass := UserPass(id, d.firstName, d.lastName, d.email, d.photoUri, qr, d.passType, now, now + PassValidityMs);
    r := Submission(state, Some(pass));
  }
}
