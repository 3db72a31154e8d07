/** The contact-form submit handler of main.js (`handleFormSubmit`). */
module MainSubmit {
  import opened Wrappers
  import opened Text
  import opened EmailPattern
  import opened ContactForm
  import opened FormAlert

  /** `!data[field]?.trim()`: the control is missing, or its value trims to the empty string. */
  predicate Blank(v: Option<string>) {
    v.None? || Trim(v.value) == []
  }

  /** `required.filter(field => !data[field]?.trim())`, in list order. */
  function MissingFields(c: Controls, fields: seq<Field>): (r: seq<Field>)
    ensures forall f :: f in r <==> f in fields && Blank(Get(c, f))
    ensures |r| <= |fields|
  {
    if fields == [] then []
    else (if Blank(Get(c, fields[0])) then [fields[0]] else []) + MissingFields(c, fields[1..])
  }

  /** A required value as the handler wants it: present, and not whitespace only. */
  predicate Supplied(v: Option<string>) {
    v.Some? && !AllSpace(v.value)
  }

  predicate AllSupplied(c: Controls) {
    Supplied(c.name) && Supplied(c.email) && Supplied(c.service) && Supplied(c.message)
  }

  /**
   * The three checks in their order (required fields, e-mail, privacy), of
   * which only the first failure is reported. The e-mail test sees the raw,
   * untrimmed value.
   */
  function Validate(c: Controls): (v: Verdict)
    ensures v == Missing <==> !AllSupplied(c)
    ensures v == BadEmail <==> AllSupplied(c) && !WellShaped(c.email.value)
    ensures v == NoPrivacy <==> AllSupplied(c) && WellShaped(c.email.value) && !c.privacy
    ensures v == Valid <==> AllSupplied(c) && WellShaped(c.email.value) && c.privacy
  {
    var missing := MissingFields(c, Required);
    MissingIff(c);
    if |missing| > 0 then Missing
    else
      MatchesIff(c.email.value);
      if !Matches(c.email.value) then BadEmail
      else if !c.privacy then NoPrivacy
      else Valid
  }

  /** The filter over the required list finds something exactly when a required value is not supplied. */
  lemma MissingIff(c: Controls)
    ensures |MissingFields(c, Required)| > 0 <==> !AllSupplied(c)
  {
    var missing := MissingFields(c, Required);
    if |missing| > 0 {
      assert missing[0] in missing;
    }
    assert Name in Required && Email in Required && Service in Required && Message in Required;
    forall f | f in Required ensures Blank(Get(c, f)) <==> !Supplied(Get(c, f)) {
    }
  }

  const RequiredMessage: string := "Bitte füllen Sie alle Pflichtfelder aus."
  const EmailMessage: string := "Bitte geben Sie eine gültige E-Mail-Adresse ein."
  const PrivacyMessage: string := "Bitte akzeptieren Sie die Datenschutzerklärung."
  const ThanksMessage: string := "Vielen Dank für Ihre Anfrage! Wir melden uns schnellstmöglich bei Ihnen."

  /** The alert each verdict shows: an error naming the failed check, or the thank-you note. */
  function Response(v: Verdict): (a: Alert)
    ensures a.kind == Success <==> v == Valid
  {
    match v
    case Missing => Alert(RequiredMessage, Error)
    case BadEmail => Alert(EmailMessage, Error)
    case NoPrivacy => Alert(PrivacyMessage, Error)
    case Valid => Alert(ThanksMessage, Success)
  }

  /** Every verdict has its own message. */
  lemma ResponsesDistinct(v: Verdict, w: Verdict)
    requires v != w
    ensures Response(v).message != Response(w).message
  {
    assert RequiredMessage[6] != EmailMessage[6];
    assert |PrivacyMessage| != |RequiredMessage| && |PrivacyMessage| != |EmailMessage|;
    assert |ThanksMessage| != |RequiredMessage| && |ThanksMessage| != |EmailMessage| && |ThanksMessage| != |PrivacyMessage|;
  }

  /** `phone` and `company` never change the verdict. */
  lemma OptionalFieldsIgnored(c: Controls, phone: Option<string>, company: Option<string>)
    ensures Validate(c.(phone := phone, company := company)) == Validate(c)
  {
  }

  /** A required value of blanks counts as missing, whatever the other fields hold. */
  lemma WhitespaceOnlyIsMissing(c: Controls, f: Field)
    requires f in Required && Get(c, f).Some? && AllSpace(Get(c, f).value)
    ensures Validate(c) == Missing
  {
  }

  /**
   * The submit handler: the form is reset exactly when all three checks pass,
   * and one alert, carrying the verdict's message, replaces any earlier one.
   */
  method HandleFormSubmit(form: Form, slot: AlertSlot) returns (v: Verdict)
    requires slot.Valid()
    modifies form, slot
    ensures v == Validate(old(form.controls))
    ensures form.controls == if v == Valid then form.defaults else old(form.controls)
    ensures slot.Valid() && slot.State() == Show(old(slot.State()), Response(v))
    ensures slot.shown == [old(slot.nextId)] && slot.created[old(slot.nextId)] == Response(v)
  {
    v := Validate(form.controls);
    if v == Valid {
      form.Reset();
    }
    slot.ShowAlert(Response(v));
  }
}
