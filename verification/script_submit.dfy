/** The contact-form submit handler of script.js. */
module ScriptSubmit {
  import opened Wrappers
  import opened EmailPattern
  import opened ContactForm
  import opened FormAlert

  /** The values the handler collects, each `document.getElementById(id).value` (or `.checked`). */
  datatype Values = Values(
    name: string,
    email: string,
    phone: string,
    company: string,
    service: string,
    message: string,
    privacy: bool)

  /**
   * Collecting the values: reading `.value` of a control the page lacks throws,
   * so the handler stops before it validates or changes anything.
   */
  function Collect(c: Controls): (r: Option<Values>)
    ensures r.Some? <==> forall f :: Get(c, f).Some?
    ensures r.Some? ==> forall f :: Get(c, f) == Some(ValueOf(r.value, f))
  {
    if c.name.Some? && c.email.Some? && c.phone.Some? && c.company.Some? && c.service.Some? && c.message.Some?
    then Some(Values(c.name.value, c.email.value, c.phone.value, c.company.value,
                     c.service.value, c.message.value, c.privacy))
    else
      assert !(Get(c, Name).Some? && Get(c, Email).Some? && Get(c, Phone).Some?
               && Get(c, Company).Some? && Get(c, Service).Some? && Get(c, Message).Some?);
      None
  }

  function ValueOf(v: Values, f: Field): string {
    match f
    case Name => v.name
    case Email => v.email
    case Phone => v.phone
    case Company => v.company
    case Service => v.service
    case Message => v.message
  }

  /**
   * Two checks: the required values (privacy folded in, no `trim`), then the
   * e-mail test on the raw value. There is no privacy-specific verdict.
   */
  function Validate(v: Values): (r: Verdict)
    ensures r != NoPrivacy
    ensures r == Missing <==> !v.privacy || exists f :: f in Required && ValueOf(v, f) == []
    ensures r == Valid <==> v.privacy && WellShaped(v.email) && forall f :: f in Required ==> ValueOf(v, f) != []
  {
    assert Name in Required && Email in Required && Service in Required && Message in Required;
    MatchesIff(v.email);
    if v.name == [] || v.email == [] || v.service == [] || v.message == [] || !v.privacy then Missing
    else if !Matches(v.email) then BadEmail
    else Valid
  }

  const RequiredMessage: string := "Bitte füllen Sie alle Pflichtfelder aus."
  const EmailMessage: string := "Bitte geben Sie eine gültige E-Mail-Adresse ein."
  const ThanksMessage: string := "Vielen Dank für Ihre Anfrage! Wir werden uns schnellstmöglich mit Ihnen in Verbindung setzen."

  /** The alert each verdict shows. */
  function Response(v: Verdict): (a: Alert)
    requires v != NoPrivacy
    ensures a.kind == Success <==> v == Valid
  {
    match v
    case Missing => Alert(RequiredMessage, Error)
    case BadEmail => Alert(EmailMessage, Error)
    case Valid => Alert(ThanksMessage, Success)
  }

  /** Blanks are a value here: a required field holding only blanks passes the required check. */
  lemma BlanksPassRequiredCheck(v: Values, f: Field)
    requires f in Required && ValueOf(v, f) != [] && v.privacy
    requires forall g :: g in Required && g != f ==> ValueOf(v, g) != []
    ensures Validate(v) != Missing
  {
  }

  /** `phone` and `company` are collected but never change the verdict. */
  lemma OptionalFieldsIgnored(v: Values, phone: string, company: string)
    ensures Validate(v.(phone := phone, company := company)) == Validate(v)
  {
  }

  /**
   * The submit handler: `None` when collecting the values threw and nothing
   * changed; otherwise the verdict, a reset exactly on success, and one alert
   * replacing any earlier one.
   */
  method HandleSubmit(form: Form, slot: AlertSlot) returns (outcome: Option<Verdict>)
    requires slot.Valid()
    modifies form, slot
    ensures outcome.None? <==> Collect(old(form.controls)).None?
    ensures outcome.None? ==> form.controls == old(form.controls) && slot.State() == old(slot.State())
    ensures outcome.Some? ==> outcome.value == Validate(Collect(old(form.controls)).value)
    ensures outcome.Some? ==>
      && form.controls == (if outcome.value == Valid then form.defaults else old(form.controls))
      && slot.State() == Show(old(slot.State()), Response(outcome.value))
    ensures slot.Valid()
  {
    var values := Collect(form.controls);
    if values.None? {
      return None;
    }
    var v := Validate(values.value);
    if v == Valid {
      form.Reset();
    }
    slot.ShowAlert(Response(v));
    outcome := Some(v);
  }
}
