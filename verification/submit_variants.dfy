/**
 * The two submit handlers side by side, on the same form: main.js trims the
 * required values and has a privacy verdict of its own; script.js does not
 * trim, folds privacy into the required check, and needs every control.
 */
module SubmitVariants {
  import opened Wrappers
  import opened Text
  import opened EmailPattern
  import opened ContactForm
  import MainSubmit
  import ScriptSubmit

  /** Every submission main.js accepts, script.js accepts too. */
  lemma MainAcceptsOnlyWhatScriptAccepts(c: Controls)
    requires ScriptSubmit.Collect(c).Some?
    requires MainSubmit.Validate(c) == Valid
    ensures ScriptSubmit.Validate(ScriptSubmit.Collect(c).value) == Valid
  {
    var v := ScriptSubmit.Collect(c).value;
    forall f | f in Required ensures ScriptSubmit.ValueOf(v, f) != [] {
      assert Get(c, f) == Some(ScriptSubmit.ValueOf(v, f));
    }
  }

  /** script.js accepts more only through a required value made of blanks, which main.js reports as missing. */
  lemma ScriptLooserOnlyOnBlanks(c: Controls)
    requires ScriptSubmit.Collect(c).Some?
    requires ScriptSubmit.Validate(ScriptSubmit.Collect(c).value) == Valid
    requires MainSubmit.Validate(c) != Valid
    ensures MainSubmit.Validate(c) == Missing
    ensures exists f :: f in Required && Get(c, f).Some? && Get(c, f).value != [] && AllSpace(Get(c, f).value)
  {
    var v := ScriptSubmit.Collect(c).value;
    assert Get(c, Name) == Some(v.name) && Get(c, Email) == Some(v.email);
    assert Get(c, Service) == Some(v.service) && Get(c, Message) == Some(v.message);
    assert Name in Required && Email in Required && Service in Required && Message in Required;
  }

  /** With privacy checked and no required value made only of blanks, both handlers reach the same verdict. */
  lemma SameVerdictWithoutBlanks(c: Controls)
    requires ScriptSubmit.Collect(c).Some? && c.privacy
    requires forall f :: f in Required ==> Get(c, f).value == [] || !AllSpace(Get(c, f).value)
    ensures MainSubmit.Validate(c) == ScriptSubmit.Validate(ScriptSubmit.Collect(c).value)
  {
    var v := ScriptSubmit.Collect(c).value;
    assert Get(c, Name) == Some(v.name) && Get(c, Email) == Some(v.email);
    assert Get(c, Service) == Some(v.service) && Get(c, Message) == Some(v.message);
    assert Name in Required && Email in Required && Service in Required && Message in Required;
  }

  /**
   * An unchecked privacy box: script.js always reports missing fields, main.js
   * reports the first failing check and reaches its privacy verdict only when
   * the other two checks pass.
   */
  lemma UncheckedPrivacy(c: Controls)
    requires ScriptSubmit.Collect(c).Some? && !c.privacy
    ensures ScriptSubmit.Validate(ScriptSubmit.Collect(c).value) == Missing
    ensures MainSubmit.Validate(c) != Valid
    ensures MainSubmit.Validate(c) == NoPrivacy <==> MainSubmit.AllSupplied(c) && WellShaped(c.email.value)
  {
  }

  /** A form without a `phone` control: main.js accepts it, while script.js throws while collecting. */
  lemma MissingOptionalControl(c: Controls)
    requires c.phone.None? && MainSubmit.Validate(c) == Valid
    ensures ScriptSubmit.Collect(c).None?
  {
    assert Get(c, Phone).None?;
  }

  /** The form of an example submission, with both optional fields left empty. */
  function Sample(name: string, email: string): Controls {
    Controls(Some(name), Some(email), Some(""), Some(""), Some("x"), Some("m"), true)
  }

  /** A complete, well-formed submission passes both handlers. */
  lemma SampleAccepted()
    ensures MainSubmit.Validate(Sample("A", "a@b.co")) == Valid
    ensures ScriptSubmit.Validate(ScriptSubmit.Collect(Sample("A", "a@b.co")).value) == Valid
  {
    var c := Sample("A", "a@b.co");
    SimpleAddressMatches();
    MatchesIff("a@b.co");
    assert !IsSpace("A"[0]) && !IsSpace("x"[0]) && !IsSpace("m"[0]) && !IsSpace("a@b.co"[0]);
    assert MainSubmit.Supplied(c.name) && MainSubmit.Supplied(c.email);
    assert MainSubmit.Supplied(c.service) && MainSubmit.Supplied(c.message);
    ScriptAcceptsSample("A");
  }

  /** A name of three blanks: main.js reports missing fields, script.js accepts the submission. */
  lemma BlankNameSplitsVariants()
    ensures MainSubmit.Validate(Sample("   ", "a@b.co")) == Missing
    ensures ScriptSubmit.Validate(ScriptSubmit.Collect(Sample("   ", "a@b.co")).value) == Valid
  {
    var c := Sample("   ", "a@b.co");
    assert Get(c, Name) == Some("   ");
    assert AllSpace("   ");
    MainSubmit.WhitespaceOnlyIsMissing(c, Name);
    ScriptAcceptsSample("   ");
  }

  /** script.js accepts the sample for any non-empty name, blanks included. */
  lemma ScriptAcceptsSample(name: string)
    requires name != []
    ensures ScriptSubmit.Validate(ScriptSubmit.Collect(Sample(name, "a@b.co")).value) == Valid
  {
    var v := ScriptSubmit.Values(name, "a@b.co", "", "", "x", "m", true);
    assert ScriptSubmit.Collect(Sample(name, "a@b.co")) == Some(v);
    SimpleAddressMatches();
    MatchesIff("a@b.co");
    forall f | f in Required ensures ScriptSubmit.ValueOf(v, f) != [] {
    }
    assert ScriptSubmit.Validate(v) == Valid;
  }
}
