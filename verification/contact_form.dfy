/** The contact form as both scripts see it. */
module ContactForm {
  import opened Wrappers

  /**
   * The form's controls, each `None` when the form has no control of that
   * name, and whether the `privacy` checkbox is checked. Read through
   * `Object.fromEntries(new FormData(form))` this is exactly the submitted
   * payload: every present text control gives its string, and the checkbox
   * contributes an entry only when it is checked.
   */
  datatype Controls = Controls(
    name: Option<string>,
    email: Option<string>,
    phone: Option<string>,
    company: Option<string>,
    service: Option<string>,
    message: Option<string>,
    privacy: bool)

  datatype Field = Name | Email | Phone | Company | Service | Message

  function Get(c: Controls, f: Field): Option<string> {
    match f
    case Name => c.name
    case Email => c.email
    case Phone => c.phone
    case Company => c.company
    case Service => c.service
    case Message => c.message
  }

  /** The text fields both handlers insist on; `phone` and `company` are optional. */
  const Required: seq<Field> := [Name, Email, Service, Message]

  /** The outcome of validating one submission: success, or the one failure reported. */
  datatype Verdict = Valid | Missing | BadEmail | NoPrivacy

  /** The `<form>` element: what the user has entered, and the values its markup sets, to which `reset()` returns. */
  class Form {
    var controls: Controls
    const defaults: Controls

    constructor (defaults: Controls, entered: Controls)
      ensures this.defaults == defaults && controls == entered
    {
      this.defaults := defaults;
      controls := entered;
    }

    /** `HTMLFormElement.reset()`. */
    method Reset()
      modifies this
      ensures controls == defaults
    {
      controls := defaults;
    }
  }
}
