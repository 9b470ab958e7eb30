/**
 The contact page's form controller: four text fields, a per-field error
 map, the `isSubmitting` flag and the submit status. Each event handler
 is a pure transition on an immutable `Controller`; the network round
 trip enters as the `Outcome` of the request.
 */
module ContactForm {
  import opened Wrappers
  import opened Text
  import opened Email
  import ContactRoute

  datatype Field = NameField | EmailField | SubjectField | MessageField

  /** `FormData`: the four text inputs. */
  datatype Form = Form(name: string, email: string, subject: string, message: string)

  const EmptyForm := Form("", "", "", "")

  function Get(f: Form, k: Field): string {
    match k
    case NameField => f.name
    case EmailField => f.email
    case SubjectField => f.subject
    case MessageField => f.message
  }

  /** `{...prev, [name]: value}`: the form with one field replaced. */
  function Set(f: Form, k: Field, v: string): (g: Form)
    ensures Get(g, k) == v
    ensures forall j :: j != k ==> Get(g, j) == Get(f, j)
  {
    match k
    case NameField => f.(name := v)
    case EmailField => f.(email := v)
    case SubjectField => f.(subject := v)
    case MessageField => f.(message := v)
  }

  datatype Status = Idle | Success | Error

  /**
   The component state. `statusMessage` is `None` when a success reply
   carried no `message` (the state then holds `undefined`).
   */
  datatype Controller = Controller(
    form: Form,
    errors: map<Field, string>,
    submitting: bool,
    status: Status,
    statusMessage: Option<string>)

  const Initial := Controller(EmptyForm, map[], false, Idle, Some(""))

  const NameHint := "Name must be at least 2 characters"
  const EmailHint := "Please enter a valid email address"
  const MessageHint := "Message must be at least 10 characters"
  const GenericFailure := "Something went wrong"
  const NetworkFailure := "Failed to send message. Please try again."

  /**
   Client name rule: the trimmed name is non-empty and at least 2 UTF-16
   code units long. The emptiness test is subsumed by the length test.
   */
  function NameRule(s: string): (ok: bool)
    ensures ok <==> Utf16Length(Trim(s)) >= ContactRoute.MinNameLength
  {
    Trim(s) != "" && Utf16Length(Trim(s)) >= ContactRoute.MinNameLength
  }

  /**
   Client email rule: the trimmed email is non-empty and the untrimmed
   email is address-shaped. An address-shaped string is its own trim, so
   the emptiness test is subsumed by the pattern.
   */
  function EmailRule(s: string): (ok: bool)
    ensures ok <==> IsValidEmail(s)
  {
    if IsValidEmail(s) then ValidEmailIsTrimmed(s); Trim(s) != "" else false
  }

  /**
   Client message rule: the trimmed message is non-empty and at least 10
   UTF-16 code units long. The emptiness test is subsumed by the length test.
   */
  function MessageRule(s: string): (ok: bool)
    ensures ok <==> Utf16Length(Trim(s)) >= ContactRoute.MinMessageLength
  {
    Trim(s) != "" && Utf16Length(Trim(s)) >= ContactRoute.MinMessageLength
  }

  /** `validateForm`: every rule runs; the map holds one hint per failing field. */
  function ValidateForm(f: Form): (errs: map<Field, string>)
    ensures NameField in errs <==> !NameRule(f.name)
    ensures EmailField in errs <==> !EmailRule(f.email)
    ensures MessageField in errs <==> !MessageRule(f.message)
    ensures SubjectField !in errs
    ensures forall k | k in errs :: errs[k] != ""
  {
    var withName := if NameRule(f.name) then map[] else map[NameField := NameHint];
    var withEmail := if EmailRule(f.email) then withName else withName[EmailField := EmailHint];
    if MessageRule(f.message) then withEmail else withEmail[MessageField := MessageHint]
  }

  /** The form is valid iff the error map is empty, iff all three rules hold. */
  lemma ValidFormIffAllRules(f: Form)
    ensures ValidateForm(f) == map[] <==> NameRule(f.name) && EmailRule(f.email) && MessageRule(f.message)
  {
    var errs := ValidateForm(f);
    if !(NameRule(f.name) && EmailRule(f.email) && MessageRule(f.message)) {
      assert errs.Keys != {};
    }
  }

  /** The result of a submit event: the new state and the request body sent, if any. */
  datatype Submitted = Submitted(state: Controller, request: Option<Form>)

  /**
   `handleSubmit` up to the `fetch`: validation replaces the error map;
   an invalid form ends there, a valid one is sent and marks the
   controller as submitting.
   */
  function Submit(c: Controller): (s: Submitted)
    ensures s.state.errors == ValidateForm(c.form)
    ensures s.request.Some? <==> ValidateForm(c.form) == map[]
    ensures s.request.None? ==> s.state == c.(errors := ValidateForm(c.form))
    ensures s.request.Some? ==> s.request.value == c.form && s.state.form == c.form
    ensures s.request.Some? ==> s.state.submitting && s.state.status == Idle
  {
    var errs := ValidateForm(c.form);
    if errs != map[] then Submitted(c.(errors := errs), None)
    else Submitted(c.(errors := errs, submitting := true, status := Idle), Some(c.form))
  }

  /** The submit button is disabled while a request is in flight, so no submit event reaches the handler. */
  function Press(c: Controller): (s: Submitted)
    ensures c.submitting ==> s == Submitted(c, None)
    ensures !c.submitting ==> s == Submit(c)
  {
    if c.submitting then Submitted(c, None) else Submit(c)
  }

  /** How the request ended: a parsed JSON reply, or an exception from `fetch` or `response.json()`. */
  datatype Outcome = Received(data: ContactRoute.Reply) | Threw

  /** `data.error || "Something went wrong"`. */
  function FailureText(data: ContactRoute.Reply): (t: string)
    ensures t != ""
    ensures data.error.Some? && data.error.value != "" ==> t == data.error.value
    ensures data.error.None? || data.error.value == "" ==> t == GenericFailure
  {
    if data.error.Some? && data.error.value != "" then data.error.value else GenericFailure
  }

  /** The rest of `handleSubmit`: the reply (or exception) decides status and message; `finally` clears `isSubmitting`. */
  function Finish(c: Controller, o: Outcome): (d: Controller)
    ensures !d.submitting
    ensures d.status != Idle
    ensures d.errors == c.errors
    ensures d.status == Success <==> o.Received? && o.data.success
    ensures d.status == Success ==> d.form == EmptyForm && d.statusMessage == o.data.message
    ensures d.status == Error ==> d.form == c.form && d.statusMessage.Some? && d.statusMessage.value != ""
    ensures o.Threw? ==> d.statusMessage == Some(NetworkFailure)
    ensures o.Received? && !o.data.success ==> d.statusMessage == Some(FailureText(o.data))
  {
    match o
    case Threw => c.(status := Error, statusMessage := Some(NetworkFailure), submitting := false)
    case Received(data) =>
      if data.success then c.(status := Success, statusMessage := data.message, form := EmptyForm, submitting := false)
      else c.(status := Error, statusMessage := Some(FailureText(data)), submitting := false)
  }

  /**
   `handleChange`: set one field; a (truthy) error on that field is
   cleared. Setting the entry to `undefined` is modelled as removing it.
   */
  function Change(c: Controller, k: Field, v: string): (d: Controller)
    ensures d.form == Set(c.form, k, v)
    ensures k in d.errors ==> k in c.errors && d.errors[k] == c.errors[k] == ""
    ensures forall j | j != k :: (j in d.errors <==> j in c.errors) && (j in c.errors ==> d.errors[j] == c.errors[j])
    ensures d.submitting == c.submitting && d.status == c.status && d.statusMessage == c.statusMessage
  {
    if k in c.errors && c.errors[k] != "" then c.(form := Set(c.form, k, v), errors := c.errors - {k})
    else c.(form := Set(c.form, k, v))
  }

  /** The status banner is rendered exactly when the status is not `idle`. */
  predicate ShowsBanner(c: Controller) {
    c.status != Idle
  }

  /** What every reachable controller satisfies: no error for the subject, and no empty error text. */
  predicate Consistent(c: Controller) {
    SubjectField !in c.errors && forall k | k in c.errors :: c.errors[k] != ""
  }

  /** `Consistent` holds initially and is kept by every event handler. */
  lemma ConsistentInvariant(c: Controller, k: Field, v: string, o: Outcome)
    requires Consistent(c)
    ensures Consistent(Initial)
    ensures Consistent(Press(c).state)
    ensures Consistent(Finish(c, o))
    ensures Consistent(Change(c, k, v))
  {
  }

  /** An invalid form issues no request and changes nothing but the error map. */
  lemma InvalidSubmitOnlySetsErrors(c: Controller)
    requires !(NameRule(c.form.name) && EmailRule(c.form.email) && MessageRule(c.form.message))
    ensures Press(c).request.None?
    ensures var d := Press(c).state;
      d.form == c.form && d.submitting == c.submitting && d.status == c.status && d.statusMessage == c.statusMessage
  {
    ValidFormIffAllRules(c.form);
  }

  /** At most one request is in flight: a second press during a submission sends nothing. */
  lemma NoSecondRequestWhileSubmitting(c: Controller)
    requires !c.submitting && Press(c).request.Some?
    ensures Press(Press(c).state).request.None?
  {
  }

  /** A new submission hides the previous banner until its own outcome arrives, which always shows one. */
  lemma BannerFollowsRequest(c: Controller, o: Outcome)
    requires Press(c).request.Some?
    ensures !ShowsBanner(Press(c).state)
    ensures ShowsBanner(Finish(Press(c).state, o))
  {
  }

  /** Replacing two different fields gives the same form in either order. */
  lemma SetsCommute(f: Form, k: Field, v: string, j: Field, w: string)
    requires j != k
    ensures Set(Set(f, k, v), j, w) == Set(Set(f, j, w), k, v)
  {
  }

  /** Edits to two different fields commute: the order in which they are typed does not matter. */
  lemma EditsCommute(c: Controller, k: Field, v: string, j: Field, w: string)
    requires j != k
    ensures Change(Change(c, k, v), j, w) == Change(Change(c, j, w), k, v)
  {
    SetsCommute(c.form, k, v, j, w);
    var a := Change(Change(c, k, v), j, w);
    var b := Change(Change(c, j, w), k, v);
    assert a.errors == b.errors;
  }
}
