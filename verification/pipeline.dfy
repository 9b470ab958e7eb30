/**
 The contact page and the contact route together: the body the page sends
 is its form serialised as JSON, so every field reaches the route as a
 string. On such bodies the page's three rules and the route's three
 checks accept the same forms, and a submission the page lets through is
 stored and acknowledged.
 */
module Pipeline {
  import opened Wrappers
  import opened Text
  import opened Email
  import opened ContactRoute
  import opened ContactForm

  /**
   `JSON.stringify(formData)` as the route reads it back: four strings. A
   body the page sends never makes the route's record construction throw.
   */
  function Wire(f: Form): (b: Body)
    ensures Checked(b) && b.email.Str? && NormalizeSubject(b.subject).Some?
    ensures !EmailCheckThrows(b.email)
  {
    Fields(Str(f.name), Str(f.email), Str(f.subject), Str(f.message))
  }

  /**
   The bodies the page sends have a string email, so the route as written
   and the corrected route answer them alike: every lemma below about
   `Post` holds of the handler as written.
   */
  lemma WireAsWrittenAgrees(f: Form, stored: StoredLog, id: string, timestamp: string, writeOk: bool)
    ensures PostAsWritten(Wire(f), stored, id, timestamp, writeOk) == Post(Wire(f), stored, id, timestamp, writeOk)
  {
    AsWrittenAgreesOnStringEmails(Wire(f), stored, id, timestamp, writeOk);
  }

  /** Each page rule accepts exactly the strings the matching route check accepts. */
  lemma RulesAgree(s: string)
    ensures NameRule(s) <==> NameOk(Str(s))
    ensures EmailRule(s) <==> EmailOk(Str(s))
    ensures MessageRule(s) <==> MessageOk(Str(s))
  {
  }

  /**
   The page accepts a form exactly when the route accepts its body, and a
   route rejection names the first field the page flags.
   */
  lemma ClientServerAgree(f: Form)
    ensures ValidateForm(f) == map[] <==> Validate(Str(f.name), Str(f.email), Str(f.message)).None?
    ensures Validate(Str(f.name), Str(f.email), Str(f.message)) == Some(NameTooShort) <==> NameField in ValidateForm(f)
    ensures Validate(Str(f.name), Str(f.email), Str(f.message)) == Some(InvalidEmail)
      <==> NameField !in ValidateForm(f) && EmailField in ValidateForm(f)
    ensures Validate(Str(f.name), Str(f.email), Str(f.message)) == Some(MessageTooShort)
      <==> NameField !in ValidateForm(f) && EmailField !in ValidateForm(f) && MessageField in ValidateForm(f)
  {
  }

  /**
   A press the page lets through, against a readable (or absent) log and
   a write that succeeds: the route answers 200, the log gains exactly the
   normalised record, and the page shows the thank-you text with its
   fields cleared.
   */
  lemma AcceptedSubmission(c: Controller, stored: StoredLog, id: string, timestamp: string)
    requires Press(c).request.Some?
    requires !stored.NotAnArray?
    ensures var h := Post(Wire(c.form), stored, id, timestamp, true);
      && h.response.status == 200
      && h.log.Entries?
      && |h.log.items| == |Prior(stored)| + 1
      && h.log.items[..|Prior(stored)|] == Prior(stored)
      && WellFormed(h.log.items[|Prior(stored)|])
    ensures var h := Post(Wire(c.form), stored, id, timestamp, true);
      var d := Finish(Press(c).state, Received(h.response.body));
      d.status == Success && d.statusMessage == Some(ThanksText) && d.form == EmptyForm && !d.submitting
  {
    ClientServerAgree(c.form);
    PostAppendsOne(Wire(c.form), stored, id, timestamp, true);
  }

  /** Whatever the route rejects, the page shows the route's own error text and keeps the fields. */
  lemma RejectionShown(c: Controller, b: Body, stored: StoredLog, id: string, timestamp: string, writeOk: bool)
    requires Post(b, stored, id, timestamp, writeOk).response.status != 200
    ensures var h := Post(b, stored, id, timestamp, writeOk);
      var d := Finish(c, Received(h.response.body));
      d.status == Error && d.statusMessage == h.response.body.error && d.form == c.form
  {
  }

  const SampleForm := Form("Jo", "jo@example.com", "", SampleMessage)

  /** The sample form passes all three route checks. */
  lemma SampleValidates()
    ensures Validate(Wire(SampleForm).name, Wire(SampleForm).email, Wire(SampleForm).message).None?
  {
    SampleFieldsPass();
    AcceptsDottedDomain();
  }

  /** The sample form is stored as sent, without a subject. */
  lemma SampleRecord(id: string, timestamp: string)
    ensures Record(Wire(SampleForm), id, timestamp) == ContactMessage(id, "Jo", "jo@example.com", None, SampleMessage, timestamp)
  {
    var b := Wire(SampleForm);
    assert Trim("Jo") == "Jo" && Trim(SampleMessage) == SampleMessage by {
      TrimKeepsTrimmed("Jo");
      TrimKeepsTrimmed(SampleMessage);
    }
    assert NormalizeSubject(b.subject) == Some(None) by {
      assert Trim("") == "";
    }
    DottedDomainIsNormal();
  }

  /** The accepted sample: name "Jo", a plain address and a 25-character message is stored as sent. */
  lemma SampleAccepted(stored: StoredLog, id: string, timestamp: string)
    requires !stored.NotAnArray?
    ensures var h := Post(Wire(SampleForm), stored, id, timestamp, true);
      h.response == Response(200, Reply(true, Some(ThanksText), None))
      && h.log == Entries(Prior(stored) + [ContactMessage(id, "Jo", "jo@example.com", None, SampleMessage, timestamp)])
  {
    SampleValidates();
    SampleRecord(id, timestamp);
  }

  /** The rejected sample: a one-letter name is refused before anything else is looked at, and nothing is stored. */
  lemma SampleRejected(stored: StoredLog, id: string, timestamp: string, writeOk: bool)
    ensures var h := Post(Wire(Form("J", "jo@example.com", "", "Hi")), stored, id, timestamp, writeOk);
      h.response == Response(400, Reply(false, None, Some(NameErrorText))) && h.log == stored
  {
    ShortNameRejected(Str("jo@example.com"), Str(""), Str("Hi"), stored, id, timestamp, writeOk);
  }
}
