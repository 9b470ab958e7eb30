/**
 The POST handler of the contact route: field checks in the order name,
 email, message; construction of the stored record; and the
 read-append-write of the message file, with every outcome mapped to an
 HTTP status and a JSON reply.

 The clock (`Date.now()`, `new Date().toISOString()`) enters as the
 opaque `id` and `timestamp` arguments; the file system enters as the
 `StoredLog` read before the append and the `writeOk` outcome of the
 write.
 */
module ContactRoute {
  import opened Wrappers
  import opened Text
  import opened Email

  /**
   One field of the parsed request body. `Missing` is `undefined` or
   `null`; `NonString(text)` is any other JSON value that is not a string.
   `text` is `Some(String(v))`, the string `RegExp.test` converts the value
   to, or `None` when that conversion throws: an object whose `toString`
   and `valueOf` are not functions, such as `{"toString": 1}`, or an array
   holding one. (A falsy non-string -- `false`, `0` -- converts to a text
   with no `@`, so the `!email` test of the route needs no separate case.)
   */
  datatype JsValue = Missing | Str(s: string) | NonString(text: Option<string>)

  /**
   The request body. `Unparseable` covers `request.json()` throwing and a
   body of `null`, whose destructuring throws; any other JSON value that
   is not an object destructures to all-`Missing` fields.
   */
  datatype Body =
    | Unparseable
    | Fields(name: JsValue, email: JsValue, subject: JsValue, message: JsValue)

  /** `ContactMessage`: the record stored for one accepted submission. */
  datatype ContactMessage = ContactMessage(
    id: string,
    name: string,
    email: string,
    subject: Option<string>,
    message: string,
    timestamp: string)

  /** The message file as `readFile` followed by `JSON.parse` finds it. */
  datatype StoredLog =
    | NoFile                              // readFile throws: nothing written yet
    | Corrupt                             // JSON.parse throws
    | NotAnArray                          // parses, to a value that has no `push`
    | Entries(items: seq<ContactMessage>)

  /** The JSON reply: `{success, message}` or `{success, error}`. */
  datatype Reply = Reply(success: bool, message: Option<string>, error: Option<string>)

  datatype Response = Response(status: int, body: Reply)

  /** A handled request: the response sent, and the message file afterwards. */
  datatype Handled = Handled(response: Response, log: StoredLog)

  datatype Rejection = NameTooShort | InvalidEmail | MessageTooShort

  const MinNameLength := 2
  const MinMessageLength := 10

  const NameErrorText := "Name must be at least 2 characters"
  const EmailErrorText := "Please provide a valid email address"
  const MessageErrorText := "Message must be at least 10 characters"
  const ThanksText := "Thank you for your message! I'll get back to you soon."
  const ServerErrorText := "Failed to send message. Please try again."

  /** Every error text the route can send. */
  const ErrorTexts := {NameErrorText, EmailErrorText, MessageErrorText, ServerErrorText}

  function RejectionText(r: Rejection): string {
    match r
    case NameTooShort => NameErrorText
    case InvalidEmail => EmailErrorText
    case MessageTooShort => MessageErrorText
  }

  /**
   The name check: a string whose trimmed length, in UTF-16 code units, is
   at least 2. A trimmed name of two characters always passes; one that
   passes has at least one character.
   */
  function NameOk(v: JsValue): (ok: bool)
    ensures ok ==> v.Str? && |Trim(v.s)| >= 1
    ensures v.Str? && |Trim(v.s)| >= MinNameLength ==> ok
  {
    v.Str? && Utf16Length(Trim(v.s)) >= MinNameLength
  }

  /** Whether the route's email test throws: `RegExp.test` cannot convert the value to a string. */
  predicate EmailCheckThrows(v: JsValue) {
    v.NonString? && v.text.None?
  }

  /**
   The email check as the route writes it: a present value whose string
   conversion is address-shaped. Where the conversion throws there is no
   verdict; the value is `false` there and the handler answers 500.
   */
  function EmailOkAsWritten(v: JsValue): (ok: bool)
    ensures ok ==> !v.Missing? && !EmailCheckThrows(v)
    ensures v.Str? ==> (ok <==> IsValidEmail(v.s))
  {
    match v
    case Missing => false
    case Str(s) => IsValidEmail(s)
    case NonString(t) => t.Some? && IsValidEmail(t.value)
  }

  /** The email check with the string-type test the name and message checks carry. */
  function EmailOk(v: JsValue): (ok: bool)
    ensures ok <==> v.Str? && EmailOkAsWritten(v)
    ensures ok ==> Trim(v.s) == v.s
  {
    if v.Str? && IsValidEmail(v.s) then ValidEmailIsTrimmed(v.s); true else false
  }

  /**
   The message check: a string whose trimmed length, in UTF-16 code units,
   is at least 10. A trimmed message of ten characters always passes; one
   that passes has at least five.
   */
  function MessageOk(v: JsValue): (ok: bool)
    ensures ok ==> v.Str? && |Trim(v.s)| >= 5
    ensures v.Str? && |Trim(v.s)| >= MinMessageLength ==> ok
  {
    v.Str? && Utf16Length(Trim(v.s)) >= MinMessageLength
  }

  /** The three checks in order name, email, message: the first that fails decides. */
  function FirstFailure(nameOk: bool, emailOk: bool, messageOk: bool): Option<Rejection> {
    if !nameOk then Some(NameTooShort)
    else if !emailOk then Some(InvalidEmail)
    else if !messageOk then Some(MessageTooShort)
    else None
  }

  /** The route's validation, with the corrected email check. */
  function Validate(name: JsValue, email: JsValue, message: JsValue): (r: Option<Rejection>)
    ensures r.None? <==> NameOk(name) && EmailOk(email) && MessageOk(message)
    ensures r == Some(NameTooShort) <==> !NameOk(name)
    ensures r == Some(InvalidEmail) <==> NameOk(name) && !EmailOk(email)
    ensures r == Some(MessageTooShort) <==> NameOk(name) && EmailOk(email) && !MessageOk(message)
  {
    FirstFailure(NameOk(name), EmailOk(email), MessageOk(message))
  }

  /** The route's validation as written. */
  function ValidateAsWritten(name: JsValue, email: JsValue, message: JsValue): (r: Option<Rejection>)
    ensures r.None? <==> NameOk(name) && EmailOkAsWritten(email) && MessageOk(message)
    ensures r == Some(NameTooShort) <==> !NameOk(name)
    ensures r == Some(InvalidEmail) <==> NameOk(name) && !EmailOkAsWritten(email)
  {
    FirstFailure(NameOk(name), EmailOkAsWritten(email), MessageOk(message))
  }

  /**
   Whitespace around a name or a message never changes its check, since
   the length is taken after trimming; whitespace around an email always
   fails it, since the test runs on the untrimmed value.
   */
  lemma ChecksAndPadding(t: string, pre: string, post: string)
    requires IsTrimmed(t) && AllWhitespace(pre) && AllWhitespace(post)
    ensures NameOk(Str(pre + t + post)) <==> NameOk(Str(t))
    ensures MessageOk(Str(pre + t + post)) <==> MessageOk(Str(t))
    ensures pre + post != "" ==> !EmailOk(Str(pre + t + post))
  {
    TrimPadded(pre, t, post);
    TrimKeepsTrimmed(t);
    if pre != "" {
      PaddedEmailRejected(t + post, pre);
      assert pre + t + post == pre + (t + post);
    } else if post != "" {
      PaddedEmailRejected(pre + t, post);
    }
  }

  /**
   `subject?.trim() || undefined`: the trimmed subject, absent when empty
   or missing. The outer `None` is the `TypeError` a non-string subject
   raises.
   */
  function NormalizeSubject(v: JsValue): (r: Option<Option<string>>)
    ensures r.None? <==> v.NonString?
    ensures r == Some(None) <==> v.Missing? || (v.Str? && Trim(v.s) == "")
    ensures r.Some? && r.value.Some? ==> v.Str? && r.value.value == Trim(v.s) != ""
  {
    match v
    case Missing => Some(None)
    case Str(s) => if Trim(s) == "" then Some(None) else Some(Some(Trim(s)))
    case NonString(_) => None
  }

  /** What every stored record satisfies. */
  predicate WellFormed(m: ContactMessage) {
    && IsTrimmed(m.name) && Utf16Length(m.name) >= MinNameLength
    && IsValidEmail(m.email) && (forall i | 0 <= i < |m.email| :: !IsAsciiUpper(m.email[i]))
    && (m.subject.Some? ==> m.subject.value != "" && IsTrimmed(m.subject.value))
    && IsTrimmed(m.message) && Utf16Length(m.message) >= MinMessageLength
  }

  /** The messages read before the append: an absent or unparseable file counts as none. */
  function Prior(stored: StoredLog): seq<ContactMessage> {
    if stored.Entries? then stored.items else []
  }

  /** The catch-all branch: status 500, a fixed text, the file as it was. */
  function Failed(stored: StoredLog): Handled {
    Handled(Response(500, Reply(false, None, Some(ServerErrorText))), stored)
  }

  function Rejected(why: Rejection, stored: StoredLog): Handled {
    Handled(Response(400, Reply(false, None, Some(RejectionText(why)))), stored)
  }

  /** Whether the fields that passed validation are strings the record can be built from. */
  predicate Checked(b: Body) {
    b.Fields? && b.name.Str? && b.message.Str?
  }

  /** Whether a checked request is stored: string email and usable subject, and a file that can be appended to and written. */
  predicate Storable(b: Body, stored: StoredLog, writeOk: bool) {
    b.Fields? && b.email.Str? && !b.subject.NonString? && !stored.NotAnArray? && writeOk
  }

  /**
   The `ContactMessage` built from an accepted request: every text is
   trimmed, the email holds no upper-case letter, and a subject, when kept,
   is not empty.
   */
  function Record(b: Body, id: string, timestamp: string): (m: ContactMessage)
    requires Checked(b) && b.email.Str? && !b.subject.NonString?
    ensures m.id == id && m.timestamp == timestamp
    ensures IsTrimmed(m.name) && IsTrimmed(m.message)
    ensures |m.email| == |Trim(b.email.s)| && forall i | 0 <= i < |m.email| :: !IsAsciiUpper(m.email[i])
    ensures m.subject.Some? ==> m.subject.value != "" && IsTrimmed(m.subject.value)
  {
    ContactMessage(id, Trim(b.name.s), ToLower(Trim(b.email.s)), NormalizeSubject(b.subject).value,
                   Trim(b.message.s), timestamp)
  }

  /**
   Everything after validation: build the record (where `email.trim()` and
   `subject?.trim()` throw on non-strings), append it to the messages read
   (where `push` throws on a non-array) and write the file back.
   */
  function Persist(b: Body, stored: StoredLog, id: string, timestamp: string, writeOk: bool): (h: Handled)
    requires Checked(b)
    ensures h.response.status == 200 || h.response.status == 500
    ensures h.response.status == 200 <==> Storable(b, stored, writeOk)
    ensures h.response.status == 200 ==> h.log.Entries? && h.log.items == Prior(stored) + [Record(b, id, timestamp)]
    ensures h.response.status == 500 ==> h.log == stored && h.response.body == Reply(false, None, Some(ServerErrorText))
  {
    if !Storable(b, stored, writeOk) then Failed(stored)
    else Handled(Response(200, Reply(true, Some(ThanksText), None)), Entries(Prior(stored) + [Record(b, id, timestamp)]))
  }

  /** `POST`, with the corrected email check. */
  function Post(b: Body, stored: StoredLog, id: string, timestamp: string, writeOk: bool): (h: Handled)
    ensures h.response.status == 200 || h.response.status == 400 || h.response.status == 500
    ensures h.response.body.success <==> h.response.status == 200
    ensures h.response.status == 400 <==> b.Fields? && Validate(b.name, b.email, b.message).Some?
    ensures h.response.status == 400 ==> h.response.body.error == Some(RejectionText(Validate(b.name, b.email, b.message).value))
    ensures h.response.status == 200 <==> b.Fields? && Validate(b.name, b.email, b.message).None? && Storable(b, stored, writeOk)
    ensures h.response.status == 200 ==> h.response.body == Reply(true, Some(ThanksText), None)
    ensures h.response.status == 200 ==> h.log == Entries(Prior(stored) + [Record(b, id, timestamp)])
    ensures h.response.status != 200 ==> h.log == stored
    ensures h.response.status != 200 ==> h.response.body.message.None? && h.response.body.error.Some?
    ensures h.response.status != 200 ==> h.response.body.error.value in ErrorTexts
    ensures h.response.status == 500 ==> h.response.body.error == Some(ServerErrorText)
  {
    match b
    case Unparseable => Failed(stored)
    case Fields(name, email, subject, message) =>
      match Validate(name, email, message)
      case Some(why) => Rejected(why, stored)
      case None => Persist(b, stored, id, timestamp, writeOk)
  }

  /**
   `POST` as written: the email check accepts a non-string whose string
   conversion is address-shaped, and throws, once the name has passed, on
   a value that cannot be converted.
   */
  function PostAsWritten(b: Body, stored: StoredLog, id: string, timestamp: string, writeOk: bool): (h: Handled)
    ensures h.response.status == 200 || h.response.status == 400 || h.response.status == 500
    ensures h.response.status == 400
      <==> b.Fields? && ValidateAsWritten(b.name, b.email, b.message).Some? && !(NameOk(b.name) && EmailCheckThrows(b.email))
    ensures h.response.status == 500 ==> h.response.body.error == Some(ServerErrorText)
    ensures h.response.status != 200 ==> h.log == stored
  {
    match b
    case Unparseable => Failed(stored)
    case Fields(name, email, subject, message) =>
      if NameOk(name) && EmailCheckThrows(email) then Failed(stored)
      else match ValidateAsWritten(name, email, message)
      case Some(why) => Rejected(why, stored)
      case None => Persist(b, stored, id, timestamp, writeOk)
  }

  /**
   On success the file holds the messages read before plus exactly one new
   record, built from the trimmed name and message, the lower-cased email
   and the normalised subject.
   */
  lemma PostAppendsOne(b: Body, stored: StoredLog, id: string, timestamp: string, writeOk: bool)
    requires Post(b, stored, id, timestamp, writeOk).response.status == 200
    ensures var log := Post(b, stored, id, timestamp, writeOk).log;
      && log.Entries?
      && |log.items| == |Prior(stored)| + 1
      && log.items[..|Prior(stored)|] == Prior(stored)
      && var m := log.items[|Prior(stored)|];
      && m.id == id && m.timestamp == timestamp
      && m.name == Trim(b.name.s) && m.email == ToLower(b.email.s) && m.message == Trim(b.message.s)
      && m.subject == NormalizeSubject(b.subject).value
      && WellFormed(m)
  {
    var m := Record(b, id, timestamp);
    var e := b.email.s;
    ValidEmailIsTrimmed(e);
    ToLowerPreservesEmail(e);
    assert WellFormed(m);
    assert (Prior(stored) + [m])[..|Prior(stored)|] == Prior(stored);
  }

  /** An empty or missing file is replaced by a one-record log. */
  lemma PostStartsFreshLog(b: Body, stored: StoredLog, id: string, timestamp: string, writeOk: bool)
    requires stored.NoFile? || stored.Corrupt?
    requires Post(b, stored, id, timestamp, writeOk).response.status == 200
    ensures var log := Post(b, stored, id, timestamp, writeOk).log;
      log.Entries? && |log.items| == 1
  {
  }

  /** Every record in the file being well formed is an invariant of `Post`. */
  lemma PostPreservesWellFormed(b: Body, stored: StoredLog, id: string, timestamp: string, writeOk: bool)
    requires stored.Entries? ==> forall i | 0 <= i < |stored.items| :: WellFormed(stored.items[i])
    ensures var log := Post(b, stored, id, timestamp, writeOk).log;
      log.Entries? ==> forall i | 0 <= i < |log.items| :: WellFormed(log.items[i])
  {
    var h := Post(b, stored, id, timestamp, writeOk);
    if h.response.status == 200 {
      PostAppendsOne(b, stored, id, timestamp, writeOk);
    }
  }

  /** The fields of a stored record, as the form would send them again. */
  function Resubmission(m: ContactMessage): Body {
    Fields(Str(m.name), Str(m.email), if m.subject.Some? then Str(m.subject.value) else Missing, Str(m.message))
  }

  /**
   Normalisation is idempotent: posting a stored record's fields again is
   accepted and stores the same record, up to the new id and timestamp.
   */
  lemma ResubmissionRoundTrip(m: ContactMessage, stored: StoredLog, id: string, timestamp: string)
    requires WellFormed(m)
    requires !stored.NotAnArray?
    ensures var h := Post(Resubmission(m), stored, id, timestamp, true);
      && h.response.status == 200
      && h.log == Entries(Prior(stored) + [m.(id := id, timestamp := timestamp)])
  {
    var b := Resubmission(m);
    TrimKeepsTrimmed(m.name);
    TrimKeepsTrimmed(m.message);
    ValidEmailIsTrimmed(m.email);
    ToLowerFixesLower(m.email);
    assert Validate(b.name, b.email, b.message).None?;
    if m.subject.Some? {
      TrimKeepsTrimmed(m.subject.value);
      assert NormalizeSubject(b.subject) == Some(m.subject);
    }
    assert Record(b, id, timestamp) == m.(id := id, timestamp := timestamp);
  }

  /** The corrected check answers every non-string email with the email error, never with status 500. */
  lemma NonStringEmailRejected(name: JsValue, text: Option<string>, subject: JsValue, message: JsValue,
                               stored: StoredLog, id: string, timestamp: string, writeOk: bool)
    requires NameOk(name)
    ensures Post(Fields(name, NonString(text), subject, message), stored, id, timestamp, writeOk)
         == Handled(Response(400, Reply(false, None, Some(EmailErrorText))), stored)
  {
    var v := Validate(name, NonString(text), message);
    assert v == Some(InvalidEmail);
    assert Post(Fields(name, NonString(text), subject, message), stored, id, timestamp, writeOk) == Rejected(InvalidEmail, stored);
  }

  /** For string emails the route as written and the corrected route give the same answer. */
  lemma AsWrittenAgreesOnStringEmails(b: Body, stored: StoredLog, id: string, timestamp: string, writeOk: bool)
    requires b.Fields? ==> !b.email.NonString?
    ensures PostAsWritten(b, stored, id, timestamp, writeOk) == Post(b, stored, id, timestamp, writeOk)
  {
  }

  const SampleMessage := "Hello there, checking in."

  /** The name "Jo" and the sample message pass their checks. */
  lemma SampleFieldsPass()
    ensures NameOk(Str("Jo")) && MessageOk(Str(SampleMessage))
  {
    TrimKeepsTrimmed("Jo");
    TrimKeepsTrimmed(SampleMessage);
  }

  /**
   The route as written answers 500 to a non-string email after a passing
   name in two ways: a value whose string conversion is address-shaped (an
   array holding one address, say) passes the email check and then fails
   on `email.trim()`; a value that cannot be converted makes the check
   itself throw.
   */
  lemma AsWrittenCrashesOnNonStringEmail(name: JsValue, text: Option<string>, subject: JsValue, message: JsValue,
                                         stored: StoredLog, id: string, timestamp: string, writeOk: bool)
    requires NameOk(name)
    requires text.None? || (IsValidEmail(text.value) && MessageOk(message))
    ensures PostAsWritten(Fields(name, NonString(text), subject, message), stored, id, timestamp, writeOk) == Failed(stored)
  {
  }

  /** The concrete request `{name: "Jo", email: ["a@b.co"], message: ...}`: status 500 as written, 400 once corrected. */
  lemma ArrayEmailExample(stored: StoredLog, id: string, timestamp: string, writeOk: bool)
    ensures var b := Fields(Str("Jo"), NonString(Some("a@b.co")), Missing, Str(SampleMessage));
      && PostAsWritten(b, stored, id, timestamp, writeOk).response.status == 500
      && Post(b, stored, id, timestamp, writeOk).response.status == 400
  {
    SampleFieldsPass();
    AcceptsPlainAddress();
    AsWrittenCrashesOnNonStringEmail(Str("Jo"), Some("a@b.co"), Missing, Str(SampleMessage), stored, id, timestamp, writeOk);
    NonStringEmailRejected(Str("Jo"), Some("a@b.co"), Missing, Str(SampleMessage), stored, id, timestamp, writeOk);
  }

  /** The concrete request `{name: "Jo", email: {"toString": 1}}`: status 500 as written, 400 once corrected, whatever the message. */
  lemma UnconvertibleEmailExample(message: JsValue, stored: StoredLog, id: string, timestamp: string, writeOk: bool)
    ensures var b := Fields(Str("Jo"), NonString(None), Missing, message);
      && PostAsWritten(b, stored, id, timestamp, writeOk).response.status == 500
      && Post(b, stored, id, timestamp, writeOk).response.status == 400
  {
  }

  /** A one-letter name is refused with the name error and nothing is stored, whatever the other fields hold. */
  lemma ShortNameRejected(email: JsValue, subject: JsValue, message: JsValue,
                          stored: StoredLog, id: string, timestamp: string, writeOk: bool)
    ensures Post(Fields(Str("J"), email, subject, message), stored, id, timestamp, writeOk)
         == Handled(Response(400, Reply(false, None, Some(NameErrorText))), stored)
  {
    TrimKeepsTrimmed("J");
    Utf16LengthBmp("J");
  }
}
