# Portfolio site: contact pipeline, project list, skill labels, footer links

A Dafny model of the logic in a Next.js portfolio site. Most of the site is
layout and animation. The logic modelled here is:

- **The contact route** (`POST /api/contact`):
  - an address-shape test, `/^[^\s@]+@[^\s@]+\.[^\s@]+$/`;
  - checks run in the order name, email, message, and the first failure
    answers 400 with that check's fixed text;
  - the record an accepted submission is normalised into (trimmed name and
    message, lower-cased email, subject dropped when blank);
  - the read-append-write of the message file, where a missing or
    unparseable file counts as empty;
  - every thrown error becomes 500 with one fixed text.
- **The contact page**: a form controller with four fields, a per-field
  error map, an `isSubmitting` flag and an idle/success/error status.
  - It runs the same three rules, all of them rather than stopping at the
    first failure.
  - It sends a request only for a valid form, and only while no request is
    in flight.
  - It clears the form after a success and keeps it after a failure.
- **The two together**: the page sends its fields as JSON strings. On such
  bodies the page's `validateForm` and the route's checks accept exactly
  the same forms, and the route's rejection names the first field the page
  flags. The browser's own check of the `type="email"` input, which runs
  before `validateForm`, is not modelled (see "## Left out").
- **The projects page**:
  - the first featured project;
  - the category-tab filter, which keeps order;
  - the grid, which sets the featured project aside only on the "all" tab;
  - the condition for showing the featured card;
  - the "codes" tab, which lists nothing for projects whose category is one
    of the five `Project.category` ids;
  - four technology chips per card, then a "+N" badge.
- **The about page**: skill levels mapped to four labels by the thresholds
  90/80/60, and brand colours with a violet default.
- **The footer**: social links whose href starts with `mailto:`, `tel:` or
  `/` stay in the tab. Every other link gets both `target="_blank"` and
  `rel="noopener noreferrer"`.

Modules:

- `Wrappers`: `Option`.
- `Text`: JavaScript's whitespace class, `trim`, `toLowerCase`, UTF-16
  `length`, `startsWith`.
- `Email`: the address-shape test.
- `ContactRoute`: the POST handler.
- `ContactForm`: the page controller.
- `Pipeline`: the page and the route together.
- `Projects`, `Skills` and `Footer`: the three other pages' logic.

The route's environment is passed in as parameters:

- The clock becomes the opaque `id` and `timestamp` arguments.
- Reading the message file becomes a `StoredLog` value: no file, corrupt,
  not an array, or a list of records.
- The write becomes a `writeOk` flag.
- The page's network round trip becomes an `Outcome`: a parsed reply, or a
  thrown error.

Three facts about the code shape the model:

- **The email is matched untrimmed** (`src/app/api/contact/route.ts:33`), so
  an address with surrounding blanks such as `" a@b.co "` is rejected
  (`Email.RejectsPaddedAddress`).
- **Editing a field does not reset the status banner**
  (`src/app/contact/page.tsx:179-187`).
- **There is no email-dispatch path in the code.** Only the file log is
  modelled.

## Model

| member | source | states |
|---|---|---|
| Text.Trim | src/app/api/contact/route.ts:50 | `trim` returns a string with no whitespace at either end, no longer than its input |
| Text.TrimCharacterization | src/app/api/contact/route.ts:50 | `trim(s) == t` exactly when `t` is trimmed and `s` is `t` with only whitespace around it |
| Text.TrimPadded | src/app/api/contact/route.ts:50 | whitespace added around a trimmed string is exactly what `trim` removes again |
| Text.TrimKeepsTrimmed | src/app/api/contact/route.ts:50-53 | a string with no whitespace at its ends is its own `trim` |
| Text.TrimIdempotent | src/app/api/contact/route.ts:50-53 | trimming twice is trimming once |
| Text.ToLower | src/app/api/contact/route.ts:51 | lowering keeps the length and leaves no upper-case letter: each upper-case ASCII letter becomes its lower-case form and every other character is kept |
| Text.ToLowerFixesLower | src/app/api/contact/route.ts:51 | a string with no upper-case letter is unchanged by lowering, so lowering is idempotent |
| Text.Utf16Length | src/app/api/contact/route.ts:26 | JavaScript's `length` lies between the number of code points and twice that |
| Text.Utf16LengthBmp | src/app/api/contact/route.ts:26 | on the Basic Multilingual Plane, `length` is the number of characters |
| Text.StartsWithConcat | src/components/layout/footer.tsx:84 | `startsWith(p)` holds exactly when the string is `p` followed by something |
| Email.IsValidEmail | src/app/api/contact/route.ts:15-18 | an accepted address has at least five characters and exactly one `@` |
| Email.IndexOf | src/app/api/contact/route.ts:16 | finds the first `@`, and finds none exactly when there is none |
| Email.IsValidEmailMatchesPattern | src/app/api/contact/route.ts:15-18 | the test accepts exactly the strings the regular expression matches: a non-empty run, `@`, a non-empty run, `.`, a non-empty run, with no whitespace or `@` in any run |
| Email.EmailDecomposition | src/app/api/contact/route.ts:15-18 | `L@D` is accepted exactly when `L` is a non-empty run without whitespace or `@`, and `D` has none either and contains a `.` that is neither first nor last |
| Email.ValidEmailHasNoWhitespace | src/app/api/contact/route.ts:16 | an accepted address contains no whitespace anywhere |
| Email.ValidEmailIsTrimmed | src/app/api/contact/route.ts:51 | the `trim` the route applies to an accepted address changes nothing |
| Email.PaddedEmailRejected | src/app/api/contact/route.ts:33 | since the test runs on the untrimmed value, leading or trailing whitespace makes any address fail |
| Email.ToLowerPreservesEmail | src/app/api/contact/route.ts:51 | lower-casing never changes whether a string is address-shaped, so the stored email still passes the test |
| Email.AcceptsPlainAddress | src/app/api/contact/route.ts:16 | `a@b.co` is accepted |
| Email.AcceptsDottedDomain | src/app/api/contact/route.ts:16 | `jo@example.com` is accepted |
| Email.DottedDomainIsNormal | src/app/api/contact/route.ts:51 | `jo@example.com` is stored unchanged |
| Email.RejectsDotlessDomain | src/app/api/contact/route.ts:16 | `a@b` is rejected |
| Email.RejectsMissingAt | src/app/api/contact/route.ts:16 | `not-an-email` is rejected |
| Email.RejectsPaddedAddress | src/app/api/contact/route.ts:33 | ` a@b.co ` is rejected |
| ContactRoute.Validate | src/app/api/contact/route.ts:26-45 | with the corrected email guard (see "## Findings"): the name check alone decides a name failure; an email failure needs a passing name; a message failure needs both earlier checks to pass; none fails exactly when all three pass |
| ContactRoute.ValidateAsWritten | src/app/api/contact/route.ts:26-45 | the same order with the email guard as written, which accepts any present value whose string form is address-shaped |
| ContactRoute.NameOk | src/app/api/contact/route.ts:26 | only a string can pass; a passing name has at least one character after trimming, and any string with at least two characters after trimming passes |
| ContactRoute.EmailOkAsWritten | src/app/api/contact/route.ts:15-33 | a passing value is present and convertible to a string; on a string the verdict is the address-shape test |
| ContactRoute.EmailOk | src/app/api/contact/route.ts:33 | the corrected guard passes exactly the strings the guard as written passes, and a passing email is its own trim |
| ContactRoute.MessageOk | src/app/api/contact/route.ts:40 | only a string can pass; a passing message has at least five characters after trimming, and any string with at least ten characters after trimming passes |
| ContactRoute.ChecksAndPadding | src/app/api/contact/route.ts:26-45 | whitespace around a name or a message never changes its check; whitespace around an email always fails it |
| ContactRoute.NormalizeSubject | src/app/api/contact/route.ts:52 | the subject is dropped when absent or blank and otherwise trimmed; a non-string subject makes the handler throw |
| ContactRoute.Post | src/app/api/contact/route.ts:20-88 | with the corrected email guard (see "## Findings"): the status is 200, 400 or 500, and `success` is set exactly on 200; 400 comes exactly from a failed check and carries its text; 200 comes exactly when all checks pass and the record can be stored, with the thank-you text; on 200 the file becomes the prior messages plus the record; on any other status the file is unchanged and the error is one of the fixed texts; a 500 always carries the retry text "Failed to send message. Please try again." |
| ContactRoute.PostAsWritten | src/app/api/contact/route.ts:20-88 | the handler with the email guard as written: same statuses; 400 exactly on a failed check, except that an email whose string conversion throws after a passing name gives 500; a 500 carries the retry text; the file unchanged unless 200 |
| ContactRoute.Record | src/app/api/contact/route.ts:48-55 | the record carries the given id and timestamp, a trimmed name and message, an email with no upper-case letter and as long as the trimmed input, and a subject that is non-empty and trimmed when kept |
| ContactRoute.Persist | src/app/api/contact/route.ts:47-86 | after validation the answer is 200 or 500; 200 exactly when the email is a string, the subject usable, the file appendable and the write succeeds, and then the file is the prior messages plus the record; on 500 the file is unchanged and the reply is the retry text |
| ContactRoute.PostAppendsOne | src/app/api/contact/route.ts:47-75 | on success the file grows by exactly one record, the earlier records are kept in order, and the new record has the trimmed name and message, the lower-cased email, the normalised subject, the given id and timestamp, and is well formed |
| ContactRoute.PostStartsFreshLog | src/app/api/contact/route.ts:65-73 | a missing or unparseable file is replaced by a one-record log |
| ContactRoute.PostPreservesWellFormed | src/app/api/contact/route.ts:48-75 | if every stored record is well formed before a request, every stored record is well formed after it |
| ContactRoute.ResubmissionRoundTrip | src/app/api/contact/route.ts:48-55 | normalisation is idempotent: posting a stored record's fields again is accepted and stores the same record with the new id and timestamp |
| ContactRoute.NonStringEmailRejected | src/app/api/contact/route.ts:33-38 | with the string-type test, a non-string email is answered 400 with the email text and nothing is stored |
| ContactRoute.AsWrittenAgreesOnStringEmails | src/app/api/contact/route.ts:33 | the guard as written and the corrected guard give the same answer whenever the email is a string or absent |
| ContactRoute.SampleFieldsPass | src/app/api/contact/route.ts:26-45 | the name "Jo" and the 25-character sample message pass their checks |
| ContactRoute.AsWrittenCrashesOnNonStringEmail | src/app/api/contact/route.ts:33-51 | as written, after a passing name, a non-string email ends in status 500: one whose string form is address-shaped passes the check and fails at `trim`, and one that cannot be converted makes the check throw |
| ContactRoute.ArrayEmailExample | src/app/api/contact/route.ts:33-51 | an email sent as the array `["a@b.co"]` gives 500 as written and 400 once corrected |
| ContactRoute.UnconvertibleEmailExample | src/app/api/contact/route.ts:33-86 | an email sent as `{"toString": 1}` gives 500 as written, whatever the message, and 400 once corrected |
| ContactRoute.ShortNameRejected | src/app/api/contact/route.ts:26-31 | a one-letter name gets 400 with the name text and nothing is stored, whatever the other fields hold |
| ContactForm.Set | src/app/contact/page.tsx:183 | the edited field takes the new value and every other field keeps its own |
| ContactForm.NameRule | src/app/contact/page.tsx:129-131 | the name passes exactly when its trimmed length is at least 2; the emptiness test adds nothing |
| ContactForm.EmailRule | src/app/contact/page.tsx:133-136 | the email passes exactly when it is address-shaped; the emptiness test adds nothing |
| ContactForm.MessageRule | src/app/contact/page.tsx:138-140 | the message passes exactly when its trimmed length is at least 10; the emptiness test adds nothing |
| ContactForm.ValidateForm | src/app/contact/page.tsx:126-144 | each rule is checked independently: a field has an entry exactly when its rule fails, the subject never has one, and every entry is a non-empty hint |
| ContactForm.ValidFormIffAllRules | src/app/contact/page.tsx:126-144 | the error map is empty exactly when all three rules hold |
| ContactForm.Submit | src/app/contact/page.tsx:146-152 | the error map is replaced by the new validation; a request is sent exactly when the form is valid, and then carries the form, sets `isSubmitting` and hides the banner; otherwise only the errors change |
| ContactForm.Press | src/app/contact/page.tsx:423 | while a request is in flight the disabled button sends nothing and changes nothing |
| ContactForm.FailureText | src/app/contact/page.tsx:169 | the reply's error text when it is present and non-empty, otherwise "Something went wrong"; never empty |
| ContactForm.Finish | src/app/contact/page.tsx:158-176 | after any outcome `isSubmitting` is false and a banner shows; success happens exactly on a reply with `success`, shows the reply's message and clears all four fields; a failure keeps the fields; a reply without `success` shows its failure text (the error, or "Something went wrong"), and a request that threw shows the fixed retry text; the error map is untouched |
| ContactForm.Change | src/app/contact/page.tsx:179-187 | only the named field changes; its error is cleared (it survives only if it was already empty); other errors, the flag and the status are unchanged |
| ContactForm.ConsistentInvariant | src/app/contact/page.tsx:113-187 | no subject error and no empty hint: true initially and kept by every handler |
| ContactForm.InvalidSubmitOnlySetsErrors | src/app/contact/page.tsx:149 | an invalid form sends no request and leaves the fields, the flag, the status and its message as they were |
| ContactForm.NoSecondRequestWhileSubmitting | src/app/contact/page.tsx:423 | after a press that sends, a second press sends nothing |
| ContactForm.BannerFollowsRequest | src/app/contact/page.tsx:447 | a sending press hides the previous banner, and its outcome always shows one |
| ContactForm.SetsCommute | src/app/contact/page.tsx:183 | replacing two different fields gives the same form in either order |
| ContactForm.EditsCommute | src/app/contact/page.tsx:179-187 | edits to two different fields give the same state, fields and errors, in either order |
| Pipeline.Wire | src/app/contact/page.tsx:155-159 | the body the page sends has string fields and a usable subject, so the route's record construction never throws on it |
| Pipeline.WireAsWrittenAgrees | src/app/api/contact/route.ts:33 | on any body the page sends, the handler as written answers and stores exactly what the corrected handler does, so the pipeline lemmas hold of the program's handler |
| Pipeline.RulesAgree | src/app/contact/page.tsx:129-140 | each page rule accepts exactly the strings the matching route check accepts |
| Pipeline.ClientServerAgree | src/app/contact/page.tsx:126-144 | the page accepts a form exactly when the route accepts its JSON body, and the route rejects for the first field the page flags |
| Pipeline.AcceptedSubmission | src/app/contact/page.tsx:146-177 | a press the page lets through, with a readable file and a good write: the route answers 200 and the log grows by one well-formed record, and the page shows the thank-you text with its fields cleared |
| Pipeline.RejectionShown | src/app/contact/page.tsx:167-170 | on any non-200 reply the page shows the route's own error text and keeps the fields |
| Pipeline.SampleValidates | src/app/api/contact/route.ts:26-45 | the form name "Jo", email `jo@example.com`, blank subject and the sample message passes all three checks |
| Pipeline.SampleRecord | src/app/api/contact/route.ts:48-55 | that form is stored as sent, without a subject |
| Pipeline.SampleAccepted | src/app/api/contact/route.ts:20-80 | that form is answered 200 with the thank-you text and appended to the log |
| Pipeline.SampleRejected | src/app/api/contact/route.ts:26-31 | name "J" with message "Hi" is answered 400 with the name text and nothing is stored |
| Projects.CategoryId | src/types/index.ts:11 | no project category has the id "all" or "codes" |
| Projects.Filter | src/app/projects/page.tsx:379-382 | the result is a subsequence of the input; every element passes the test; every passing element of the input is kept, as often as it occurs |
| Projects.FilterKeepsAll | src/app/projects/page.tsx:379-382 | a filter that keeps every element returns its input unchanged |
| Projects.FeaturedIndex | src/app/projects/page.tsx:378 | the index of a featured project with no featured project before it, or none exactly when no project is featured |
| Projects.FeaturedProject | src/app/projects/page.tsx:378 | the result is the first featured project in the list, and there is one exactly when some project is featured |
| Projects.FilteredProjects | src/app/projects/page.tsx:379-382 | the tab's list keeps the input order, holds only projects of the active category (any project on "all"), and holds every such project |
| Projects.NonFeaturedProjects | src/app/projects/page.tsx:383-385 | the grid list keeps the order of the tab's list, leaves out the featured project's id on "all", and keeps every other project of the tab |
| Projects.AllTabListsEverything | src/app/projects/page.tsx:379-382 | on "all" the filtered list is the whole list, in order |
| Projects.CategoryTabLists | src/app/projects/page.tsx:379-382 | on any other tab a project is listed exactly when it is in the list with that category id, and the order is kept |
| Projects.NonFeaturedOffAll | src/app/projects/page.tsx:383-385 | off "all", the grid is the filtered list |
| Projects.NonFeaturedOnAll | src/app/projects/page.tsx:383-385 | on "all", the grid holds exactly the projects whose id differs from the featured one's, and everything when none is featured |
| Projects.CodesTabEmpty | src/app/projects/page.tsx:379-385 | the "codes" tab matches no category, so both its lists are empty |
| Projects.Render | src/app/projects/page.tsx:483-519 | the spinner shows exactly while loading; once loaded, the featured card shows exactly when a featured project exists and the tab is "all"; the empty notice shows exactly when the grid list is empty, and otherwise the cards are that list |
| Projects.FeaturedNotRepeated | src/app/projects/page.tsx:485-505 | no card in the grid carries the featured card's id |
| Projects.AllTabShowsEveryProject | src/app/projects/page.tsx:378-505 | on "all" with distinct ids, every project appears as the featured card or among the cards |
| Projects.EveryTabFilters | src/app/projects/page.tsx:10-15 | the first tab button, "all", is the tab shown before any click and lists every project in order; each other tab lists exactly the projects of its category id |
| Projects.CodesTabShowsNotice | src/app/projects/page.tsx:493-519 | a loaded "codes" tab shows no featured card and the empty notice |
| Projects.TechChips | src/app/projects/page.tsx:211-223 | a card shows the first min(4, n) technologies, and a badge exactly when there are more than four |
| Projects.ChipsAccountForAll | src/app/projects/page.tsx:211-223 | the chips and the rest of the list make up the whole list, and the shown count plus the badge number is n |
| Skills.SkillLabel | src/app/about/page.tsx:103-108 | "Expert" exactly at 90 and above, "Advanced" exactly from 80 below 90, "Intermediate" exactly from 60 below 80, "Familiar" exactly below 60 |
| Skills.LabelAtLeast | src/app/about/page.tsx:103-108 | a level earns at least a label exactly when it reaches that label's threshold |
| Skills.LabelMonotone | src/app/about/page.tsx:103-108 | raising the level never lowers the label |
| Skills.LabelTextInjective | src/app/about/page.tsx:104-107 | different labels have different texts |
| Skills.PaletteIsHex | src/app/about/page.tsx:555-579 | every brand colour and the default is a `#RRGGBB` colour |
| Skills.PaletteNamesDistinct | src/app/about/page.tsx:555-578 | no skill name has two colours |
| Skills.LookupFrom | src/app/about/page.tsx:579 | finds the first row for the name at or after the start, and finds none exactly when the name is absent there |
| Skills.GetColor | src/app/about/page.tsx:554-580 | a listed name gets its table colour and any other name gets `#8b5cf6`; the result is always a `#RRGGBB` colour |
| Skills.GetColorExamples | src/app/about/page.tsx:554-580 | "React" gets `#61DAFB` and "Rust" gets the default |
| Skills.ListedSkillsAreCovered | src/app/about/page.tsx:15-43 | every listed skill is labelled at least "Intermediate" |
| Footer.IsLocalHref | src/components/layout/footer.tsx:84 | an href is local exactly when it is `mailto:`, `tel:` or `/` followed by anything |
| Footer.SocialAnchor | src/components/layout/footer.tsx:84-85 | `target` is omitted exactly for hrefs starting with `mailto:`, `tel:` or `/`; `target` and `rel` are set or omitted together, and when set are `_blank` and `noopener noreferrer` |
| Footer.SocialLinks | src/components/layout/footer.tsx:15-21 | five links: GitHub and LinkedIn as configured, Facebook or `#` when missing or empty, `mailto:` plus the address, `tel:` plus the number |
| Footer.SocialRow | src/components/layout/footer.tsx:80-93 | the footer renders one anchor per social link, in order, by the target rule |
| Footer.TargetAndRelTogether | src/components/layout/footer.tsx:84-85 | no rendered link has `target` without `rel` or `rel` without `target` |
| Footer.MailAndPhoneStayInTab | src/components/layout/footer.tsx:19-20 | the mail and phone links never get `target` or `rel`, whatever the address or number |
| Footer.FacebookFallbackOpensNewTab | src/components/layout/footer.tsx:18 | the `#` fallback is treated as external: `_blank` with the safe `rel` |
| Footer.HttpsOpensNewTab | src/components/layout/footer.tsx:84-85 | any `https://` link opens in a new tab with the safe `rel` |
| Footer.PhoneLinkWithoutNumber | src/components/layout/footer.tsx:20 | with no number configured (the shipped configuration has none) the phone link is `tel:undefined` and stays in the tab |
| Footer.LocalHrefShape | src/components/layout/footer.tsx:84 | a link stays in the tab exactly when its href is `mailto:`, `tel:` or `/` followed by anything |

## Left out

- File-system I/O, `JSON.parse`/`JSON.stringify` and the console log in the contact route.
  - The file read enters as a `StoredLog`. The write enters as a flag.
  - A failed write is modelled as leaving the file unchanged.
  - A parsed array is taken to hold records. Arbitrary JSON elements are not modelled.
- `Date.now()` and `new Date().toISOString()`: the id and timestamp are opaque parameters.
- `fetch`, `await` and the React state lifecycle.
  - A submit is a pure transition, and its outcome is a parameter.
  - React's batching of state updates is not modelled.
- The lost-update race between two concurrent requests on the message file: concurrency is out of scope.
- Email dispatch: the code has no such path.
- ContactForm.Press: models only one browser rule, the disabled button. The form has no `noValidate` and the email input has `type="email"`, so the browser's own constraint check runs before `handleSubmit`. It can block a submit that `validateForm` would flag (`not-an-email` shows the browser's message instead of the page's hint) or one it would pass (`a@b..c`). The browser also strips leading and trailing whitespace from the email input's value. The agreement of page and route (`Pipeline.ClientServerAgree`) is about `validateForm`, not about what the browser lets through.
- The projects GET route: it passes bundled JSON through.
- Projects.CodesTabEmpty: holds only if the bundled project data matches the `Project` type. The model's closed `Category` datatype assumes every category is one of the five ids. The GET route's `as Project[]` and the page's storing of `data.data` check nothing at run time, so an entry with category "codes" would be listed on the "Codes" tab.
- Text.ToLower: lowers only the ASCII letters. JavaScript's `toLowerCase` lowers every Unicode letter. Whether a string is address-shaped is unaffected (`Email.ToLowerPreservesEmail`), but stored non-ASCII capitals differ.
- Skills.GetColor: does not model names that are properties every JavaScript object inherits (`constructor`, `toString`). For those, `colors[name]` returns a function rather than the default colour.
- Skills.SkillLabel: levels are reals. `NaN` is not modelled; `getSkillLabel` gives it "Familiar".
- Skills.ListedSkillsAreCovered: does not state that every listed skill has a table colour.
- Project fields other than id, title, technologies, featured and category. Icons, links and descriptions are presentation only.
- Card and chip text such as the "+N" badge's decimal rendering, and React keys.
- All animation: framer-motion, timers, `Math.random`, trigonometric orbits and mouse tilt.
- The layout metadata, the card and section wrappers, and the home page.

## Findings

| source | as written | input that shows it | evidently intended | confidence | as-written member | corrected member |
|---|---|---|---|---|---|---|
| src/app/api/contact/route.ts:33 | the email guard checks only that the value is present and that its string form is address-shaped; unlike the name and message guards, it has no string-type test, and the handler then calls `email.trim()` | `{"name":"Jo","email":["a@b.co"],"message":"Hello there, checking in."}`: the array's string form `a@b.co` passes, then `trim` throws and the reply is 500; `{"name":"Jo","email":{"toString":1}}` makes the test itself throw, also 500 | answer 400 "Please provide a valid email address", as for any other unusable email | medium, not executed | ContactRoute.AsWrittenCrashesOnNonStringEmail | ContactRoute.NonStringEmailRejected |
