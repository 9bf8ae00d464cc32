# Royal Wedding admin and contact core, in Dafny

This project models the server-side core of the Royal Wedding website (an Express and
Mongoose application) and proves properties of the model:

- **Access control** (`auth.dfy`): the `requireAuth`, `requireGuest`, `requireAdmin`,
  `requireSuperAdmin` and `attachUser` middleware over a mutable `Session` object.
- **Authentication controller** (`auth_controller.dfy`): `login`, which runs a chain of early
  exits, stamps `lastLogin`, fills the session in and consumes `returnTo`; `logout`; and
  `register`, which runs an ordered validation cascade, builds the user and saves it.
- **Contact form handler** (`main_controller.dfy`): four independent field checks that build
  the error list, the 400 reply, and the mail step.
- **Schemas** (`user_model.dfy`, `contact_model.dfy`, `inquiry_model.dfy`): setters (trim,
  lower-case), defaults, the validators run on save, the pre-save hooks, the unique indexes
  of `users`, and the static queries and instance methods. Each collection is a class whose
  `docs` field the saving methods update.
- **Performance script helpers** (`performance.dfy`): `isImageFile`, `isMinified`, and the
  counting and recommendation loop of `scanImagesRecursively` over a directory tree given as
  a value.
- **Shared pieces**: JavaScript string semantics (`js.dfy`: truthiness, `\s`, `trim`,
  `toLowerCase`, `.length` in UTF-16 units, and a first-position search used by the regex scans), the regular expressions as string
  predicates, each proved equal to a structural reading of its regex (`patterns.dfy`), and
  MongoDB's `find`/`sort`/`limit` (`query.dfy`).

Mongoose behaviour is modelled as the code relies on it:

- validation runs before the pre-save hooks;
- a save re-validates every loaded path;
- `required` refuses an absent value and `""`;
- `match` and `enum` pass an absent value, and `match` also passes `""`;
- custom validators are skipped for absent values;
- a unique-index clash makes the save fail;
- `limit(0)` returns everything and a negative limit counts as its absolute value.

bcrypt is a pair of parameter functions, `Bcrypt(hash, compare)`. `Sound(crypt)` states that
`compare` accepts what `hash` produced. Clocks, request bodies, the mail server's answer and
`session.destroy`'s outcome are parameters.

Some parts of the code disagree with each other. The model follows each part as written:

- `requireAdmin` (src/middleware/auth.js:23-32) tests for the exact role `'admin'`, while the
  role enum (src/models/User.js:25-29) also has `'super_admin'`.
- The contact handler (src/controllers/mainController.js:20-36) checks only name, email,
  phone and message. The Contact schema also has maximum lengths of 100 and 1000
  (src/models/Contact.js:9, 52) and validators on the wedding date and the package
  (src/models/Contact.js:23-37), which the handler does not mirror.
- The handler calls `nodemailer.createTransporter`, which nodemailer does not export; its
  factory is `createTransport`.

`findByCredentials` and the registration duplicate check query the `email` and `username`
paths, whose schema setters trim (and, for email, lower-case). Mongoose applies those setters
to query values when it casts a filter, and the model does the same (`UserModel.CastUsername`,
`UserModel.CastEmail`). So a submitted `" bob"` is looked up as `"bob"`, and registration that
passes the duplicate lookup never clashes on username or email at the unique index
(`AuthController.ProceedAvoidsDuplicateKey`).

## Model

| member | source | states |
|---|---|---|
| Js.JsLength | src/controllers/mainController.js:22 | `.length` counts UTF-16 units: between the code-point count and twice it, and equal to it for text in the Basic Multilingual Plane |
| Js.JsLengthAppend | src/controllers/mainController.js:22 | the length of a concatenation is the sum of the lengths |
| Js.TrimShape | src/controllers/mainController.js:22 | `trim()` returns the slice of the input that follows its leading whitespace and is followed only by whitespace; its first and last characters are not whitespace; the result is empty iff the input is all whitespace |
| Js.TrimNoSpace | src/models/User.js:13-19 | a string without whitespace is its own trim |
| Js.TrimIdempotent | src/models/User.js:5-12 | trimming twice is trimming once |
| Js.TrimShortens | src/models/Inquiry.js:4-9 | trimming never makes the length larger |
| Js.ToLower | src/models/User.js:13-19 | `toLowerCase()` keeps the length and maps each character |
| Js.ToLowerIdempotent | src/models/User.js:13-19 | lower-casing twice is lower-casing once |
| Js.LowerKeepsSpace | src/models/User.js:13-19 | lower-casing keeps whitespace where it was, so leading and trailing whitespace counts are unchanged |
| Js.LowerTrimCommute | src/models/User.js:13-19 | the `trim` and `lowercase` setters give the same result in either order |
| Js.IndexOf | src/controllers/mainController.js:4-7 | the regex scans' first-position search (not JavaScript's `indexOf`, which the source does not call): the first position holding `c`, or the length of the string when there is none |
| Js.CountChar | performance-test.js:131 | the number of occurrences is at most the length, and zero iff the character is absent |
| Js.LeadingSpace | src/controllers/mainController.js:22 | counts the whitespace a string starts with: every counted character is whitespace and the next one is not |
| Js.TrailingSpace | src/controllers/mainController.js:22 | counts the whitespace a string ends with: every counted character is whitespace and the one before is not |
| Patterns.IsValidEmailIffRegex | src/controllers/mainController.js:4-7 | the direct email scan accepts exactly the strings `/^[^\s@]+@[^\s@]+\.[^\s@]+$/` matches |
| Patterns.IsValidPhoneIffRegex | src/controllers/mainController.js:10-13 | the phone check accepts exactly the strings `/^[\+]?[\d\s\-\(\)]{10,}$/` matches |
| Patterns.IsGuestCountIffRegex | src/models/Contact.js:42-44 | the guest-count check accepts exactly a number or a range of two numbers, as `/^\d+(-\d+)?$/` does |
| Patterns.DomainIffRegex | src/models/Inquiry.js:15 | the domain scan accepts exactly the domains of the Inquiry email regex (word runs with single separators, ending in dot groups of 2 or 3 word characters) |
| Patterns.DomainFromSplit | src/models/Inquiry.js:15 | any split of a domain into word runs followed by dot groups, as the regex engine may choose it, is accepted by the domain scan |
| Patterns.InquiryDomainShape | src/models/Inquiry.js:15 | a domain the Inquiry pattern accepts has at least four characters, all word characters, `.` or `-`, with a `.` strictly inside |
| Patterns.IsInquiryEmailIffRegex | src/models/Inquiry.js:15 | the Inquiry email check accepts exactly the strings its regex matches |
| Patterns.InquiryEmailIsValidEmail | src/models/Inquiry.js:15 | every address the Inquiry schema accepts also passes the contact handler's email check |
| Patterns.EmailChecksDiffer | src/models/Inquiry.js:15 | `"a@b.c"` passes the contact handler's check and fails the Inquiry schema's |
| Patterns.InquiryPhoneIsValidPhone | src/models/Inquiry.js:44 | an Inquiry phone number with ten or more digits also passes the contact handler's phone check |
| Query.Where | src/models/Contact.js:96 | `find(filter)` keeps each document that matches the filter, as often as it occurs, and nothing else |
| Query.SortDesc | src/models/Contact.js:96 | `sort({key: -1})` returns a permutation of its input, in non-increasing key order |
| Query.InsertDesc | src/models/Contact.js:96 | inserting into a sorted sequence keeps it sorted and adds exactly the new element |
| Query.LimitCount | src/models/Contact.js:100-102 | `limit(n)` keeps all documents for 0; otherwise it keeps no more than are available and no more than `abs(n)`, and falls short of `abs(n)` only by keeping everything |
| Query.TopByKey | src/models/Contact.js:100-102 | sort then limit: a sorted sub-multiset of the input of the limited size |
| Query.TopByKeyKeepsLargest | src/models/Contact.js:100-102 | no document left out by sort-then-limit has a larger key than one that was kept |
| UserModel.NewUserNormalized | src/models/User.js:5-33 | a new user's username and email are already in the setters' normal form, so casting them as query values leaves them unchanged; an unset role defaults to `'admin'`, which is in the enum; the account is active and has no `lastLogin` |
| UserModel.ValidationErrors | src/models/User.js:5-29 | the failing paths: username length outside 3..50, empty email, password shorter than 6, role outside the enum |
| UserModel.PreSave | src/models/User.js:48-66 | the password is replaced by its hash iff it was modified, `updatedAt` becomes now, and no other field changes |
| UserModel.HashedPasswordVerifies | src/models/User.js:69-75 | after a save that hashed the password, `comparePassword` with the plain password succeeds |
| UserModel.ResaveKeepsPassword | src/models/User.js:48-60 | a save without a password change never re-hashes the hash, so each comparison gives the same answer as before |
| UserModel.FindByCredentials | src/models/User.js:78-87 | returns the first active document whose email equals the identifier cast by the email setters, or whose username equals it cast by the username setter, or nothing iff there is no such document |
| UserModel.SaveOutcome | src/models/User.js:5-19 | a save is refused with the failing paths when validation fails, otherwise with a duplicate-key error iff another document shares `_id`, username or email |
| UserModel.UserStore.Insert | src/controllers/authController.js:169 | inserting keeps the unique indexes; it appends the hashed document iff the save succeeds, and otherwise leaves the collection as it was |
| UserModel.UserStore.Update | src/controllers/authController.js:56 | updating keeps the unique indexes; it replaces exactly the saved document iff the save succeeds |
| Auth.RequireAuth | src/middleware/auth.js:4-12 | a request passes iff the session is logged in, and then nothing changes; otherwise `returnTo` is set to the URL and the request is redirected to the login page, with no other session field changed; with no session at all the handler throws |
| Auth.RequireGuest | src/middleware/auth.js:15-20 | redirects to the dashboard iff logged in, and passes otherwise |
| Auth.RequireAdmin | src/middleware/auth.js:23-32 | passes iff logged in with role exactly `'admin'`; every refusal is the admin 403 |
| Auth.RequireSuperAdmin | src/middleware/auth.js:35-44 | passes iff logged in with role exactly `'super_admin'`; every refusal is the super-admin 403 |
| Auth.RoleGuardsNeverRedirect | src/middleware/auth.js:23-44 | the role guards never redirect: each refusal is a 403 |
| Auth.RoleGuardsRefineAuth | src/middleware/auth.js:4-44 | no session passes both role guards, and a session that passes either one is logged in and is turned away by `requireGuest` |
| Auth.SuperAdminDeniedByRequireAdmin | src/middleware/auth.js:23-32 | a logged-in super admin is refused by `requireAdmin` and passes `requireSuperAdmin` |
| Auth.RequireAdminOrAbove | src/middleware/auth.js:23-32 | the corrected guard passes iff logged in with a role in the enum |
| Auth.AdminOrAboveIsUnionOfRoleGuards | src/middleware/auth.js:23-44 | the corrected guard admits exactly those admitted by one of the two role guards |
| Auth.AttachUser | src/middleware/auth.js:47-62 | always passes; the current user is authenticated iff the session is logged in, and then carries the session's id, username, email and role; otherwise it carries nothing |
| AuthController.CheckCredentials | src/controllers/authController.js:26-52 | a login is refused for missing input iff a field is falsy; as unknown iff the lookup finds nobody; as a wrong password iff the found user's hash refuses it; when accepted, the index is the found user's |
| AuthController.LoginError | src/controllers/authController.js:26-52 | missing input shows its own message; an unknown user and a wrong password show the same message |
| AuthController.LastLoginSaveSucceeds | src/controllers/authController.js:55-56 | re-saving a valid stored user with only `lastLogin` changed always succeeds under the unique indexes |
| AuthController.AcceptLogin | src/controllers/authController.js:55-77 | after the `lastLogin` save: on failure, the generic error and an unchanged session; on success, the session holds the user's id, name, email and role and is logged in, the visitor goes to the truthy `returnTo` or the dashboard, and `returnTo` is removed |
| AuthController.Login | src/controllers/authController.js:21-78 | a refused login renders its error and changes neither store nor session; an accepted one behaves as `AcceptLogin` |
| AuthController.Logout | src/controllers/authController.js:81-96 | a destroyed session holds nothing and is no longer logged in, the cookie is cleared, and the visitor goes to the login page with the logged-out notice; if destroying fails, the visitor goes to the dashboard and nothing changes |
| AuthController.CheckRegistration | src/controllers/authController.js:121-159 | registration is refused at the first failing step: a falsy field, different passwords, a password shorter than 6, or an existing user with that email (lower-cased, then cast) or username (cast); it proceeds iff none applies |
| AuthController.RegisteredUserShape | src/controllers/authController.js:162-167 | the new user keeps the typed password until it is hashed, has a trimmed username and a trimmed lower-case email, and has role `'admin'` when the form gives none |
| AuthController.Register | src/controllers/authController.js:116-184 | a refused registration renders its error and creates nothing; otherwise a successful save appends exactly the new hashed user with the success message, and a refused save renders the generic error and creates nothing |
| AuthController.FindAppended | src/models/User.js:78-87 | a match appended after non-matching documents is what the lookup finds |
| AuthController.RegisteredUserCanLogIn | src/controllers/authController.js:35-52 | an account created by registration logs in with its username and the typed password, unless another active account has that username, cast as an email, as its email |
| AuthController.ProceedAvoidsDuplicateKey | src/controllers/authController.js:146-169 | when registration passes the duplicate lookup and the new `_id` is unused, the save is never refused by a unique index |
| AuthController.PaddedUsernameCaughtByDuplicateCheck | src/controllers/authController.js:146-159 | registering `" bob"` next to a stored `"bob"` is refused by the duplicate lookup with its own message |
| MainController.MessagesDistinct | src/controllers/mainController.js:22-36 | the four error messages are pairwise different |
| MainController.FailedRules | src/controllers/mainController.js:20-36 | lists each failing check exactly once, in the order the checks run, and no check that passed; the list is empty iff all pass |
| MainController.ContactErrors | src/controllers/mainController.js:20-38 | the error list is empty iff the submission is valid |
| MainController.ContactErrorsMeaning | src/controllers/mainController.js:20-36 | the list holds each check's message iff that check fails, and has at most four entries |
| MainController.ValidateContact | src/controllers/mainController.js:20-36 | the pushes produce exactly the error list `ContactErrors` describes |
| MainController.DateAndPackageNotValidated | src/controllers/mainController.js:17-36 | the wedding date and the package have no effect on validation |
| MainController.PaddingKeepsVerdict | src/controllers/mainController.js:22-35 | surrounding a name or message with whitespace does not change its verdict |
| MainController.TrimPadded | src/controllers/mainController.js:22 | surrounding a string with whitespace does not change its trim |
| MainController.PaddedBounds | src/controllers/mainController.js:22 | padding a string with whitespace on both sides shifts where its trim starts and ends by the padding's length, and keeps an all-whitespace string all whitespace |
| MainController.Reply | src/controllers/mainController.js:38-105 | with errors, a 400 reply carrying them; otherwise success with a 200 iff the mail was delivered, and the 500 reply when it was not |
| MainController.HandleContactForm | src/controllers/mainController.js:15-106 | invalid input gets the 400 reply with its errors; valid input always gets the 500 reply because the transport factory does not exist; the reply never reports success and no mail is sent |
| MainController.HandleContactFormFixed | src/controllers/mainController.js:15-106 | with the correct factory, mail is sent iff the input is valid, and the reply reports success iff the input is valid and the mail was delivered |
| ContactModel.ValidationErrors | src/models/Contact.js:4-74 | the failing paths: name length outside 2..100; email not matching its pattern; empty phone; a wedding date not after now; a package or status outside its enum; a guest count that is neither a number nor a range; message length outside 10..1000 |
| ContactModel.NewContactDefaults | src/models/Contact.js:54-66 | a new contact has status `'new'`, which is in the enum, source `'website'`, `submittedAt` now and no `lastContactedAt`; an email the handler accepted still matches after the setters |
| ContactModel.LowerKeepsEmail | src/models/Contact.js:11-17 | the `lowercase` setter never turns a matching email into a non-matching one |
| ContactModel.GetByStatus | src/models/Contact.js:95-97 | returns exactly the contacts with that status, each as often as stored, newest submission first |
| ContactModel.GetRecent | src/models/Contact.js:100-102 | returns a sorted sub-multiset of the contacts, with at most 10 by default, newest first |
| ContactModel.GetRecentIsNewest | src/models/Contact.js:100-102 | every contact left out was submitted no later than every contact returned |
| ContactModel.MarkedAsContacted | src/models/Contact.js:105-109 | sets status `'contacted'` and `lastContactedAt` to now and changes nothing else |
| ContactModel.MarkRevalidates | src/models/Contact.js:105-109 | the re-validation on save refuses exactly the other paths that already failed; a contact whose wedding date has passed can never be marked |
| ContactModel.ContactStore.Create | src/models/Contact.js:75-77 | a valid contact is appended with both timestamps set to now; an invalid one is not written |
| ContactModel.ContactStore.MarkAsContacted | src/models/Contact.js:105-109 | only the marked document changes, and only in status, `lastContactedAt` and `updatedAt`; a refused save changes nothing |
| InquiryModel.FieldErrors | src/models/Inquiry.js:4-64 | the failing paths among nama (empty or over 100), email (not matching), wedding date (absent or not after now), package (absent or outside the enum), message (empty or over 1000), phone (non-empty and not matching) and notes (over 500) |
| InquiryModel.EnumErrors | src/models/Inquiry.js:46-60 | budget, status and priority fail iff outside their enums |
| InquiryModel.NewInquiryDefaults | src/models/Inquiry.js:46-60 | unset budget, status and priority default to `'discuss'`, `'new'` and `'medium'`, which pass their enums; a nama or message that fits before trimming still fits after |
| InquiryModel.DaysUntilWedding | src/models/Inquiry.js:97-104 | no value without a date; otherwise the smallest whole number of days not less than the time left |
| InquiryModel.ValidInquiryHasDaysAhead | src/models/Inquiry.js:97-104 | an inquiry that validates now has its wedding at least one day ahead; a past date gives zero or fewer days |
| InquiryModel.NeedsFollowUp | src/models/Inquiry.js:107-110 | true iff there is a follow-up date and it has come |
| InquiryModel.FollowUpStaysDue | src/models/Inquiry.js:107-110 | once due, a follow-up stays due later |
| InquiryModel.Stamped | src/models/Inquiry.js:123-126 | a save sets `updated_at` to now and nothing else |
| InquiryModel.StampKeepsValidity | src/models/Inquiry.js:123-126 | stamping never changes which paths fail validation |
| InquiryModel.GetByStatus | src/models/Inquiry.js:113-115 | returns exactly the inquiries with that status, each as often as stored, newest first |
| InquiryModel.GetRecent | src/models/Inquiry.js:118-120 | returns a sorted sub-multiset of the inquiries, with at most 10 by default, newest first |
| InquiryModel.GetRecentIsNewest | src/models/Inquiry.js:118-120 | every inquiry left out was created no later than every inquiry returned |
| InquiryModel.InquiryStore.Create | src/models/Inquiry.js:123-126 | a valid inquiry is appended stamped; an invalid one is not written |
| InquiryModel.InquiryStore.Update | src/models/Inquiry.js:123-126 | a valid update replaces exactly that document, stamped; a refused one changes nothing |
| Performance.ImageFileIgnoresCase | performance-test.js:139-142 | the image test gives the same answer for a name and its lower-cased form, and every name ending in `.webp` is an image |
| Performance.LineCount | performance-test.js:131 | `split('\n')` gives at least one line |
| Performance.IsMinifiedIsAverage | performance-test.js:129-136 | the integer test holds iff the average number of UTF-16 units per line exceeds 100 |
| Performance.SingleLineMinified | performance-test.js:129-136 | content without line feeds is minified iff it is longer than 100 units |
| Performance.TallyOf | performance-test.js:90-112 | the scan's counters satisfy: WebP images and large images are each at most the total |
| Performance.Report | performance-test.js:115-121 | the report carries the counters, and its status is `'Good'` iff there are no large images |
| Performance.WebPAdvice | performance-test.js:123-125 | the WebP advice is given iff no image is WebP and there is at least one image |
| Performance.FileAdvice | performance-test.js:108-111 | a file adds one compression advice iff it is a large image |
| Performance.CompressCountAppend | performance-test.js:108-111 | compression advices of two recommendation lists add up when the lists are concatenated |
| Performance.OneAdvicePerLargeImage | performance-test.js:94-125 | each large image anywhere in the tree adds exactly one compression advice |
| Performance.EntriesAdvice | performance-test.js:94-113 | the loop's advices number exactly the large images below its entries |
| Performance.NestedImagesMissingFromReport | performance-test.js:98-121 | a tree whose only large image is in a sub-directory is reported with zero images and status `'Good'`, while one compression advice is given |
| Performance.TreeTally | performance-test.js:90-112 | the whole-tree counters satisfy: WebP and large images are each at most the total |
| Performance.TreeCountsMatchAdvice | performance-test.js:108-111 | with whole-tree counts, the large images are exactly the compression advices |
| Performance.TreeReportConsistent | performance-test.js:115-121 | with whole-tree counts, the status is `'Good'` iff no compression advice was given |
| Performance.PerformanceMonitor.ScanFile | performance-test.js:100-112 | one file updates the counters as the loop does, adds a compression advice iff it is a large image, and leaves the report alone |
| Performance.PerformanceMonitor.ScanEntry | performance-test.js:95-112 | a sub-directory is scanned on its own: it leaves this directory's counters unchanged and overwrites the report with that sub-directory's own report; a file is counted and leaves the report alone |
| Performance.PerformanceMonitor.ScanImagesRecursively | performance-test.js:88-126 | as written: the report left behind counts only this directory's own files, while the advices are those of every entry in order (a sub-directory giving all of its own, its WebP advice included), then this directory's WebP advice |
| Performance.PerformanceMonitor.ScanTree | performance-test.js:88-113 | the corrected sub-scan returns the whole tree's counters and adds one advice per large image |
| Performance.PerformanceMonitor.ScanImagesFixed | performance-test.js:88-126 | the corrected scan reports the whole tree's counters and gives the WebP advice once |
| Performance.PerformanceMonitor.AnalyzeImages | performance-test.js:77-86 | as written: with an images directory, the report and advices of `scanImagesRecursively` as written; without one, the `NoImagesDirectory` report and the advice to create the directory |
| Performance.PerformanceMonitor.AnalyzeImagesFixed | performance-test.js:77-86 | with the corrected scan, an images directory is reported with whole-tree counts; without one, as `AnalyzeImages` |

## Left out

- E-mail delivery, the SMTP transport and `console` output are not modelled. The mail server's answer is a parameter of the contact handler.
- bcrypt's hashing and salting are not modelled. The hash and compare functions are parameters, and `Sound` is assumed only where a lemma names it.
- Concurrency between requests is not modelled. In particular, two registrations can race between the duplicate lookup and the save, and only the unique index catches that.
- Mongoose releases before 5 applied setters to query values only with the `runSettersOnQuery` option. The model follows the later default and applies them; no version is pinned in the repository.
- Request bodies whose fields are not strings (arrays, numbers) are not modelled; every field is an optional string.
- Invalid `Date` casts (a `weddingDate` that is not a date) are not modelled, because dates are integers of milliseconds.
- `toLowerCase` maps only `A`..`Z`. Unicode case mapping of other scripts is not modelled.
- `sort` on equal keys may return the documents in any order. The model fixes one order, and its contracts hold for every order.
- `limit` with a non-integer or string value is not modelled.
- The locale-dependent date-formatting virtuals are not modelled: `toLocaleDateString` in `id-ID`.
- In the performance script, the rendering of sizes (`toFixed`), percentages, the CSS and JS analyses (string-valued size thresholds), the build-configuration check and the report printing are not modelled, because they are floating-point formatting and file-system reads. A recommendation is a datatype standing for its message.
- `showLogin`, `showRegister`, the view rendering and the Express routing are not modelled.
- The session store, cookies and `session.destroy`'s callback are not modelled. The callback's error is the `destroyFails` parameter.
- UserModel.UserStore.Update: documents are addressed by position in the collection, not by `_id`.
- ContactModel.ContactStore.MarkAsContacted: the document is addressed by its position in the collection, not by `_id`.
- InquiryModel.InquiryStore.Update: the document is addressed by its position in the collection, not by `_id`.
- Database and bcrypt failures outside a `save` answer are not modelled: a dropped connection, a throwing `findOne` or a throwing `compare` would reach the `catch` blocks of `login` and `register` (src/controllers/authController.js:70-77, 176-183); the model reaches their generic errors only through a refused save.
- ContactModel.ValidationErrors: the first failing validator of each path is not distinguished from the others. The model reports failing paths, not Mongoose's per-path message.
- InquiryModel.InquiryStore.Create: `created_at` keeps the construction time given by its default, so a save sets only `updated_at`.

## Findings

| source | as written | input that shows it | evidently intended | confidence | as-written member | corrected member |
|---|---|---|---|---|---|---|
| src/middleware/auth.js:23-32 | `requireAdmin` admits only the role `'admin'` | a logged-in session with role `'super_admin'` gets the 403 | a super admin also reaches the admin pages | medium; not executed | Auth.SuperAdminDeniedByRequireAdmin | Auth.RequireAdminOrAbove |
| src/controllers/mainController.js:47 | calls `nodemailer.createTransporter`, which nodemailer does not export | any valid submission gets the 500 reply and no mail is sent | `nodemailer.createTransport` | high; not executed | MainController.HandleContactForm | MainController.HandleContactFormFixed |
| performance-test.js:115-121 | each directory's scan overwrites the images report with the counts of its own files only | `[Dir("a", [File("b.png", 600000)])]` is reported with 0 images and status `'Good'` while its compression is advised | counts over the whole images tree, reached from `analyzeImages` as in `Performance.PerformanceMonitor.AnalyzeImagesFixed` | medium; not executed | Performance.NestedImagesMissingFromReport | Performance.PerformanceMonitor.ScanImagesFixed |
