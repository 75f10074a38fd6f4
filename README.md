# Job-application review pipeline — a Dafny model

This project models the logic core of a job-application portal. Applicants
upload a résumé. The server extracts its text and stores an application with
`currentStatus = false`. A periodic pass hands every pending application to a
generative-AI model. It stamps the model's answer as an `AI_screen` review,
stores it under the application's id and marks the application reviewed. A
reviewer dashboard then lists the applications in two sections and shows
badges from the stored reviews.

The model has eight modules, one per concern:

- `Wrappers` (wrappers.dfy): `Option` and `Result`.
- `Text` (text.dfy): `toLowerCase` and `includes`, with their specifications.
- `Timestamps` (timestamps.dfy): `toISOString().slice(0, 19) + 'Z'`. The stored
  stamp reads back as the instant truncated to the second.
- `Extraction` (extraction.dfy): Node's `path.extname`, lower-casing, and the
  `.docx`/`.pdf` dispatch of `extractTextFromBuffer`. The two converters are
  function parameters.
- `Review` (review.dfy): the stores as maps. Also the four-part review
  prompt, the stamping of the model's answer, the two writes of a review
  step, a whole pass, and the lemmas about them (last write wins,
  independence of records, effect of a pass).
- `Server` (server.dfy): class `Portal`. Its fields are the three collections
  and the upload directory. Its methods are the submit handler, the
  per-record review body, a sequential review pass and the job-listings
  lookup. Each is proved against functions of the other modules: `Submit`
  against `Extraction.ExtractText`, `Extraction.UploadExtension` and
  `Timestamps.Stamp`; `ReviewApplication` and `ReviewAi` against
  `Review.ReviewStep` and `Review.ReviewPass`; `JobListings` against
  `Server.WithId`.
- `Gemini` (gemini.dfy): the content parts of `geminiTextImage` and the
  anchored removal of `data:image/<type>;base64,`.
- `Dashboard` (dashboard.dfy): the id-keyed reviews index, the "Needs Review"
  and "Confirmed" lists, the row badges and the quick-confirm payload.

The model, the AI service, the clock, the store's id generator and the order
in which the store lists query results are all parameters.

In these places the model follows what the code does:

- A missing job posting does not skip the record. `getJob.data()` is
  `undefined`, and the prompt's fourth part is `JSON.stringify(undefined)`,
  modelled as `JobJson(None)`. Only an empty `jobId` makes the lookup throw
  (`doc("")`), and that leaves the record untouched.
- The stored application has only the five fields the handler writes:
  applicant, job, submission date, résumé text and status. There are no
  question answers and no cover-letter text.
- The model's `decision`, `reasoningLog` and `isFinalDecision` are stored as
  it returned them.
- The finalize and statistics behaviour the dashboard calls is not in the
  server code, so it is not modelled.

## Model

| member | source | states |
|---|---|---|
| Text.ToLower | server/server.js:95 | lower-casing keeps the length and lowers each character; only ASCII capitals change |
| Text.ContainsIffOccurs | client/src/ReviewerDashboard.tsx:179 | `includes` is true exactly when the needle occurs at some position |
| Timestamps.FormatTimestamp | server/server.js:101 | the stamp is at most 20 characters, ends in `Z`, and the rest is a prefix of the ISO string |
| Timestamps.Stamp | server/server.js:100-101 | the stored stamp is always 20 characters ending in `Z`; StampRoundTrip and StampIsSecondPrecision give what it keeps of the instant |
| Timestamps.StampRoundTrip | server/server.js:100-101 | for four-digit years the stored submission date is 20 characters and parses back to the instant with milliseconds dropped |
| Timestamps.StampIsSecondPrecision | server/server.js:179-180 | two review timestamps are equal exactly when the instants fall in the same second |
| Timestamps.ExtendedYearStampDropsSeconds | server/server.js:100-101 | for years outside 0..9999 the 19-character cut stops before the seconds, so the stamp has minute precision |
| Extraction.Dispatch | server/server.js:153-164 | `.docx` selects the DOCX converter, `.pdf` the PDF parser, every other extension fails with UnsupportedFileType |
| Extraction.ExtractText | server/server.js:229-240 | the result is the chosen converter's text; unsupported extensions and failing converters give the matching errors |
| Extraction.DispatchIgnoresCase | server/server.js:95 | after lower-casing, extensions equal up to case dispatch alike; accepted exactly when the lowered form is `.docx` or `.pdf` |
| Extraction.UpperCaseExtensionsAccepted | server/server.js:95 | `.PDF` and `.DOCX` are accepted and `.Txt` is refused |
| Extraction.ExtNameOfStoredUpload | server/server.js:95 | `path.extname` of a stored upload named `<stem><ext>` gives back the original extension |
| Extraction.ExtName | server/server.js:95 | `path.extname` is empty or a dot followed by no further dot or separator |
| Extraction.UploadExtension | server/server.js:95 | the extension dispatched on is `path.extname` lower-cased: same length, empty or dot-led, no capital letter; DispatchIgnoresCase gives the dispatch on it |
| Review.LookupJob | server/server.js:177 | the lookup throws exactly for an empty job id, and finds the posting exactly when one is stored under that id |
| Review.ReviewPrompt | server/server.js:198-202 | the prompt has four parts: instruction, application JSON, job introduction, job JSON |
| Review.StampAiReview | server/server.js:207-211 | review type `AI_screen`, timestamp given, reviewer null, applicant and job from the application; decision, reasoning and finality kept |
| Review.StampKeepsOnlyTheVerdict | server/server.js:205-211 | two model answers give the same stored outcome exactly when they agree on decision, reasoning and finality |
| Review.CommitReview | server/server.js:213-216 | the outcome under the id is replaced whole; only that application's status changes, to true |
| Review.LastWriteWins | server/server.js:213 | committing two reviews of one application leaves the state of committing only the later one |
| Review.CommitsCommute | server/server.js:175-217 | commits for different applications give the same state in either order |
| Review.ReviewStep | server/server.js:175-217 | one review step changes no other application, no other outcome and no posting |
| Review.ReviewPass | server/server.js:170-218 | a pass keeps the set of applications and the postings |
| Review.ReviewPassEffect | server/server.js:170-218 | after a pass, each queried record is as if reviewed alone on the prior state, and every other record and outcome is unchanged |
| Review.PassReviewsEveryPendingApplication | server/server.js:172-216 | each pending application the model answers ends reviewed, with its stamped `AI_screen` outcome and a null reviewer under its id |
| Review.FailedReviewStaysPending | server/server.js:172-205 | a record whose model call fails keeps its status and outcome: neither store is written, so if the process survives the rejection a later pass finds the record pending again |
| Server.WithId | server/server.js:142 | the listed job has the posting's fields plus `id`; a stored `id` field overrides the document id |
| Server.Portal.Submit | server/server.js:85-122 | no file gives 400 and no change; otherwise the upload is deleted; 500 adds nothing; 200 adds exactly one pending record with the extracted text |
| Server.Portal.ReviewApplication | server/server.js:175-217 | the prompt built part by part and the answer stamped field by field give the state of `Review.ReviewStep` |
| Server.Portal.ReviewAi | server/server.js:170-218 | running the per-record body over the pending records in query order gives the state of `Review.ReviewPass` |
| Server.Portal.JobListings | server/server.js:128-148 | a truthy job id gives that posting or 404; otherwise every posting in store order, each with its id added |
| Gemini.PrefixLengthMatchesPattern | server/gemini-config.js:53 | a prefix matches `^data:image\/\w+;base64,` exactly when it is the one found, so at most one prefix matches |
| Gemini.StripRemovesLeadingPrefix | server/gemini-config.js:53 | a leading data-URI prefix is removed and the rest is kept |
| Gemini.StripKeepsUnprefixedImage | server/gemini-config.js:53 | an image string without a leading prefix is sent unchanged |
| Gemini.StripNotIdempotentOnDoubledPrefix | server/gemini-config.js:53 | a doubled prefix loses only its first copy, so stripping twice differs from stripping once |
| Gemini.StripOnlyAtStart | server/gemini-config.js:53 | the pattern is anchored: a prefix behind any text that does not start with `d` is not removed |
| Gemini.StripDataUriPrefix | server/gemini-config.js:53 | the result is a suffix of the image string; the four Strip lemmas above fix which suffix |
| Gemini.ContentParts | server/gemini-config.js:45-61 | part count is [prompt truthy] + [image truthy]; text part first, inline JPEG part last; a non-string truthy image fails |
| Gemini.BuildParts | server/gemini-config.js:45-61 | the conditional pushes build exactly `ContentParts` |
| Gemini.GeminiTextImage | server/gemini-config.js:39-75 | every failure, in building the parts or in the model call, is returned as an error value |
| Dashboard.BuildReviewsIndex | client/src/ReviewerDashboard.tsx:56-57 | the `forEach` loop builds `ReviewsIndex` of the fetched list |
| Dashboard.ReviewsIndex | client/src/ReviewerDashboard.tsx:56-57 | every entry is a fetched item stored under its own truthy id; ReviewsIndexKeys and ReviewsIndexLastWins pin down keys and values |
| Dashboard.ReviewsIndexKeys | client/src/ReviewerDashboard.tsx:57 | the index keys are exactly the truthy ids of the fetched items |
| Dashboard.ReviewsIndexLastWins | client/src/ReviewerDashboard.tsx:57 | under each id the index holds the last item with that id |
| Dashboard.LaterReviewWins | client/src/ReviewerDashboard.tsx:57 | of two reviews with one id, only the later is indexed |
| Dashboard.Section | client/src/ReviewerDashboard.tsx:172 | a section holds exactly the applications whose status matches it |
| Dashboard.NeedsReview | client/src/ReviewerDashboard.tsx:172 | "Needs Review" holds exactly the fetched applications whose `currentStatus` is not `true` |
| Dashboard.Confirmed | client/src/ReviewerDashboard.tsx:193 | "Confirmed" holds exactly the fetched applications whose `currentStatus` is `true` |
| Dashboard.SectionsPartition | client/src/ReviewerDashboard.tsx:172-193 | "Needs Review" and "Confirmed" together hold every application exactly once |
| Dashboard.SectionKeepsOrder | client/src/ReviewerDashboard.tsx:172-193 | filtering commutes with concatenation, so both lists keep the fetched order |
| Dashboard.RowName | client/src/ReviewerDashboard.tsx:175 | the row title is the applicant id when truthy, otherwise a dash, and never empty |
| Dashboard.HumanBadgeFollowsLastReview | client/src/ReviewerDashboard.tsx:179 | the Human badge shows exactly when the last review with that id has a non-empty decision mentioning "human" |
| Dashboard.MentionsHumanIgnoresCase | client/src/ReviewerDashboard.tsx:179 | the badge test ignores case and holds exactly when "human" occurs in the lowered decision |
| Dashboard.MentionsHuman | client/src/ReviewerDashboard.tsx:179 | the lowered decision includes "human"; specified by MentionsHumanIgnoresCase and the three badge examples |
| Dashboard.HumanBadge | client/src/ReviewerDashboard.tsx:179 | the Human badge condition; HumanBadgeFollowsLastReview ties it to the last fetched review with that id |
| Dashboard.HumanReviewDecisionBadged | client/src/ReviewerDashboard.tsx:179 | "Human Review Requested" is badged |
| Dashboard.UpperCaseHumanBadged | client/src/ReviewerDashboard.tsx:179 | a capitalised "HUMAN REVIEW" is badged too |
| Dashboard.QualificationDecisionsNotBadged | client/src/ReviewerDashboard.tsx:179 | "Qualified" and "Not Qualified" are not badged |
| Dashboard.ConfirmedBadge | client/src/ReviewerDashboard.tsx:201-205 | a Confirmed row shows "AI: " followed by the decision when there is one, and "Reviewed" otherwise |
| Dashboard.FinalizeFromForm | client/src/ReviewerDashboard.tsx:78 | the Finalize payload is the form's decision, reviewer id and notes; FinalizeCarriesForm states that it carries the whole form |
| Dashboard.FinalizeCarriesForm | client/src/ReviewerDashboard.tsx:78 | two forms give the same Finalize payload exactly when they are the same form |
| Dashboard.QuickConfirmPayload | client/src/ReviewerDashboard.tsx:97 | the Quick payload is the fixed "Qualified" / "quick-confirm" record; QuickConfirmIgnoresForm states it |
| Dashboard.QuickConfirmIgnoresForm | client/src/ReviewerDashboard.tsx:97 | quick confirm sends one fixed payload whatever the form holds; it equals Finalize's only for that one form |

## Left out

- Scheduling and concurrency are not modelled. That covers the 15-second `setInterval`, the fire-and-forget `async forEach` and overlapping passes. `Server.Portal.ReviewAi` runs the per-record bodies one after another. Overlapping passes appear only as `Review.LastWriteWins`.
- The global `prompt` variable that every callback shares is not modelled. Each step builds its own prompt.
- The DOCX and PDF libraries are function parameters, because they are foreign code. Their results are taken to be strings.
- `extractTextFromBuffer` is declared twice with the same body (server/server.js:153-164 and 229-240). The later declaration is the one in effect, and it is modelled once.
- The Gemini calls (`generateJsonOutput`, `generateContent`) and JSON parsing are function parameters, because they are external services. Fields the model adds beyond the response schema are not modelled.
- Firestore is modelled as maps. Store failures are not modelled: network errors, rejected `undefined` values, the 500 replies of `/jobListings` and of a failed `add`. Auto-ids and the order of query results are parameters.
- A throw inside the per-record review callback (an empty `jobId` in `doc("")` at server/server.js:177, or a failed model call at server/server.js:205) is modelled as a step that leaves both stores as they were. The callback has no `try`/`catch` and the promise of `reviewAi()` is dropped (server/server.js:224), so in Node the rejection is unhandled and by default ends the process. That is not modelled; `Review.FailedReviewStaysPending` speaks only of the stores.
- Server.Portal.Submit: requires a fresh id, because the store's auto-ids never collide.
- Document ids with `/` in them count as plain keys. Only the empty id is treated as an invalid path.
- Multer's disk storage, the Express/CORS setup, the `/create`, `/applicant`, `/job-posting`, `/api/gemini-text` and `/api/gemini-text-image` routes, and the Firebase initialisation are not modelled. They are I/O configuration or pass-through inserts.
- The finalize and statistics endpoints the dashboard calls are not modelled, because the server code has no handlers for them.
- React rendering, hooks, fetch calls, alerts and the floating-point sparkline are not modelled.
- Text.ToLower: handles ASCII letters only, because full Unicode case mapping is out of scope.
- Gemini.Truthy: numbers are integers. NaN, fractions, objects and arrays are not modelled.
- The submit form's `applicantId` and `jobId` are always-present strings (a missing field makes the store's `add` reject `undefined`, one of the store failures above). Other form fields and JSON fields are strings or absent. Other JSON types are not modelled, including a non-string decision, which would make `toLowerCase` throw during rendering.
- The dashboard's index is a plain object, so keys such as `constructor` would find inherited properties. This is not modelled; no badge would show for them.
- Timestamps.ValidDateTime: does not check day-of-month against the month. `toISOString` only formats fields, and the clock produces real dates.
- Extraction.ExtName: follows Node's POSIX rules. The Windows variant is not modelled.
