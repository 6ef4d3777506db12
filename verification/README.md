# Secure online exam server, modelled in Dafny

This project models the core logic of the Express/Mongoose server of the
"secure online exam system" and proves properties of it:

- **Scoring** (`scoring.dfy`, `scoring_props.dfy`, `fixture.dfy`). This is
  `verifyAndSave` and its copy in the smoke test.
  - Each stored question is decrypted and parsed. A question that does not
    decrypt makes the handler throw before anything is saved.
  - Each answer gets full credit on a trimmed exact match, otherwise capped
    partial credit.
  - Every unanswered exam index is padded in with 0 points.
  - The two copies differ in the `weight` they store for a padded record. The
    `Padding` datatype makes that choice explicit.
  - A reference function `Score` defines the outcome. The methods
    `AnswerPoints`, `ScoreAnswers`, `PadMissing` and `ScoreSubmission` follow
    the handler's loops statement by statement and are proved equal to it.
- **Leaderboard** (`leaderboard.dfy`). `listLeaderboard` keeps the best score
  per user (the first maximal result wins), sorts by score descending and keeps
  ten.
- **Exam storage** (`exams.dfy`). `createExam` either encrypts each question or
  keeps one that already looks encrypted. `getExam`'s `map` callback decrypts
  each question and projects it with layered `??` defaults (`GetExam`).
  - What `getExam` then sends is modelled separately (`GetExamResponse`).
    Mongoose refuses to store the projected objects in the `[String]` path,
    so the client receives the ciphertexts (see Findings).
- **Sessions** (`sessions.dfy`, `sessions_props.dfy`). The handlers are store
  transitions over users, refresh-token documents and the revoked
  access-token list: `register`, `login`, `refresh` (rotation),
  `revokeSession`, `revokeAllSessions`, `logout`, and the `protect`
  middleware.
- **Admin listings** (`admin.dfy`, `admin_props.dfy`). `listResults` and
  `listAuditLogs` accumulate validation errors. They parse the sort string,
  read and clamp page and limit, compute skip and the page count, and merge
  the score and date bounds.
- **Results export** (`export.dfy`, `export_props.dfy`). This covers the
  `--key=value` argument parser, the environment-over-argument filter, the
  `safe` CSV cell, the row builder and the header line. The CSV is read back
  with the quoted-field rules of section 2 of RFC 4180.

`js.dfy` holds the JavaScript semantics the modules share:
- JSON values, property access, `??`, truthiness and `String()`;
- `trim`, `toLowerCase` (A–Z only, see Left out) and `includes`;
- `split` on a single character.

`codec.dfy` holds the uninterpreted collaborators. These are AES
encrypt/decrypt, `JSON.parse`/`JSON.stringify` and number printing.
- Decryption is partial: `None` stands for CryptoJS throwing "Malformed UTF-8
  data".
- Their laws are predicates (`SoundCipher`, `SoundJson`) that lemmas take as
  preconditions.

JWT and bcrypt are the functions of `Sessions.Auth`, evaluated at an integer
clock. `Number()`, `Date.parse` and `mongoose.isValidObjectId` are the
functions of `Admin.Coercions`.

The source's integers and doubles are modelled as unbounded `int` and exact
`real`.

Two behaviours of the code that the model keeps as written:

- **Refresh-token collision.** `refresh` saves the old session as revoked
  before it creates the new one. A new token equal to a stored one (the same
  user rotating twice within one second signs the same JWT) breaks the unique
  index. The caught error answers 401, so the user is left with no live
  session (`SessionProps.RefreshCollisionRevokes`). `login` does not catch the
  same error at all.
- **No lower clamp on partial credit.** A negative partial score makes
  `awarded` negative (`ScoringProps.NegativeScoreIsNotClamped`).

## Model

| member | source | states |
|---|---|---|
| Scoring.VerifyAndSave | secure-online-exam-system/server/controllers/resultController.js:10-38 | 400 exactly when `examId` is missing or falsy or `answers` is not an array; 404 exactly when the exam id names no stored exam; failure exactly when some stored question of that exam does not decrypt; then a thrown TypeError exactly when some element of `answers` is `null` or `undefined`; otherwise the scored outcome of its decrypted questions and the answer objects |
| ScoringProps.NullElementThrows | secure-online-exam-system/server/controllers/resultController.js:12-37 | `[null]` passes the 400 check, and any `null` or `undefined` element makes the scoring `map` throw before anything is handed to `Result.create` |
| ScoringProps.ObjectsAreScored | secure-online-exam-system/server/controllers/resultController.js:10-86 | an array of answer objects for an exam whose questions decrypt is scored exactly as `Score` of those answers |
| ScoringProps.UndecryptableQuestionFails | secure-online-exam-system/server/controllers/resultController.js:21-31 | one stored question that does not decrypt fails the submission whatever the answers, because the `catch` decrypts it again |
| ScoringProps.LegacyQuestion | secure-online-exam-system/server/controllers/resultController.js:21-31 | a question that decrypts to a plaintext that is not JSON decodes to a legacy question with the plaintext as correct answer and weight 1 |
| ScoringProps.NonObjectQuestion | secure-online-exam-system/server/controllers/resultController.js:25-39 | a plaintext that parses to JSON other than an object (such as `42`) has no correct answer, weight 1, and earns 0 for any answer |
| ScoringProps.OutOfRangeEarnsNothing | secure-online-exam-system/server/controllers/resultController.js:37-47 | an answer naming an index outside the exam gets correct answer `null`, weight 1 and 0 points |
| ScoringProps.ExactMatchEarnsWeight | secure-online-exam-system/server/controllers/resultController.js:45-46 | a trimmed, case-sensitive match with a non-null correct answer earns exactly the weight, whatever partial rules the question has |
| ScoringProps.NoPartialsEarnsNothing | secure-online-exam-system/server/controllers/resultController.js:42-57 | with no exact match and no `partials` array the answer earns 0 |
| ScoringProps.RuleCreditApplies | secure-online-exam-system/server/controllers/resultController.js:50-53 | one rule adds score times weight exactly when its `match` is a string that occurs in the answer once both are lower-cased (A–Z only), and nothing otherwise |
| ScoringProps.PartialSumIsMatchingScore | secure-online-exam-system/server/controllers/resultController.js:49-54 | the partials loop's sum equals the weighted sum of the scores of the rules that apply, in order; a non-numeric score counts 0 |
| ScoringProps.PartialCreditCapped | secure-online-exam-system/server/controllers/resultController.js:47-57 | without an exact match, the award is the matching rules' weighted sum capped at the weight, so never above it |
| ScoringProps.AwardWithinWeight | secure-online-exam-system/server/controllers/resultController.js:42-57 | with a non-negative weight and rule scores in 0..1 the award lies between 0 and the weight |
| ScoringProps.NegativeScoreIsNotClamped | secure-online-exam-system/server/controllers/resultController.js:52-56 | a rule with score -1 and weight 2 awards -2: there is no lower clamp |
| ScoringProps.SubmittedFirst | secure-online-exam-system/server/controllers/resultController.js:36-68 | the k-th record is the k-th submitted answer's record: submitted records come first, in submission order |
| ScoringProps.PaddedAfter | secure-online-exam-system/server/controllers/resultController.js:70-78 | every record after the submitted ones has answer `null`, 0 points and an exam index no answer names, taken in ascending order |
| ScoringProps.RecordsCoverExam | secure-online-exam-system/server/controllers/resultController.js:72-78 | every exam index 0..n-1 has a record |
| ScoringProps.RecordCount | secure-online-exam-system/server/tests/smokeVerify.js:41-72 | the record count is the answer count plus the number of unanswered exam indices |
| ScoringProps.ScoreIsSumOfAwarded | secure-online-exam-system/server/controllers/resultController.js:59-84 | the score is the sum of the awards of all records, the padded ones adding nothing |
| ScoringProps.TotalIgnoresAnswerText | secure-online-exam-system/server/tests/smokeVerify.js:42-70 | two submissions naming the same indices in the same order have the same total, whatever the answers say |
| ScoringProps.DuplicatesCountTwice | secure-online-exam-system/server/controllers/resultController.js:36-78 | an answer naming an index the submission already names adds its own record, its award to the score and the question's weight to the total once more, and the padded records stay the same |
| ScoringProps.SameAnswerTwice | secure-online-exam-system/server/controllers/resultController.js:36-59 | `[a, a]` on a one-question exam gives two records, twice the award and twice the weight |
| ScoringProps.SmokeTotalIsStoredWeights | secure-online-exam-system/server/tests/smokeVerify.js:65-70 | with the smoke test's padding every record's weight is a number and the total is the sum of those weights |
| ScoringProps.ControllerPaddingMismatch | secure-online-exam-system/server/controllers/resultController.js:74-76 | with the controller's padding, an unanswered question of weight `"2"` is handed on with the string weight `"2"` while the total counts 1 |
| Scoring.AnswerPoints | secure-online-exam-system/server/controllers/resultController.js:42-57 | the exact-match test and the partials loop compute the reference award |
| Scoring.ScoreAnswers | secure-online-exam-system/server/controllers/resultController.js:33-68 | the `answers.map` loop builds one record per answer and accumulates the awards and the numeric weights of the named indices |
| Scoring.HasRecordFor | secure-online-exam-system/server/controllers/resultController.js:73 | the search finds a record exactly when some record carries the index |
| Scoring.PadMissing | secure-online-exam-system/server/controllers/resultController.js:70-78 | the padding loop appends a padded record for each unanswered index, ascending, and adds their weights to the total |
| Scoring.ScoreSubmission | secure-online-exam-system/server/controllers/resultController.js:33-78 | the handler's loops together compute the reference `Score` |
| Scoring.MissingComplete | secure-online-exam-system/server/controllers/resultController.js:72-73 | every exam index no answer names is among the padded indices |
| ScoringFixture.DecodesTo | secure-online-exam-system/server/tests/smokeVerify.js:4-35 | the three fixture ciphertexts decode to the legacy answer `A` and the two JSON metadata objects |
| ScoringFixture.SecondAnswer | secure-online-exam-system/server/tests/smokeVerify.js:82 | `photo process` earns 0.5 × 2 = 1 on the photosynthesis question |
| ScoringFixture.SmokeFixture | secure-online-exam-system/server/tests/smokeVerify.js:80-96 | the fixture scores 2 out of 6 with three records under either padding |
| Leaderboard.LeaderboardShape | secure-online-exam-system/server/controllers/resultController.js:105-121 | at most ten rows, exactly min(10, users with a result); sorted by score descending; one row per user |
| Leaderboard.LeaderboardRowsAreBest | secure-online-exam-system/server/controllers/resultController.js:105-117 | every row is its user's highest-scoring result, and the earliest one among equals |
| Leaderboard.LeaderboardIsTop | secure-online-exam-system/server/controllers/resultController.js:105-121 | a user with a result is on the board, or the board is full and its tenth row scores at least that result |
| Leaderboard.SortDescending | secure-online-exam-system/server/controllers/resultController.js:119-120 | the insertion sort orders the entries by score, highest first |
| Leaderboard.ReduceDistinct | secure-online-exam-system/server/controllers/resultController.js:105-117 | the map of best results holds each user at most once |
| Exams.StoreOne | secure-online-exam-system/server/controllers/examController.js:5-11 | a string with the ciphertext prefix is kept, another string is encrypted, an object is encrypted as its JSON text |
| Exams.CreateExam | secure-online-exam-system/server/controllers/examController.js:5-12 | the stored list has the input's length and order |
| Exams.CreateExamIdempotent | secure-online-exam-system/server/controllers/examController.js:6-7 | storing the stored questions again changes nothing, given that every ciphertext has the prefix |
| Exams.StoredObjectReadsBack | secure-online-exam-system/server/controllers/examController.js:8-36 | the `map` callback turns an object stored by `createExam` back into its projection |
| Exams.CreatedExamReadsBack | secure-online-exam-system/server/controllers/examController.js:5-36 | for an exam of objects stored by `createExam`, the callback's array is the projections of the objects, in order |
| Exams.StoredTextReadsBack | secure-online-exam-system/server/controllers/examController.js:11-46 | the callback turns a stored plain-text question into the subjective fallback with the text as prompt |
| Exams.FallbackExact | secure-online-exam-system/server/controllers/examController.js:37-46 | the callback turns an unparsable or `null` plaintext into exactly the fallback fields |
| Exams.PrefixedNonCiphertextBreaksGetExam | secure-online-exam-system/server/controllers/examController.js:7-25 | a string with the ciphertext prefix that does not decrypt is stored as it is, and `getExam` then throws on that exam |
| Exams.PresentFieldsKept | secure-online-exam-system/server/controllers/examController.js:28-35 | the projection keeps each field that is present and not nullish |
| Exams.SecondChoices | secure-online-exam-system/server/controllers/examController.js:32-33 | `answer` stands in for a nullish `correctAnswer`, `points` for a nullish `weight` |
| Exams.InferredType | secure-online-exam-system/server/controllers/examController.js:30 | a missing type is `mcq` exactly when `options` is a non-empty array, `subjective` otherwise |
| Exams.AutoGradeIgnoresInferredType | secure-online-exam-system/server/controllers/examController.js:34 | a missing `autoGrade` is true exactly when the stored type is not `subjective`, so an inferred subjective question is still auto-graded |
| Exams.EmptyObjectDefaults | secure-online-exam-system/server/controllers/examController.js:28-35 | the projection of `{}` has every default |
| Exams.GetExam | secure-online-exam-system/server/controllers/examController.js:24-48 | the callback's array: exactly when every stored question decrypts, one projected question per stored one, in order |
| Exams.GetExamResponse | secure-online-exam-system/server/controllers/examController.js:24-49 | as written, the response carries the stored ciphertexts unchanged, and fails exactly when the callback does |
| Exams.ResponseSendsCiphertext | secure-online-exam-system/server/controllers/examController.js:24-49 | for a stored object, the callback computes its projection, yet the client receives its prefixed ciphertext |
| Sessions.Register | secure-online-exam-system/server/controllers/authController.js:8-15 | a taken e-mail gets 409 and no change; otherwise exactly the new user is appended |
| Sessions.Login | secure-online-exam-system/server/controllers/authController.js:18-39 | 401 with no change exactly when the e-mail is unknown or the password does not match; an unhandled failure with no change exactly when, past that check, the new refresh token equals a stored one (the unique index); success replies with `signAccess` of that user and appends exactly one live session for the user holding the issued refresh token, expiring at the token's `exp` times 1000, or seven days from now without one |
| Sessions.Refresh | secure-online-exam-system/server/controllers/authController.js:42-46 | no cookie gets 400 and no live session with that token gets 401, both with no change |
| Sessions.RevokeSession | secure-online-exam-system/server/controllers/authController.js:91-99 | 404 with no change exactly when no session has that id and owner |
| Sessions.RevokeAll | secure-online-exam-system/server/controllers/authController.js:102-106 | always answers "All sessions revoked" and touches only sessions |
| Sessions.RevokeAllOf | secure-online-exam-system/server/controllers/authController.js:104 | the user's sessions become revoked and every other session is unchanged |
| Sessions.Logout | secure-online-exam-system/server/controllers/authController.js:109-128 | no bearer token gets 400 with no change; a failure changes nothing; users are never touched |
| Sessions.Protect | secure-online-exam-system/server/middleware/authMiddleware.js:4-19 | an admitted request carries the claims of some unlisted token that verifies |
| SessionProps.HandleLater | secure-online-exam-system/server/models/RefreshToken.js:3-8 | every handler only appends sessions, keeps their id, token and owner, never un-revokes one, and keeps tokens unique |
| SessionProps.RunLater | secure-online-exam-system/server/controllers/authController.js:8-128 | any sequence of requests keeps the same invariant |
| SessionProps.RevokedStaysDead | secure-online-exam-system/server/controllers/authController.js:45-58 | after any requests, a revoked session's token never passes the refresh lookup again |
| SessionProps.RegisterThenLogin | secure-online-exam-system/server/controllers/authController.js:10-29 | a freshly registered user logs in with the right password and owns the new session |
| SessionProps.SecondLoginCollides | secure-online-exam-system/server/controllers/authController.js:18-29 | a second login by the same user at the same instant signs the same refresh token, so its `create` fails unhandled and nothing changes |
| SessionProps.RefreshRotates | secure-online-exam-system/server/controllers/authController.js:45-60 | success revokes the old session and points it at the new token, appends one live session for the same user, changes nothing else, and the old token no longer passes the lookup |
| SessionProps.RefreshRefusedUnchanged | secure-online-exam-system/server/controllers/authController.js:48-72 | a failed verification or a missing user answers 401 with the store unchanged, so the old session is not revoked |
| SessionProps.RefreshCollisionRevokes | secure-online-exam-system/server/controllers/authController.js:54-72 | when the new token equals the old one the caller gets 401 and the old session is revoked anyway |
| SessionProps.RevokeSessionFrame | secure-online-exam-system/server/controllers/authController.js:94-97 | success revokes exactly the caller's session with that id and leaves everything else unchanged |
| SessionProps.RevokeAllFrame | secure-online-exam-system/server/controllers/authController.js:104 | all of the caller's sessions are revoked and other users' sessions are unchanged |
| SessionProps.RevokeAllIdempotent | secure-online-exam-system/server/controllers/authController.js:104 | revoking all twice equals revoking all once |
| SessionProps.LogoutRecords | secure-online-exam-system/server/controllers/authController.js:110-121 | the token is listed until `exp`×1000, or one hour from now when it has none, and all sessions of the user it names are revoked |
| SessionProps.LogoutThenProtect | secure-online-exam-system/server/middleware/authMiddleware.js:11-12 | until its entry expires, a logged-out token is refused as revoked |
| SessionProps.ProtectNoToken | secure-online-exam-system/server/middleware/authMiddleware.js:5-8 | with neither a header token nor a cookie token the request is refused with "No token" |
| SessionProps.ProtectPrefersHeader | secure-online-exam-system/server/middleware/authMiddleware.js:5-7 | with a header token, the cookie does not matter |
| SessionProps.ProtectDecision | secure-online-exam-system/server/middleware/authMiddleware.js:11-19 | a listed token is refused before verification; otherwise admitted exactly when it verifies, with `req.user` the verified claims |
| SessionProps.RevocationExpires | secure-online-exam-system/server/models/RevokedToken.js:8-9 | once its expiry time is reached, a listed token is no longer refused as revoked |
| SessionProps.BearerOfHeader | secure-online-exam-system/server/middleware/authMiddleware.js:5 | `Bearer t` and `Bearer t rest` both present the token `t` |
| SessionProps.NoSpaceNoBearer | secure-online-exam-system/server/controllers/authController.js:110-111 | a header without a space presents no token |
| AdminProps.ResultsRejectedIff | secure-online-exam-system/server/controllers/adminController.js:10-43 | the listing is refused exactly when some check fails, and then the errors are all the failed checks' messages, in order |
| AdminProps.ResultsChecksIff | secure-online-exam-system/server/controllers/adminController.js:13-35 | each check's message is reported exactly when that check fails |
| AdminProps.ResultsSortProblem | secure-online-exam-system/server/controllers/adminController.js:37-41 | a sort error is reported exactly when the sort check finds a bad term, and it names a term that fails the pattern |
| AdminProps.SortRejection | secure-online-exam-system/server/controllers/adminController.js:37-41 | the sort is refused exactly when it is given and some trimmed, non-empty part fails `^-?[A-Za-z0-9_]+$` |
| AdminProps.SortNamesFirst | secure-online-exam-system/server/controllers/adminController.js:38-40 | the error names the first failing part |
| AdminProps.AuditChecksIff | secure-online-exam-system/server/controllers/adminController.js:80-100 | each audit check's message is reported exactly when it fails, and the listing is refused exactly when one does |
| AdminProps.LimitMessages | secure-online-exam-system/server/controllers/adminController.js:17-20 | the limit messages read "between 1 and 100" and "between 1 and 500" |
| AdminProps.ResultsSlice | secure-online-exam-system/server/controllers/adminController.js:43-47 | an accepted listing pages with the page and limit as read, skipping the pages before |
| AdminProps.ResultsWindow | secure-online-exam-system/server/controllers/adminController.js:45-47 | page at least 1, limit in 1..100, skip = (page-1)×limit ≥ 0, defaults page 1 and limit 20 |
| AdminProps.AuditSlice | secure-online-exam-system/server/controllers/adminController.js:100-113 | an accepted audit listing pages with the page and limit as read and sorts newest first |
| AdminProps.AuditWindow | secure-online-exam-system/server/controllers/adminController.js:102-104 | page at least 1, limit in 1..500, skip = (page-1)×limit ≥ 0, defaults page 1 and limit 50 |
| AdminProps.PagesCover | secure-online-exam-system/server/controllers/adminController.js:75 | the page count is the least positive number of pages that holds all rows, and 1 when there are none |
| AdminProps.PagesOfNaN | secure-online-exam-system/server/controllers/adminController.js:114 | a NaN limit gives one page |
| AdminProps.ScoreBoundsMerge | secure-online-exam-system/server/controllers/adminController.js:52-53 | `minScore` and `maxScore` each set their own bound of one score range, neither clobbering the other |
| AdminProps.DateBoundsMerge | secure-online-exam-system/server/controllers/adminController.js:54-55 | `from` and `to` each set their own bound of one date range |
| AdminProps.IdFilters | secure-online-exam-system/server/controllers/adminController.js:22-51 | the exam and user filters are present exactly when given, and then hold valid ObjectIds |
| AdminProps.ParseSortLast | secure-online-exam-system/server/controllers/adminController.js:58-68 | each field other than `__proto__` has the direction of its last term (`-f` gives -1, `f` gives 1), `__proto__` is never set, blank parts are skipped, and each field appears once |
| AdminProps.SetKeyLookup | secure-online-exam-system/server/controllers/adminController.js:64-66 | `sort[g] = d` makes `g` read `d` and leaves every other field as it was, except that assigning `__proto__` sets nothing |
| AdminProps.ProtoSortIsEmpty | secure-online-exam-system/server/controllers/adminController.js:37-68 | `sort=__proto__` passes the pattern and leaves the sort object empty |
| AdminProps.DefaultSort | secure-online-exam-system/server/controllers/adminController.js:58 | without a sort the listing is newest first |
| AdminProps.ParseNatText | secure-online-exam-system/server/controllers/adminController.js:45-46 | `parseInt` reads the decimal text of n as n |
| AdminProps.ReadingsAgreeOnDecimals | secure-online-exam-system/server/controllers/adminController.js:17-46 | for a plain decimal limit, re-parsing with `parseInt` and using the validated number agree |
| AdminProps.ExponentLimitAsWritten | secure-online-exam-system/server/controllers/adminController.js:17-46 | `limit=1e2` passes validation as 100 but pages by 1 |
| AdminProps.ValidatedLimitIsChecked | secure-online-exam-system/server/controllers/adminController.js:17-20 | read as validated, the limit is the integer validation checked |
| AdminProps.ValidatedPageIsChecked | secure-online-exam-system/server/controllers/adminController.js:13-16 | read as validated, the page is the integer validation checked |
| ExportProps.ArgRoundTrip | secure-online-exam-system/server/scripts/exportResults.js:15-18 | `--k=v` sets `k` to `v` |
| ExportProps.ArgDropsAfterSecondEquals | secure-online-exam-system/server/scripts/exportResults.js:16 | text after a second `=` is dropped |
| ExportProps.ArgWithoutValue | secure-online-exam-system/server/scripts/exportResults.js:16-17 | an argument without `=` sets its key to the empty string |
| ExportProps.ArgvLastWins | secure-online-exam-system/server/scripts/exportResults.js:15-18 | a key's value is that of its last argument, and absent when no argument has it |
| ExportProps.EnvBeatsArgv | secure-online-exam-system/server/scripts/exportResults.js:21-27 | a non-empty environment variable decides its filter field whatever the arguments say |
| ExportProps.ArgvFallsBack | secure-online-exam-system/server/scripts/exportResults.js:21-25 | with the variable unset, a non-empty argument decides |
| ExportProps.ScoreBoundsMerge | secure-online-exam-system/server/scripts/exportResults.js:24-25 | a minimum from the environment and a maximum from the arguments merge into one range |
| Export.Safe | secure-online-exam-system/server/scripts/exportResults.js:58-62 | every cell is at least two characters, quoted at both ends |
| ExportProps.UnquoteSafe | secure-online-exam-system/server/scripts/exportResults.js:58-62 | unquoting a cell gives back its text; `null` and `undefined` give the empty field `""` |
| ExportProps.ReadEscaped | secure-online-exam-system/server/scripts/exportResults.js:61 | a text with its quotes doubled, then a closing quote, reads back as the text |
| ExportProps.RowReadsBack | secure-online-exam-system/server/scripts/exportResults.js:75 | a row of quoted cells joined by commas and ended by a line break reads back as the cells |
| ExportProps.ResultRowReadsBack | secure-online-exam-system/server/scripts/exportResults.js:64-75 | every exported result is one line of nine fields that read back as its cells in header order |
| ExportProps.HeaderColumns | secure-online-exam-system/server/scripts/exportResults.js:46-48 | the header line splits on commas into the nine column names |
| Js.SplitJoin | secure-online-exam-system/server/scripts/exportResults.js:16 | joining the parts of `split` with the separator gives the text back |
| Js.JoinSplit | secure-online-exam-system/server/scripts/exportResults.js:16 | splitting parts joined by a separator they do not contain gives the parts back |

## Left out

- AES, JWT and bcrypt are uninterpreted functions. Their soundness is stated as preconditions (`SoundCipher`, `SoundJson`) and is not proved. Which texts fail to decrypt is also a parameter: `Runtime.decrypt` returns `None` for them.
- `JSON.parse`, `JSON.stringify`, `String(n)` for numbers, `Number()`, `Number.isInteger`, `Date.parse` and `mongoose.isValidObjectId` are parameters. Their outcomes are taken as given rather than re-implemented.
- JavaScript doubles are exact reals: rounding is not modelled, and neither is the smoke test's 1e-6 tolerance.
- `Number()` of a non-integer or infinite limit: `Infinite` is kept as a value, but `Math.min`/`Math.max` on infinities are not reached, because validation refuses them first.
- `questionIndex` is an integer. A non-integer or non-numeric index (which would read an array property or `undefined`) is not modelled, nor is a primitive element such as `5` (whose `questionIndex` is `undefined`); `null` and `undefined` elements are modelled and throw.
- Numbers and booleans as `createExam` questions: `Codec.Runtime.encryptOther` stands for what CryptoJS does with them. No law is stated for it.
- Concurrency: rotation's find-then-save is not atomic in the source. The model runs requests one after another.
- The database itself is left out: sorting by score before the leaderboard reduction, population, the `countDocuments` total and ObjectId cast errors. The leaderboard properties hold for the results in any order.
- `createExam` with a missing or non-array `req.body.questions`, and `getExam` on an unknown exam id, both throw a `TypeError`; neither is modelled.
- AuditLog writes, cookies, cookie options, HTTP status plumbing, `me` and `listSessions` are outside this model.
- `models/User.js` is not part of this model. A user is id, name, e-mail and password hash; the role travels only inside the signed token.
- `routes/authRoutes.js` has a legacy login/me/logout that bypasses the refresh-token store. It is not modelled.
- `validation/adminValidation.js` (a Joi schema that overlaps the hand-written checks) and `cleanupTestData` are not modelled.
- AdminProps.ParseSortLast: a sort object is kept in insertion order. JavaScript objects list integer-like keys (`sort=1`) first, and this is not modelled.
- ScoringProps.RuleCreditApplies: case folding covers A–Z only. `toLowerCase` folds all of Unicode, so the answer `"ÉTÉ"` against the rule `"été"` earns the rule's score in the source and 0 in the model.
- Scoring.VerifyAndSave: `Saved` holds the figures handed to `Result.create`. The Result schema's casts are not modelled: String for `answer` and `correctAnswer`, Number for `weight`. An object or array answer, or a padded weight like `"abc"`, makes the create reject where the model reports `Saved`. A weight `"2"` is saved as 2.
- Exams.GetExamResponse: the response rests on Mongoose's rule that an assignment failing the path's cast records a CastError and keeps the old value. That rule is not in the server's own files.
- In the export script, the e-mail → user lookup, the output file name from `Date.now()`, the write stream and `toISOString` are not modelled. `toISOString` is a parameter of `Export.Cells`.
- `new Date(x)` in the export filter is not validated by the script. An invalid date is kept as `None` in the bound.
- The TTL purge of revoked tokens is instantaneous: an entry whose expiry has passed is treated as gone.
- Sessions.Protect: its own contract states only that admitted claims come from a verifying, unlisted token. The full decision is stated by `SessionProps.ProtectDecision`.
- Sessions.Refresh: its own contract covers only the 400 and 401 lookups. Rotation, verification failures and collisions are stated by `SessionProps.RefreshRotates`, `SessionProps.RefreshRefusedUnchanged` and `SessionProps.RefreshCollisionRevokes`.

## Findings

| source | as written | input that shows it | evidently intended | confidence | as-written member | corrected member |
|---|---|---|---|---|---|---|
| secure-online-exam-system/server/controllers/resultController.js:74-76 | a padded record carries `meta.weight ?? 1` but adds the numeric-defaulted weight to the total | a question whose metadata has `weight: "2"`, left unanswered: the record hands `"2"` to `Result.create`, which saves 2, while the total grows by 1 | the padded record stores the same numeric weight it adds to the total, as the smoke test's copy does | medium, not executed | ScoringProps.ControllerPaddingMismatch | ScoringProps.SmokeTotalIsStoredWeights |
| secure-online-exam-system/server/controllers/adminController.js:17-20 | `limit` is validated with `Number()` but then read with `parseInt` | `limit=1e2` passes validation as 100 and pages by 1 | the listing uses the integer that validation accepted | medium, not executed | AdminProps.ExponentLimitAsWritten | AdminProps.ValidatedLimitIsChecked |
| secure-online-exam-system/server/controllers/examController.js:24 | the projected question objects are assigned to `exam.questions`, declared `[String]` in `models/Exam.js`; the cast refuses them and `res.json(exam)` sends the stored ciphertexts | any exam with one question stored from `{prompt: "p"}`: the client receives `U2FsdGVkX1…` instead of the projected question | the client receives the projected questions | low, not executed; it rests on Mongoose's cast-on-assignment rule | Exams.ResponseSendsCiphertext | Exams.CreatedExamReadsBack |
