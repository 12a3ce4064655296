# Clearing late and missing flags in Canvas LMS, modelled in Dafny

Two browser userscripts walk a course's assignments, quizzes or discussion topics through the
Canvas REST API, read the submissions of each item and send PUT requests that set a
submission's `late_policy_status`:

- `fix-late/FixLateAssignments.user.js` removes the late penalty (`'none'`) from every late
  submission. It counts the successful writes in `totalUpdated` and collects an `errors` list.
- `fix-missing/FixMissingAssignments.user.js` is the older combined script. A `config` object
  (`missing`, `null_missing`, `zero_missing`, `late`, `reset`) decides per submission whether to
  write `'none'` or to reset the status to `null`. Assignment ids are fetched in chunks.

The model keeps each script's own structure:

- `js.dfy` (`Js`): the JavaScript built-ins the scripts rely on, such as nullable values,
  truthiness, `split`/`join`, `trim`, `includes`, the layout of a cookie entry and decimal
  rendering.
- `canvas.dfy` (`Canvas`): the API records, reduced to the fields the scripts read.
- `fix_late.dfy` (`FixLate`): the pure parts of fix-late. This covers `getNextUrl`,
  `checkItem`, `processItems` (a method with the script's nested loops), `processSingleItem`,
  the choice of assignment id in `getSubmissions`, `getCsrfToken`'s cookie fallback and the
  outcome of `putAPI`.
- `fix_late_run.dfy` (`FixLateRun`): a run of fix-late.
  - The script's module-level state is the class `LateFixer`, whose fields `totalUpdated`,
    `errors` and `sent` are updated in place.
  - Each of its methods (`removeLatePenalty`, `processSubmissions`, the submissions walk,
    `getSubmissions`, the list walk, `fix_late`) is proved against a specification function
    of the old state.
  - Lemmas about those functions state what a run reports.
- `fix_missing.dfy` (`FixMissing`): `getCookie`, the next-page regex, the decision rule of
  `processSubmissions` (function and loop), `checkAssignment`, `processAssignments`, the
  chunking loop of `getSubmissions`, and the top-level choice of the list URL.
- `fix_missing_run.dfy` (`FixMissingRun`): `main()` with its list walk, chunk walks and
  submission walks, as methods that return the PUT requests issued and how the walk settled.
  Lemmas relate each walk to one `getAPI` walk that is generic in its page processing
  (`Visited`, `WalkOutcome`): which PUTs the walk issues and how it settles.

The network is an input:

- Each walk receives its responses as a sequence in request order. A response is a body plus
  a `Link` header, or a failure. For fix-missing it also has a status.
- Each PUT's reply comes from a function of (assignment id, user id).
- `decodeURIComponent` is a function parameter.

`Promise.all` fan-outs run one after the other. Every sibling walk or write still runs,
because nothing cancels them, and the fan-out settles with the first failure in order.

Behaviour of the scripts that the model keeps as the code has it:

- fix-late reads every response body as data. It has no `res.ok` check
  (fix-late/FixLateAssignments.user.js:207-211).
- fix-late writes to every late submission, excused or not.
- fix-late queries a discussion topic's own id rather than its `assignment_id`. Its
  `checkItem` also reads the topic's top-level `due_at`.
- fix-late's summary reports only `totalUpdated` and all errors. It has no attempt count and
  no cap on the number of error messages.
- fix-missing sends its PUTs even without a CSRF cookie, with an empty token.
- fix-missing's item filter uses a fixed list of excluded submission types; it is not configurable.

## Model

| member | source | states |
|---|---|---|
| Js.Split | fix-late/FixLateAssignments.user.js:226 | `split` on one character yields at least one piece, and no piece contains the separator |
| Js.SplitJoin | fix-late/FixLateAssignments.user.js:226 | joining the pieces of a split with the separator gives the original string back |
| Js.JoinSplit | fix-late/FixLateAssignments.user.js:226 | splitting a join of separator-free pieces gives the pieces back |
| Js.Trim | fix-late/FixLateAssignments.user.js:388 | `trim` yields the middle slice: everything cut off is white space, and the result neither starts nor ends with white space |
| Js.CookieLayout | fix-late/FixLateAssignments.user.js:388 | a trimmed cookie entry starts with its name, `=` and its value (the value ending at the next `=`), or is exactly its name when it has no value |
| Js.NatToDecimal | fix-late/FixLateAssignments.user.js:341 | a rendered id is a non-empty string of decimal digits without a leading zero |
| Js.DecimalRoundTrip | fix-late/FixLateAssignments.user.js:341 | reading the rendered digits back gives the number |
| FixLate.FindNext | fix-late/FixLateAssignments.user.js:227 | `find` returns the first segment containing `rel="next"`, and none when no segment contains it |
| FixLate.AngleMatchFrom | fix-late/FixLateAssignments.user.js:229 | the capture of `/<(.*)>/` consists of characters of the segment and holds no line terminator |
| FixLate.AngleMatchFromIsSpan | fix-late/FixLateAssignments.user.js:229-230 | on a segment without line terminators, the regex capture is exactly the text between the first `<` and the last `>` |
| FixLate.GetNextUrl | fix-late/FixLateAssignments.user.js:224-231 | null for an absent or empty header, and null when no comma-separated segment contains `rel="next"`; a result never contains a comma |
| FixLate.GetNextUrlIsFirstSpan | fix-late/FixLateAssignments.user.js:224-231 | for a header without CR/LF, the result is the span between `<` and `>` of the FIRST segment containing `rel="next"` |
| FixLate.CheckItem | fix-late/FixLateAssignments.user.js:288-295 | returns `item.id` exactly when `published` and `due_at` are both truthy, null otherwise |
| FixLate.Eligible | fix-late/FixLateAssignments.user.js:271-276 | every emitted target comes from the input, carries the page's type and its own id, and passed `checkItem` with a truthy id |
| FixLate.EligibleAppend | fix-late/FixLateAssignments.user.js:262-269 | filtering a concatenation of groups is concatenating the filtered groups, so group-then-assignment order is kept |
| FixLate.EligibleComplete | fix-late/FixLateAssignments.user.js:271-276 | every item that passes `checkItem` with a truthy id is emitted |
| FixLate.ItemTargets | fix-late/FixLateAssignments.user.js:258-285 | `processItems` fails exactly when an assignments page is a non-empty array of items rather than groups; every target it yields passes `checkItem`; a non-array body is read as one item |
| FixLate.PushEligible | fix-late/FixLateAssignments.user.js:271-276 | the `forEach` loop appends exactly the eligible items, in order, to `itemIds` |
| FixLate.ProcessItems | fix-late/FixLateAssignments.user.js:258-285 | the nested `forEach` loops over groups and assignments compute the reference reading `ItemTargets` |
| FixLate.SingleItemTargets | fix-late/FixLateAssignments.user.js:249-256 | a single-item page yields its item exactly when it passes `checkItem`, and nothing otherwise |
| FixLate.QueryId | fix-late/FixLateAssignments.user.js:297-312 | a quiz queries its `assignment_id`, or makes no request when that is falsy; every other item queries its own id |
| FixLate.FirstNamed | fix-late/FixLateAssignments.user.js:386-392 | the cookie loop stops at the first entry whose trimmed name is the one sought |
| FixLate.CsrfFromEntries | fix-late/FixLateAssignments.user.js:385-393 | the cookie fallback is null exactly when no entry is named `_csrf_token`; otherwise it is the decoded value of the first such entry |
| FixLate.CsrfFromCookies | fix-late/FixLateAssignments.user.js:385-393 | the cookie fallback on `document.cookie` is null exactly when none of its `;`-separated entries is named `_csrf_token`; a token found means the cookie string contains that name |
| FixLate.GetCsrfToken | fix-late/FixLateAssignments.user.js:380-394 | the meta element's `content` wins when the element exists; otherwise the cookie fallback applies |
| FixLate.PutApi | fix-late/FixLateAssignments.user.js:345-378 | without a truthy token nothing is sent and the call rejects with "CSRF token not found"; otherwise the request is sent and fulfils exactly on a 2xx status; a non-2xx status or a failed request rejects with its cause |
| FixLate.CauseText | fix-late/FixLateAssignments.user.js:350 | the text of a rejection `putAPI` raises itself starts with `Error: `; a rejection from the request passes through with its own text |
| FixLate.CauseTextNamesStatus | fix-late/FixLateAssignments.user.js:366 | the status can be read back from the text of an HTTP failure; the missing-token text names no status |
| FixLate.WriteFailureText | fix-late/FixLateAssignments.user.js:341 | a failed write's error starts with `Failed to update submission ` followed by a digit |
| FixLate.WriteFailureNamesSubmission | fix-late/FixLateAssignments.user.js:341 | the submission id can be read back from a failed write's error (`WriteFailureSubmission`: the digits between the prefix and the first `:`), so each error names the submission it is about |
| FixLateRun.RemoveLatePenaltySpec | fix-late/FixLateAssignments.user.js:328-351 | with a token, one PUT `late_policy_status: 'none'` on (assignment, user) is sent; a fulfilled write adds exactly 1 to `totalUpdated`; a rejected one appends exactly one error naming the submission and leaves `totalUpdated` unchanged; that error carries the cause: the missing token (no request sent), the non-2xx status, or the failed request's error |
| FixLateRun.LateOnes | fix-late/FixLateAssignments.user.js:321 | `filter(s => s.late)` keeps only late submissions of the input, and no more of them than the input has |
| FixLateRun.LateOnesComplete | fix-late/FixLateAssignments.user.js:321 | every late submission of the input is kept |
| FixLateRun.LateOnesAppend | fix-late/FixLateAssignments.user.js:321 | the filter distributes over concatenation and keeps a single submission exactly when it is late, so it keeps input order and multiplicity |
| FixLateRun.LatePuts | fix-late/FixLateAssignments.user.js:321-335 | one `'none'` PUT per late submission, in input order |
| FixLateRun.ProcessSubmissionsSends | fix-late/FixLateAssignments.user.js:319-336 | with a token, `processSubmissions` sends exactly one `'none'` PUT per late submission, addressed by (assignment_id, user_id), in input order |
| FixLateRun.ProcessSubmissionsWithoutToken | fix-late/FixLateAssignments.user.js:345-351 | without a token nothing is sent or counted, and each late submission gets its own "CSRF token not found" error |
| FixLateRun.ProcessSubmissionsConserves | fix-late/FixLateAssignments.user.js:319-343 | each late submission ends as exactly one update or exactly one error, and submissions that are not late change nothing |
| FixLateRun.ProcessSubmissionsAppend | fix-late/FixLateAssignments.user.js:319-326 | processing two pages one after the other is processing their concatenation |
| FixLateRun.VisitedChain | fix-late/FixLateAssignments.user.js:207-221 | the pages a walk processes are consecutive responses, each with a truthy next link except the last; the walk stops at the first page without one, or earlier at a failed response |
| FixLateRun.SubmissionWalkProcessesVisited | fix-late/FixLateAssignments.user.js:207-221 | a submissions walk processes each page fully before the next, so the submissions processed are the concatenation of the visited pages in order |
| FixLateRun.SubmissionWalkAbortsAt | fix-late/FixLateAssignments.user.js:207-221 | a submissions walk that follows every page before a failed request is rejected with that request's error, and one that follows every supplied page is rejected for lack of a response; processing a page never rejects it |
| FixLateRun.SubmissionWalkDoneAt | fix-late/FixLateAssignments.user.js:207-221 | a submissions walk that follows every page before one without a truthy next link is done, whatever its writes did |
| FixLateRun.RemoveLatePenaltyAccounts | fix-late/FixLateAssignments.user.js:336-342 | one write keeps the accounting: `totalUpdated` grows by the accepted PUTs, and with a token every rejected PUT left one error |
| FixLateRun.ProcessSubmissionsAccounts | fix-late/FixLateAssignments.user.js:319-326 | the same accounting holds over a page of submissions |
| FixLateRun.SubmissionWalkAccounts | fix-late/FixLateAssignments.user.js:207-221 | the same accounting holds over a paginated submissions walk |
| FixLateRun.FanOutAccounts | fix-late/FixLateAssignments.user.js:297-312 | the same accounting holds over `getSubmissions`' fan-out |
| FixLateRun.ListWalkAccounts | fix-late/FixLateAssignments.user.js:207-221 | the same accounting holds over the whole list walk |
| FixLateRun.ListWalkWalksVisited | fix-late/FixLateAssignments.user.js:207-221 | the list walk fans out the targets of the visited list pages in page order, stopping after a page of items rather than groups or a failed fan-out |
| FixLateRun.RunTotals | fix-late/FixLateAssignments.user.js:172-194 | a run restarts `totalUpdated` from 0 and ends with it equal to the number of its PUTs the server accepted; the errors are the walk's write failures in order, followed by exactly one more, `RunFailed` with the walk's fault, exactly when the walk was rejected; with a token they number the rejected PUTs plus that one; without a token nothing is sent and `totalUpdated` is 0; every PUT writes `'none'` |
| FixLateRun.LateFixer.constructor | fix-late/FixLateAssignments.user.js:29-30 | the script starts with `totalUpdated = 0` and no errors |
| FixLateRun.LateFixer.RemoveLatePenalty | fix-late/FixLateAssignments.user.js:328-351 | updates `totalUpdated`, `errors` and the sent PUTs exactly as `RemoveLatePenaltySpec` on the old state |
| FixLateRun.LateFixer.ProcessSubmissions | fix-late/FixLateAssignments.user.js:319-326 | the loop over submissions leaves the state `ProcessSubmissionsSpec` gives for the old state |
| FixLateRun.LateFixer.WalkSubmissions | fix-late/FixLateAssignments.user.js:196-222 | the page loop of `getAPI(url, 'submissions')` leaves the state and outcome of `SubmissionWalk` from the old state |
| FixLateRun.LateFixer.GetSubmissions | fix-late/FixLateAssignments.user.js:297-312 | runs one submissions walk per target, skipping quizzes without an assignment, and settles with the first failure (`FanOut`) |
| FixLateRun.LateFixer.WalkList | fix-late/FixLateAssignments.user.js:196-256 | the list walk with `processSingleItem` or `processItems` per page leaves the state and outcome of `ListWalk` |
| FixLateRun.LateFixer.FixLate | fix-late/FixLateAssignments.user.js:172-185 | resets the counters, walks the list and records a failed walk as one more error (`RunSpec`) |
| FixMissing.CookieFromUnnamed | fix-missing/FixMissingAssignments.user.js:156-161 | `getCookie` is `''` when no entry has that name |
| FixMissing.CookieFromIsLastMatch | fix-missing/FixMissingAssignments.user.js:156-161 | `getCookie` is the decoded value of the LAST entry with that name |
| FixMissing.CookieFrom | fix-missing/FixMissingAssignments.user.js:157-160 | the `reduce` over the cookie entries yields a non-empty value only when some entry has the name sought |
| FixMissing.GetCookie | fix-missing/FixMissingAssignments.user.js:156-161 | a non-empty `getCookie(name)` means `document.cookie` contains `name` |
| FixMissing.CaptureAt | fix-missing/FixMissingAssignments.user.js:195 | a capture of `<([^>]+)>; rel="next"` is non-empty, holds no `>`, and appears in the header as `<url>; rel="next"` |
| FixMissing.MatchFrom | fix-missing/FixMissingAssignments.user.js:195-202 | `exec` finds the leftmost index where the regex matches, and no match when there is none |
| FixMissing.NextLink | fix-missing/FixMissingAssignments.user.js:195-205 | a missing header gives no next URL; a next URL is the capture of the leftmost match; no match means no next URL |
| FixMissing.NextLinkOfLeadingLink | fix-missing/FixMissingAssignments.user.js:195-205 | a header starting with `<url>; rel="next"` yields `url`, whatever follows |
| FixMissing.LexLessTotal | fix-missing/FixMissingAssignments.user.js:249 | the string comparison of timestamps orders any two different strings exactly one way |
| FixMissing.HasScore | fix-missing/FixMissingAssignments.user.js:238-241 | a score of `0` never counts; a `null` score counts exactly when `zero_missing` or `null_missing` is set; any other score counts exactly when `zero_missing` is set |
| FixMissing.LateByDates | fix-missing/FixMissingAssignments.user.js:246-251 | a submission is late by its dates only when both dates are present, differ, and the submission time is not the earlier of the two |
| FixMissing.Decide | fix-missing/FixMissingAssignments.user.js:228-263 | an excused submission is never written; a write carries `null` in reset mode and `'none'` otherwise |
| FixMissing.DefaultsDecision | fix-missing/FixMissingAssignments.user.js:14-21 | under the shipped configuration a submission is marked `'none'` exactly when it is not excused, not yet marked, not late and not scored `0` |
| FixMissing.ResetWritesExactly | fix-missing/FixMissingAssignments.user.js:243-255 | in reset mode the write happens exactly when the submission is not excused, its status is `'none'`, and it is missing (under `missing`) or submitted after `cached_due_date` with both dates present (under `late`) |
| FixMissing.ForwardWritesExactly | fix-missing/FixMissingAssignments.user.js:238-263 | in forward mode the write happens exactly when the submission is not excused, its status is `null`, `hasScore` holds, and it is not late (under `missing`) or late (under `late`) |
| FixMissing.DecideIdempotent | fix-missing/FixMissingAssignments.user.js:243-263 | after a write is applied, the same configuration writes nothing on that submission |
| FixMissing.ResetUndoesForward | fix-missing/FixMissingAssignments.user.js:243-263 | on a missing submission, reset mode writes `null` back over the `'none'` that forward mode wrote, restoring the submission |
| FixMissing.Written | fix-missing/FixMissingAssignments.user.js:231-283 | every submission written is on the page, is not excused, and its decision is a write; `WrittenAppend` fixes order and multiplicity |
| FixMissing.WrittenComplete | fix-missing/FixMissingAssignments.user.js:269-283 | every submission on the page whose decision is a write is written |
| FixMissing.WrittenAppend | fix-missing/FixMissingAssignments.user.js:231-283 | the loop's writes distribute over concatenation and a single submission is written exactly when its decision is a write, so the writes follow input order, one per written submission |
| FixMissing.UnexcusedAppend | fix-missing/FixMissingAssignments.user.js:234-237 | skipping excused submissions keeps exactly the unexcused ones, in input order |
| FixMissing.ExcusedChangeNothing | fix-missing/FixMissingAssignments.user.js:234-237 | dropping excused submissions changes no write, whatever the configuration |
| FixMissing.PageIdempotent | fix-missing/FixMissingAssignments.user.js:228-286 | running `processSubmissions` again on the updated page writes nothing |
| FixMissing.PagePuts | fix-missing/FixMissingAssignments.user.js:269-283 | one PUT per written submission, in order, addressed by (assignment_id, user_id), with the mode's status |
| FixMissing.ProcessSubmissions | fix-missing/FixMissingAssignments.user.js:228-286 | the loop that computes `status` issues exactly the PUTs of `PagePuts` |
| FixMissing.CheckAssignment | fix-missing/FixMissingAssignments.user.js:318-352 | an accepted id is non-zero, and the item is published and matches `contextId` when one is given. Assignments need a due date and no excluded submission type and yield their own id; quizzes yield `assignment_id` and need `due_at`; discussion topics yield `assignment_id` and need `assignment.due_at` |
| FixMissing.CheckAssignmentAccepts | fix-missing/FixMissingAssignments.user.js:318-352 | conversely, an item meeting every condition yields that id |
| FixMissing.AcceptedIds | fix-missing/FixMissingAssignments.user.js:307-312 | every collected id is non-zero and accepted by `checkAssignment` for some item |
| FixMissing.AcceptedIdsAppend | fix-missing/FixMissingAssignments.user.js:298-305 | collecting over groups one after the other keeps group-then-assignment order |
| FixMissing.AcceptedIdsComplete | fix-missing/FixMissingAssignments.user.js:307-312 | every accepted item contributes its id |
| FixMissing.AssignmentIds | fix-missing/FixMissingAssignments.user.js:288-316 | `processAssignments` fails exactly when an assignments page is a non-empty array of items rather than groups |
| FixMissing.PushAccepted | fix-missing/FixMissingAssignments.user.js:307-312 | the `forEach` loop appends exactly the accepted ids, in order |
| FixMissing.ProcessAssignments | fix-missing/FixMissingAssignments.user.js:288-316 | the script's loops compute `AssignmentIds` |
| FixMissing.ChunkSize | fix-missing/FixMissingAssignments.user.js:357-361 | the chunk size is between 1 and 10 |
| FixMissing.SlicesFromCover | fix-missing/FixMissingAssignments.user.js:362-375 | the slices taken from position `a` on concatenate to the ids from `a` on |
| FixMissing.SlicesFromSizes | fix-missing/FixMissingAssignments.user.js:362-375 | each slice holds 1 to `m` ids, and all but the last exactly `m` |
| FixMissing.SlicesFromCount | fix-missing/FixMissingAssignments.user.js:362-375 | the number of slices `c` satisfies `(c-1)*m < n-a <= c*m`, i.e. `c = ceil((n-a)/m)` |
| FixMissing.BatchesPartition | fix-missing/FixMissingAssignments.user.js:354-377 | `getSubmissions` cuts the ids into consecutive slices covering every id once, in order; each has 1..10 ids, all but the last exactly `m`; there are `ceil(n/m)` of them, and none when n = 0 |
| FixMissing.GetBatches | fix-missing/FixMissingAssignments.user.js:354-377 | the `while (a < n)` loop collects exactly those slices |
| FixMissing.SelectListUrl | fix-missing/FixMissingAssignments.user.js:34-49 | the list URL is the per-type endpoint under `/api/v1/courses/<course>`, whatever `contextId` is; it never equals the single-item URL |
| FixMissing.SingleItemUrlNeverChosen | fix-missing/FixMissingAssignments.user.js:36-49 | the single-item URL differs from every endpoint the `switch` sets, so the first assignment never survives |
| FixMissingRun.WritesSettle | fix-missing/FixMissingAssignments.user.js:282-285 | `Promise.all` over a page's PUTs fulfils exactly when no request fails; otherwise it rejects with a request failure |
| FixMissingRun.PagePutsGrow | fix-missing/FixMissingAssignments.user.js:172-173 | every PUT of a page carries the mode's status and the `_csrf_token` cookie's value |
| FixMissingRun.BatchWalkGrows | fix-missing/FixMissingAssignments.user.js:186-212 | a submissions walk only appends PUTs, and each carries the mode's status and the cookie token |
| FixMissingRun.ChunkWalkGrows | fix-missing/FixMissingAssignments.user.js:354-377 | the same holds over all chunk walks of `getSubmissions` |
| FixMissingRun.ListWalkGrows | fix-missing/FixMissingAssignments.user.js:186-212 | the same holds over the list walk |
| FixMissingRun.RunWritesModeStatus | fix-missing/FixMissingAssignments.user.js:145-154 | every PUT of a run writes the one status of its mode (`null` under `reset`, `'none'` otherwise) and carries the last `_csrf_token` cookie's value |
| FixMissingRun.BatchWalkStopsAt | fix-missing/FixMissingAssignments.user.js:197-212 | a non-ok or failed response ends the submissions walk: later responses do not affect the result |
| FixMissingRun.ListWalkStopsAt | fix-missing/FixMissingAssignments.user.js:197-212 | a non-ok or failed response ends the list walk: later responses do not affect the result |
| FixMissingRun.WalkAbortsAt | fix-missing/FixMissingAssignments.user.js:186-212 | a `getAPI` walk that goes on from every page before a non-ok status or a failed request rejects there with that status or that error, and past the supplied responses with `NoResponse` |
| FixMissingRun.WalkSettlesAt | fix-missing/FixMissingAssignments.user.js:186-212 | a `getAPI` walk that goes on from every page before one it processes without going on settles as the processing of that page does |
| FixMissingRun.BatchWalkWritesVisited | fix-missing/FixMissingAssignments.user.js:186-212 | the PUTs of a submissions walk are those of the pages it processes, in page order, added to those issued before; a page with a non-ok status or a failed request adds none |
| FixMissingRun.BatchWalkSettles | fix-missing/FixMissingAssignments.user.js:186-212 | a submissions walk settles as the `getAPI` walk whose page processing is `Promise.all` over the page's PUTs, whatever PUTs were issued before |
| FixMissingRun.BatchWalkAbortsAt | fix-missing/FixMissingAssignments.user.js:197-212 | a submissions walk rejects at the first response it does not process, with its status (`Promise.reject(res.status)`) or its request's error, or for lack of a response |
| FixMissingRun.BatchWalkSettlesAt | fix-missing/FixMissingAssignments.user.js:197-212 | a submissions walk that processes a page without going on settles as that page's PUTs do: done when there is no next link and they all went through, rejected by a failed PUT otherwise |
| FixMissingRun.ChunkWalkWrites | fix-missing/FixMissingAssignments.user.js:354-377 | every chunk's walk of `getSubmissions` runs whether or not an earlier one failed; the PUTs are each walk's own, in chunk order |
| FixMissingRun.ListWalkWritesVisited | fix-missing/FixMissingAssignments.user.js:186-212 | the PUTs of the list walk are those of the assignment pages it processes, in page order; a page with a non-ok status or a failed request adds none |
| FixMissingRun.ListWalkSettles | fix-missing/FixMissingAssignments.user.js:186-212 | the list walk settles as the `getAPI` walk whose page processing is `processAssignments` followed by the chunks' walks, whatever PUTs were issued before |
| FixMissingRun.ListWalkAbortsAt | fix-missing/FixMissingAssignments.user.js:197-212 | the list walk rejects at the first response it does not process, with its status or its request's error, or for lack of a response |
| FixMissingRun.ListWalkSettlesAt | fix-missing/FixMissingAssignments.user.js:197-212 | the list walk that processes a page without going on settles as that page's processing does: rejected for a non-group or by the first failed chunk walk, done when those went through and there is no next link |
| FixMissingRun.WalkBatch | fix-missing/FixMissingAssignments.user.js:186-212 | the page loop of `getAPI(url, 'submissions')` rejects on a non-ok status, processes an ok page, and follows the regex's next link; it computes `BatchWalk` |
| FixMissingRun.GetSubmissions | fix-missing/FixMissingAssignments.user.js:354-377 | one submissions walk per chunk, settling with the first failure (`ChunkWalk` over `Batches`) |
| FixMissingRun.Run | fix-missing/FixMissingAssignments.user.js:145-154 | `main()`'s list walk with `processAssignments` per page computes `ListWalk` |

## Left out

- `document.cookie` and the `<meta name="csrf-token">` element are taken not to change during a
  run: `Token` reads them once per run, while both scripts read them again before each PUT
  (fix-late/FixLateAssignments.user.js:347, fix-missing/FixMissingAssignments.user.js:173).
- DOM work is not modelled: menu injection, `MutationObserver`, the fix-late button, the toast
  and its styles, and the `<meta name="csrf-token">` lookup. The lookup's result is an input of
  `GetCsrfToken`.
- Parsing `window.location.pathname` and fix-late's `setupListUrl` are not modelled. The
  context type, `contextId` and the single-item flag are inputs.
- Request URLs other than fix-missing's list URL are not modelled. Requests are identified by
  what they address: an assignment id, a chunk of ids, or (assignment, user).
- HTTP, `fetch` options (including `timeout`), headers other than `Link`, and JSON decoding are
  not modelled. A response body arrives already typed.
- A 2xx PUT reply whose body is not JSON rejects in fix-late. The model folds it into the
  request's rejection, `WriteRejected`.
- Bottleneck throttling, loading it from a CDN, `displayLimits` and all console logging are
  foreign code or output.
- `Promise.all` and asynchronous interleaving are not modelled: fan-outs run in order, and the
  first failure in order stands for the first in time.
- The rendered text of a failed walk's error is kept as a structured `Fault`. This covers
  `e.toString()` of a TypeError or network error and the bare status of a fix-missing
  rejection. Only the write-failure text of fix-late is rendered.
- An endless chain of next links is not modelled. A walk that asks for more responses than
  supplied ends with `NoResponse`, which the scripts do not have.
- `decodeURIComponent` throwing on a malformed cookie value is not modelled. `decode` is a total
  function.
- A non-array submissions body is not modelled: submission pages are arrays.
- A discussion topic with `assignment: null` makes fix-missing's `checkAssignment` throw. This
  is not modelled; an absent `assignment` field is `None`.
- `contextId == a.id` is modelled as equality of numbers: the path's digits are read as a
  natural number.
- Timestamps are compared as strings, code unit by code unit, over Dafny characters. That
  coincides with JavaScript for the ASCII timestamps the API returns.
- fix-late's unused `config` object and fix-missing's `debug` flag are not modelled.
- FixLate.GetNextUrlIsFirstSpan: stated for headers without CR, LF, U+2028 or U+2029, where
  `.` matches every character.
