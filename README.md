# Spec-Flow backend store and status badge, in Dafny

This project models the two parts of the Spec-Flow requirements tracker that
carry logic.

The first is the mocked backend in `src/services/api.js`. It is a
process-wide state with four parts:

- an ordered table of requirements `{id, title, description, status}`;
- the requirement id counter;
- a map from requirement id to an append-only list of versions
  `{id, requirementId, title, description, timestamp}`;
- the version id counter.

The ten exported operations run as one atomic callback each, behind
`simulateRequest`. That wrapper is the unreliable channel: a failed network
trial rejects without running the callback.

The second part is the status badge's `getStatusClasses`. It maps an open
status value to one of three CSS class strings.

Layout:

- `wrappers.dfy`: `Option` and `Result`.
- `decimal.dfy`: `String(n)` for the counters, and its inverse.
- `js_string.dfy`: the status drift `s.toLowerCase().replace(/ /g, "_")` and `trim`.
- `channel.dfy`: `simulateRequest`, as written and as corrected (see Findings), and the `.catch(() => [])` of list reads.
- `api.dfy`: the records, the merges the write paths perform, the id and version-number invariants, and the class `Store`, whose fields are the module's four `let` variables and whose methods are the exported operations.
- `status_badge.dfy`: `getStatusClasses`.

The environment becomes explicit parameters:

- `networkOk` is true exactly when the channel's failure trial `maybeReject()` (`Math.random() < 0.25`) does not fire.
- `drift` is the status-drift trial of create and update.
- `timestamp` and `generatedAt` stand for `new Date().toISOString()`.
- A patch field that is `None` is a key the caller left out.

`Store.Valid()` is the invariant every write keeps:

- requirement ids are the numerals `String(n)` of values `n` the id counter has already handed out: non-empty digit strings with no leading zero;
- those values strictly increase along the table, so ids are unique;
- each version list names its own requirement;
- version ids are numerals of values below the version counter and increase in append order, so the last version is the latest, and a new version id occurs nowhere in the history.

## Model

| member | source | states |
|---|---|---|
| Decimal.Show | src/services/api.js:127 | `String(n)` is a non-empty digit string with no leading zero unless n is 0 |
| Decimal.ParseShow | src/services/api.js:127 | reading back the numeral of a counter value gives that value, so distinct counter values give distinct ids |
| JsString.LowerChar | src/services/api.js:123 | an ASCII upper-case letter maps to its lower-case letter (code point plus 32); every other character is kept; the result is never upper-case |
| JsString.ToLowerCase | src/services/api.js:123 | `toLowerCase()` keeps the length and lower-cases character by character |
| JsString.ReplaceSpaces | src/services/api.js:123 | `replace(/ /g, "_")` keeps the length, turns every space into an underscore and keeps every other character |
| JsString.Drift | src/services/api.js:123 | the drift lower-cases ASCII letters and turns spaces into underscores, character by character; its result has no upper-case letter and no space |
| JsString.DriftIdempotent | src/services/api.js:148 | drifting an already drifted status changes nothing |
| JsString.DriftOfNominalStatuses | src/services/api.js:123 | "Draft", "In Progress" and "Completed" drift to "draft", "in_progress" and "completed" |
| JsString.IsWhitespace | src/services/api.js:215 | the characters `trim()` removes: it includes space, tab, line feed and carriage return, and no visible ASCII character |
| JsString.LeadingWhitespace | src/services/api.js:215 | counts exactly the whitespace characters that open the string |
| JsString.TrailingWhitespace | src/services/api.js:215 | counts exactly the whitespace characters that close the string |
| JsString.Trim | src/services/api.js:215 | `trim()` yields the infix after the leading and before the trailing whitespace; all that is cut off is whitespace and the result neither starts nor ends with whitespace |
| JsString.TrimIdempotent | src/services/api.js:215 | trimming twice is trimming once |
| JsString.TrimUnchanged | src/services/api.js:215 | a title that neither starts nor ends with whitespace is stored unchanged |
| Channel.SimulateRequestAsWritten | src/services/api.js:93-103 | as written: a failed trial rejects with the network error without running the callback; a returned value resolves; a thrown error leaves the promise unsettled |
| Channel.SimulateRequest | src/services/api.js:93-103 | as intended: a failed trial rejects with the network error without running the callback; otherwise the call resolves with the returned value or rejects with the thrown error |
| Channel.NotFoundNeverRejectsAsWritten | src/services/api.js:93-103 | as written, a missing id never reaches the caller: the promise rejects only with the network error, and with the trial passed it never settles |
| Channel.SimulateRequestCorrectsOnlyThrows | src/services/api.js:93-103 | the corrected channel settles every call; it agrees with the written one except that a thrown error now rejects the promise |
| Channel.CatchToEmpty | src/services/api.js:106 | a failed list read becomes the empty list, and a successful one is passed through |
| Api.SeedRequirements | src/services/api.js:6-31 | the seed table has four records, each with a non-empty title and a defined status |
| Api.SeedStatusesAreNominalOrDrifted | src/services/api.js:6-31 | the seeded statuses are "Completed", drift("In Progress"), drift("Draft") and "Draft" |
| Api.SeedIsNumbered | src/services/api.js:6-31 | the seeded ids "1".."4" are numbered, in increasing order, below the seeded id counter 5 |
| Api.HistoryOf | src/services/api.js:201 | the logical-or fallback on a version list: the stored list for an id committed to, and the empty list for any other id |
| Api.FindIndex | src/services/api.js:141 | `findIndex` gives the first position holding the id, and -1 exactly when no record has it |
| Api.OrElse | src/services/api.js:121-129 | the logical-or fallback on a string: the result is the fallback or the given non-empty value, it is the given value whenever that is non-empty, and it is empty only if the fallback is |
| Api.NewRequirement | src/services/api.js:121-131 | create keeps the given id; an absent or empty title becomes "Untitled Requirement" and the title is never empty; an absent description becomes ""; the status is the resolved one (default "Draft") or its drift, never undefined, and exactly the resolved one without the trial |
| Api.UpdatedStatus | src/services/api.js:146-149 | update stores the given status or its drift and nothing else; an absent status stays absent, an empty one stays empty, no drift without the trial |
| Api.MergeUpdate | src/services/api.js:151-155 | update keeps the id and each omitted title or description, takes each given one, and stores exactly `Api.UpdatedStatus` of the given status: the given status or its drift, undefined when omitted |
| Api.MergeAutoSave | src/services/api.js:251-254 | the shallow merge keeps the id and every omitted field, and takes every given one |
| Api.MergeRestore | src/services/api.js:234-238 | restore takes the version's title and description and keeps the record's id and status |
| Api.AutoSaveAgreesWithUndriftedUpdate | src/services/api.js:251-254 | autosave equals an update without drift when a status is supplied; with the status omitted autosave keeps it and update clears it |
| Api.RestoreIsAutoSaveOfTitleAndDescription | src/services/api.js:234-238 | restore is the shallow merge of the version's title and description only; id and status are kept |
| Api.CriteriaLines | src/services/api.js:180-189 | the template has exactly eight lines |
| Api.CriteriaFollowScaffold | src/services/api.js:180-189 | the lines open with Given, When, Then, And, and again Given, When, Then, And |
| Api.CriteriaMentionTitle | src/services/api.js:180-189 | the title is substituted, right after the fixed wording, into both Given lines and both When lines |
| Api.CriteriaDetermineTitle | src/services/api.js:180-189 | the Then and And lines do not depend on the title, and different titles give different first lines |
| Api.IssuedBelowIsShownCounter | src/services/api.js:127 | an id passes the invariant exactly when it is `String(n)` for a counter value `n` already handed out |
| Api.NumberedIdsAreUnique | src/services/api.js:127 | in a numbered table ids are pairwise distinct, so the record `findIndex` finds is the only one with that id |
| Api.AppendFreshId | src/services/api.js:127-132 | `String(nextId)` is not the id of any stored record, and appending under it keeps the table numbered below `nextId + 1` |
| Api.ReplaceKeepsNumbering | src/services/api.js:151-155 | replacing a record by one with the same id keeps the table numbered |
| Api.RemoveKeepsNumbering | src/services/api.js:167 | splicing one record out keeps the table numbered and in order, and its id is gone |
| Api.AppendVersionKeepsNumbering | src/services/api.js:208-220 | appending version `String(nextVersionId)` to its requirement's list keeps the history numbered below `nextVersionId + 1` |
| Api.FreshVersionId | src/services/api.js:212 | `String(nextVersionId)` is the id of no version in any list of a numbered history |
| Api.LastVersionIsLatest | src/services/api.js:220 | in a numbered version list the last entry has the greatest version number |
| Api.Store.constructor | src/services/api.js:77-81 | first run: the seeded table, id counter 5, empty history, version counter 1, and the invariant holds |
| Api.Store.GetRequirements | src/services/api.js:105-107 | the whole table in order, or the empty list when the call fails |
| Api.Store.GetRequirementById | src/services/api.js:109-117 | on a passed trial it succeeds exactly when the id is stored, returning the first stored record with that id, as `find` does, and fails with NotFound otherwise |
| Api.Store.CreateRequirement | src/services/api.js:119-137 | on a failed trial nothing changes; otherwise the defaulted record under `String(nextId)`, an id no stored record has, is appended at the end and the counter grows by one; the invariant is kept |
| Api.Store.UpdateRequirement | src/services/api.js:139-159 | on a failed trial or a missing id nothing changes; otherwise only the record with that id is replaced, by the update merge, and every other record keeps its value and place |
| Api.Store.DeleteRequirement | src/services/api.js:161-171 | on a failed trial or a missing id nothing changes; otherwise exactly the record with that id is removed, the rest keep their order, the length drops by one, the id is gone and the history is untouched |
| Api.Store.GenerateAcceptanceCriteria | src/services/api.js:173-197 | on a passed trial it succeeds exactly when the id is stored, with the template for the current title of the first record with that id and the given timestamp; NotFound otherwise |
| Api.Store.GetVersionHistory | src/services/api.js:199-204 | that id's versions in append order, or empty when the id has none or the call fails |
| Api.Store.CommitVersion | src/services/api.js:206-225 | on a passed trial it appends one version, `String(nextVersionId)` with the trimmed title and verbatim description, as the last entry of that id's list, stored requirement or not, under an id no earlier version in any list has; earlier entries and other lists are unchanged and the counter grows by one; nothing changes on a failed trial |
| Api.Store.RestoreVersion | src/services/api.js:227-242 | on a failed trial or a missing id nothing changes; otherwise only title and description of that record are overwritten, and the history is neither extended nor cut |
| Api.Store.AutoSaveRequirement | src/services/api.js:244-258 | on a failed trial or a missing id nothing changes; otherwise that record becomes the plain shallow merge, with no drift and an omitted status kept |
| StatusBadge.StatusClasses | src/components/StatusBadge.jsx:3-13 | total; the result is one of the three class strings; yellow exactly for "In Progress", green exactly for "Completed", gray for everything else including "Draft" and undefined |
| StatusBadge.StatusClassesOfTestedValues | src/components/StatusBadge.spec.jsx:11-33 | "Draft" is gray, "In Progress" yellow, "Completed" green, "Unknown" gray |
| StatusBadge.DriftedStatusIsGray | src/components/StatusBadge.jsx:11-12 | every drifted status, such as "in_progress" or "completed", falls back to gray |

`Api.CommitTwiceThenDelete` is a verified client scenario of the store from the first
start. It commits seeded requirement "1" as "Login", commits it again as
"Login v2", and deletes the requirement. The history still holds both
versions in commit order.

Each store method runs its callback only on a passed trial; a failed trial
returns the network error at once. What the callback returns or throws
becomes the result through `Channel.SimulateRequest`, so a missing id fails
with `NotFound` (see Findings).

## Left out

- Latency (`randomDelay`) and the timers behind it are dropped. So is the order in which overlapping calls complete. Each operation is modelled as its atomic callback.
- Each `Math.random()` trial is a boolean parameter. No probability is modelled.
- localStorage and JSON (`loadRequirements`, `saveRequirements` and the other load/save helpers) are browser storage I/O. They are not modelled. The constructor models a first run with empty storage. A later run that reads stored tables and counters back with `parseInt` is not modelled.
- `new Date().toISOString()` is an opaque string parameter.
- JsString.Drift: `toLowerCase` is modelled on ASCII letters only. Other letters are kept as they are. Full Unicode case mapping is out of scope.
- Patches carry only `title`, `description` and `status`. The spread `...data` would also copy an `id` key or any other key over the record. No caller passes one (`src/App.jsx`, `src/components/RequirementDetail.jsx`).
- A patch key that is present with the value `undefined` is not modelled for title and description, nor for autosave's status: the spread would store `undefined`, while the model's absent key keeps the old value, so `Api.MergeAutoSave` can never clear a status. No caller sends such a patch (`src/components/RequirementDetail.jsx` always sends its status). Update's status is the exception: an absent status and an undefined one both store undefined, and that is modelled.
- Error messages are not modelled. An error is `NetworkError` or `NotFound(id)`; the message texts of `new Error(...)` are left out.
- JavaScript numbers lose precision above 2^53. The counters are unbounded naturals here.
- Version-history lookups by inherited object keys such as "constructor" or "__proto__" are not modelled. Ids here are plain strings in a map.
- Aliasing is not modelled. Most reads return copies. `commitVersion` returns the very object it stored, and the model works on values.
- React components are not modelled. This covers `src/App.jsx`, `src/components/RequirementDetail.jsx`, `src/components/VersionHistoryPanel.jsx`, `src/components/RequirementList.jsx` and `src/components/RequirementListItem.jsx`. The autosave debounce, the selection delay and the keyboard handling are UI timer and effect lifecycle.
- The end-to-end test `tests/requirements.spec.ts` only checks rendering.

## Findings

| source | as written | input that shows it | evidently intended | confidence | as-written member | corrected member |
|---|---|---|---|---|---|---|
| src/services/api.js:93-103 | `resolve(callback())` runs inside the `setTimeout` handler, after the promise executor has returned. An exception the callback throws is uncaught and the promise never settles. | `updateRequirement("99", {title: "x"})` when the trial passes and no record has id "99". The NotFound thrown at src/services/api.js:143 never rejects, so `handleUpdate` in src/App.jsx never reaches its `catch` or `finally`. | The promise rejects with the NotFound error, as the `throw` in each callback shows. | not executed; high | Channel.NotFoundNeverRejectsAsWritten | Channel.SimulateRequest |
