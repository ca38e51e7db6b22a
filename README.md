# Challenge header and challenge reducer, modelled in Dafny

This project models two pieces of the Topcoder community app.

**The challenge-detail header** (`ChallengeHeader` in
`src/shared/components/challenge-detail/Header/index.jsx`). Its derivation
section turns three inputs into the values the header renders:

- a challenge record;
- the viewer's flags (`hasRegistered`, `registering`, `unregistering`, `submissionEnded`, `showDeadlineDetail`);
- the current time.

The values it derives:

- the phase index keyed by camel-cased phase name;
- the registration-closed flag and the live-submissions flag;
- the track label and the tag lists;
- the bonus line;
- the next deadline, its countdown and the countdown format;
- the "relevant phases" timeline, with its optional synthetic Winners entry;
- the status message;
- the `disabled` flags of the Unregister, Register and Submit buttons.

**The `state.challenge` reducer** (`src/shared/reducers/challenge.js`). It has five action handlers and the initial state built for a server-side request.

Modules:

- `Wrappers` (`wrappers.dfy`): `Option`, used for JavaScript `null`/`undefined`.
- `Strings` (`strings.dfy`): ASCII `toLowerCase`/`toUpperCase`, `String.prototype.includes`, `split(', ')` with its inverse `join`, lodash `_.uniq`, and a simplified `_.camelCase`.
- `Seqs` (`seqs.dfy`):
  - a generic `filter`, with lemmas on what it keeps, its multiset and its order;
  - a sort for "first-class elements first, then ascending key" comparators.
- `ChallengeHeader` (`header.dfy`): the header derivation. The imperative parts are methods:
  - `BuildIndex`, a loop that fills `phases` as the `forEach` does;
  - `RelevantPhases` and `SortTimeline`, the timeline with its sort and push; the sort's loops are `Seqs.SortFirstThenAscending` and `Seqs.InsertByKey`;
  - `DeriveHeader`, the whole derivation, which calls the other methods in the order of the source.

  The expression parts are functions, and the properties are lemmas.
- `ChallengeReducer` (`reducer.dfy`): the state as a datatype, each handler as a transition function, and the initial state.

Timestamps are integer milliseconds, and the current time is a parameter.
`Math.max` of an empty list (`-Infinity`) is the `NegInfinity` case of `Bound`.
`nextPhase` is one of three cases: undefined (`NoPhase`), the empty object `{}` (`EmptyPhase`), or a phase.
The Winners entry that the source pushes onto `relevantPhases` is returned apart from the phases. `TimelineEntries` builds the combined array from the two.

## Model

| member | source | states |
|---|---|---|
| ChallengeHeader.LastWithKey | src/shared/components/challenge-detail/Header/index.jsx:92-97 | No phase has key `k` exactly when the result is absent. Otherwise the result is a phase with that key that no later phase shares. |
| ChallengeHeader.BuildIndex | src/shared/components/challenge-detail/Header/index.jsx:92-97 | The index has a key exactly when some phase camel-cases to it. The key maps to the last such phase (last write wins). No phases give the empty map. |
| ChallengeHeader.RegistrationEndedOf | src/shared/components/challenge-detail/Header/index.jsx:92-103 | Building the index and looking up `registration` gives `registrationEnded` for the last phase keyed `registration`. |
| ChallengeHeader.RegistrationEndedFromPhases | src/shared/components/challenge-detail/Header/index.jsx:99-103 | Registration is closed iff one of three holds: the status is exactly "Completed"; no phase is keyed `registration`; or the last phase so keyed is not open. |
| ChallengeHeader.AnyLive | src/shared/components/challenge-detail/Header/index.jsx:126 | The `reduce` with `\|\|` is true iff some submission status is not "Deleted". |
| ChallengeHeader.HasSubmissions | src/shared/components/challenge-detail/Header/index.jsx:121-126 | True iff user details are present and some submission is not "Deleted". An empty submission list gives false. |
| ChallengeHeader.ClosedRegistrationBlocksBoth | src/shared/components/challenge-detail/Header/index.jsx:99-103 | With status "Completed", or with no registration entry, Register and Unregister are both disabled whatever the flags. |
| ChallengeHeader.RegisterEnabledIff | src/shared/components/challenge-detail/Header/index.jsx:374-375 | Register is enabled iff four things hold: the viewer is not registering; the status is not "Completed"; the last registration phase is open; the challenge is not a legacy match. |
| ChallengeHeader.LiveSubmissionBlocksUnregister | src/shared/components/challenge-detail/Header/index.jsx:364-366 | A single submission that is not deleted keeps Unregister disabled. |
| ChallengeHeader.SubmitGating | src/shared/components/challenge-detail/Header/index.jsx:383-384 | Submit is enabled iff the viewer is registered, not unregistering, submission has not ended, and the challenge is not a legacy match. |
| ChallengeHeader.TrackLower | src/shared/components/challenge-detail/Header/index.jsx:105-108 | The track label is one of three values, and it never contains an upper-case letter. It is "datasci" whenever the tags include "Data Science". Otherwise it is the lower-cased track, or "design" when there is no track. |
| ChallengeHeader.MiscTags | src/shared/components/challenge-detail/Header/index.jsx:112 | The tags without repetitions, in the order of their first occurrence. It holds exactly the tags of the list, or of the pieces of the ", "-separated string. |
| ChallengeHeader.TagTextRoundTrip | src/shared/components/challenge-detail/Header/index.jsx:112 | Splitting a tag string at ", " loses nothing: the pieces join back to the string. |
| ChallengeHeader.DistinctTagListKept | src/shared/components/challenge-detail/Header/index.jsx:112 | A tag list without repetitions is shown as given, in order. |
| ChallengeHeader.EventNames | src/shared/components/challenge-detail/Header/index.jsx:110 | One name per event, each upper-cased. None contains a lower-case letter. |
| ChallengeHeader.FindCheckpoint | src/shared/components/challenge-detail/Header/index.jsx:84 | The result is absent iff no prize set has type "checkpoint". Otherwise it is the first such set. |
| ChallengeHeader.ClassifyBonus | src/shared/components/challenge-detail/Header/index.jsx:84-119 | A checkpoint bonus iff the checkpoint set has a non-zero count and a non-zero first prize; it carries that prize and that count. Otherwise a reliability bonus iff the bonus is present, non-zero and does not round to "0". Otherwise no bonus. |
| ChallengeHeader.CheckpointPrecedence | src/shared/components/challenge-detail/Header/index.jsx:114-119 | When the checkpoint bonus applies, the reliability bonus and its rounding have no effect on the result. |
| ChallengeHeader.EarliestOpen | src/shared/components/challenge-detail/Header/index.jsx:128 | The result is absent iff no phase is open and not named "Registration". Otherwise it is the candidate with the least scheduled end; among ties it is the first, as a stable sort gives. |
| ChallengeHeader.SelectNextPhase | src/shared/components/challenge-detail/Header/index.jsx:128-132 | When the viewer is registered and phase 0 is named "Registration", the result is phase 1, or `{}` when there is none. Otherwise it is the earliest-ending open non-registration phase, or undefined when there is none. |
| ChallengeHeader.TimeLeftIsRemaining | src/shared/components/challenge-detail/Header/index.jsx:134-138 | `timeLeft` is max(0, end - now) for a phase and 0 for undefined or `{}`. It runs down by exactly the elapsed time until it reaches 0. |
| ChallengeHeader.FormatFor | src/shared/components/challenge-detail/Header/index.jsx:140-143 | Days/hours iff more than a day is left. Hours/minutes iff more than an hour and at most a day. Minutes/seconds otherwise. |
| ChallengeHeader.FormatMonotone | src/shared/components/challenge-detail/Header/index.jsx:140-143 | More time left never gives a finer format, and both thresholds are strict. |
| ChallengeHeader.RelevantOfMembers | src/shared/components/challenge-detail/Header/index.jsx:150-164 | A phase is kept iff it is one of the challenge's phases and meets one of two rules. Either it is an Iterative Review whose effective end is after now. Or another phase whose lower-cased name lacks "screening" and "specification" and contains one of "registration", "checkpoint", "submission" or "review". |
| ChallengeHeader.SortTimeline | src/shared/components/challenge-detail/Header/index.jsx:166-175 | The sort is a permutation. Registration-named phases come before all others, and the others ascend by effective end. |
| ChallengeHeader.LatestClosedIterativeReview | src/shared/components/challenge-detail/Header/index.jsx:177-178 | `endPhaseDate` is minus infinity iff there is no closed Iterative Review. Otherwise it is the greatest scheduled end among those phases, and some such phase attains it. |
| ChallengeHeader.RelevantPhases | src/shared/components/challenge-detail/Header/index.jsx:147-200 | Nothing is shown without detail. With detail, the shown phases are the relevant ones, sorted; for a completed first-to-finish challenge only those kept by the end-date rule remain, and a Winners entry dated `endPhaseDate` follows. Otherwise a Winners entry dated the appeals end follows iff two or more phases are shown, the appeals end is present and the last phase ends before it. |
| ChallengeHeader.LastIsLatest | src/shared/components/challenge-detail/Header/index.jsx:166-192 | In the sorted timeline the last phase is not registration-named once some other phase is shown, and it ends no earlier than any non-registration phase. |
| ChallengeHeader.First2FinishKeepsEarlyPhases | src/shared/components/challenge-detail/Header/index.jsx:176-180 | In the completed first-to-finish timeline every shown phase is relevant and either registration-named or scheduled before `endPhaseDate`. With no closed Iterative Review, only registration phases remain. |
| ChallengeHeader.TimelineEntries | src/shared/components/challenge-detail/Header/index.jsx:181-197 | The panel's array is the shown phases in order. When a Winners entry was pushed, exactly one `{id: -1, phaseType: "Winners"}` entry follows, and it is last. |
| ChallengeHeader.DeadlineLabel | src/shared/components/challenge-detail/Header/index.jsx:213 | The phase name when the next phase has one, and "-" otherwise. It is never empty. |
| ChallengeHeader.Message | src/shared/components/challenge-detail/Header/index.jsx:204-237 | A next-deadline line iff the lower-cased status is "active". A finished notice iff it is "completed". Otherwise a status line carrying the status. |
| ChallengeHeader.MessageIgnoresCase | src/shared/components/challenge-detail/Header/index.jsx:205 | Two statuses that lower-case alike give the same kind of message, and the same next-deadline line. |
| ChallengeHeader.DeriveHeader | src/shared/components/challenge-detail/Header/index.jsx:77-241 | Each derived value is the one the functions above specify, and the three gating flags are the `disabled` expressions. |
| Strings.LowerAt | src/shared/components/challenge-detail/Header/index.jsx:155 | Lower-casing maps every character on its own. |
| Strings.ContainsIff | src/shared/components/challenge-detail/Header/index.jsx:156-160 | `includes` is true iff the text occurs at some position. |
| Strings.JoinSplit | src/shared/components/challenge-detail/Header/index.jsx:112 | Joining the pieces of `split(', ')` with ", " restores the string. |
| Strings.Dedup | src/shared/components/challenge-detail/Header/index.jsx:112 | `_.uniq` keeps every element, repeats none, orders the result by first occurrence and never grows the list. |
| Strings.CamelFromOfLowerWord | src/shared/components/challenge-detail/Header/index.jsx:95-100 | A single lower-case word such as "registration" is its own key. |
| Seqs.FilterPermutation | src/shared/components/challenge-detail/Header/index.jsx:179-180 | Filtering two permutations of a list gives permutations of each other. |
| Seqs.FilterPairwise | src/shared/components/challenge-detail/Header/index.jsx:179-180 | The re-filter keeps the order that the sort established. |
| Seqs.InsertByKey | src/shared/components/challenge-detail/Header/index.jsx:173-174 | Inserting into a key-sorted list keeps it sorted, and adds exactly the new element. |
| Seqs.SortFirstThenAscending | src/shared/components/challenge-detail/Header/index.jsx:166-175 | The result is a permutation of the input: the first-class elements, then the rest by ascending key. |
| ChallengeReducer.InitialState | src/shared/reducers/challenge.js:63-74 | With a request: `details` null, both loading flags false, `mySubmissions.v2` null. Without one: the empty state. |
| ChallengeReducer.FetchChallengeInit | src/shared/reducers/challenge.js:21-25 | `loadingDetails` becomes true and `details` null. The submission keys are unchanged. |
| ChallengeReducer.FetchChallengeDone | src/shared/reducers/challenge.js:27-31 | `details` becomes the payload and `loadingDetails` false. The submission keys are unchanged. |
| ChallengeReducer.FetchSubmissionsInit | src/shared/reducers/challenge.js:33-37 | `loadingMySubmissions` becomes true and `v2` null. The detail keys are unchanged. |
| ChallengeReducer.FetchSubmissionsDone | src/shared/reducers/challenge.js:39-43 | `loadingMySubmissions` becomes false and `v2` the payload. The detail keys are unchanged. |
| ChallengeReducer.RemoveSubmission | src/shared/reducers/challenge.js:49-51 | The result is exactly the submissions whose id differs, with every copy kept, and it is never longer than the input. |
| ChallengeReducer.DeleteSubmissionDone | src/shared/reducers/challenge.js:47-52 | `v2` becomes the filtered list. It requires `v2` to be a list. The other keys are unchanged. |
| ChallengeReducer.FieldIsolation | src/shared/reducers/challenge.js:21-52 | Every handler keeps every key it does not write. |
| ChallengeReducer.FetchChallengeCycle | src/shared/reducers/challenge.js:21-31 | Init followed by Done sets only `details` and `loadingDetails`. |
| ChallengeReducer.FetchSubmissionsThenDelete | src/shared/reducers/challenge.js:39-52 | After a submission fetch a delete is possible, and it equals fetching the filtered list. |
| ChallengeReducer.RemoveIdempotent | src/shared/reducers/challenge.js:49-51 | Deleting the same id twice equals deleting it once. |
| ChallengeReducer.RemoveAbsent | src/shared/reducers/challenge.js:49-51 | Deleting an id that no submission carries leaves the list as it was. |
| ChallengeReducer.RemoveCommutes | src/shared/reducers/challenge.js:49-51 | Two deletions give the same list in either order. |
| ChallengeReducer.RemoveKeepsOrder | src/shared/reducers/challenge.js:49-51 | The kept submissions are a subsequence of the old list, so their order is kept. |
| ChallengeReducer.InitialStateRejectsDelete | src/shared/reducers/challenge.js:63-74 | Neither initial state can take a delete: `v2` is null with a request, and `mySubmissions` is undefined without one. |

## Left out

- Rendering: the JSX, style names, click handlers, links and `scrollIntoView` calls (Header/index.jsx lines 247 onwards) are UI. Only the three `disabled` expressions are modelled.
- Duration text: the `moment.duration(...).format(...)` string (line 145) is not modelled. The format is the enum `CountdownFormat`.
- Dates: no date parsing is modelled. Every date is already an integer in milliseconds.
- The clock: `moment()` (lines 135 and 153) is the single parameter `now`.
- ChallengeHeader.Message: the default case shows the status as given. The `_.upperFirst(_.lowerCase(status))` formatting is not modelled.
- Strings.Lower: case mapping covers ASCII letters only. JavaScript's full Unicode case mapping is not modelled.
- Strings.Upper: ASCII letters only, so the result always has the length of its input. JavaScript's `toUpperCase` can lengthen a string ("ß" becomes "SS"); `EventNames` inherits this.
- Strings.CamelCase: a simplified `_.camelCase`. Words are the maximal runs of ASCII letters and digits; the first is lower-cased and each later word is capitalised. lodash's other word boundaries (lower-to-upper transitions, Unicode words, apostrophes) are not modelled. So under lodash, unlike in the model, "fooBar" and "foobar" get different keys; the model proves no case-insensitivity of the key.
- Foreign helpers are inputs (the `Foreign` record): `getChallengeSubTrack` (line 79), `isMM` (line 241), and whether `reliabilityBonus.toFixed()` is "0" (line 117).
- Prize values are integers. `reliabilityBonus` is a real number; no floating point is modelled.
- ChallengeHeader.ClassifyBonus: requires a checkpoint prize set to have at least one prize. The source reads `prizes[0].value` at line 89 without checking, and fails on an empty list.
- ChallengeHeader.SortTimeline: the comparator at lines 166-175 is not a consistent order. It answers -1 whenever `a` is registration-named, even when `b` is too. So the result is stated only by its ordering and by being a permutation. The model's sort keeps registration phases in input order; the engine's order among them is not modelled.
- `prizes` (line 82) and `checkpointCount` (line 202) are only displayed. Both are left out.
- The `_.some` call at lines 243-245 is discarded, so it has no effect and is left out.
- The challenge record is reduced to the fields the derivation reads. An absent string is "", and an absent list is [], where the source defaults them (`|| []`, `|| ''`, or a falsy test); the two fields where it throws instead follow.
- Error paths for missing fields are not modelled; the model supplies "" and carries on where the source throws a TypeError:
  - `const { track } = legacy` (line 77) throws when `challenge.legacy` is absent; the model's `track` is "" and gives "design";
  - `phase.name.toLowerCase()` (lines 155 and 167) throws for a phase without a `name` when the deadline detail is shown; the model's phase name is "".
- Reducer (src/shared/reducers/challenge.js), left out:
  - `handleActions` dispatch: unknown actions return the state unchanged, in code not shown.
  - The `factory` Promise chain, `combine`, and the `mySubmissionsManagement` sub-reducer (lines 5-11 and 76-83).
  - Any state keys besides the four the handlers write.
- Payload shape: the submissions payload is a list of `(submissionId, status)` records. Other submission fields are not modelled.
