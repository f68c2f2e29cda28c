# Job-search agent core, modelled in Dafny

This project models the job-search agent library of a job-seeker web app and proves properties of the model. The library is `src/lib/apis/ioNet.ts`, and three small pure consumers of its output are modelled with it.

- **Resume parsing stage (`parseResume`).** It checks configuration and admits the resume under a token budget, with prefix truncation. It issues one completion request and falls back to keyword extraction when the reply is not JSON. Finally it normalises the parsed record field by field.
- **Job search stage (`searchJobs`).** It emits a fixed five-step progress trace through a callback. It extracts the bracketed span of the reply, falls back to a fixed eight-entry table when that span does not parse, and re-scores falsy relevance scores. It then sorts the listings, stably and by descending score.
- **Helpers.** The token estimate, the skill-vocabulary extractor, the relevance score and the fallback-table generator.
- **Cover letter stage.** The selection of tone and language instructions, and the trimming of the reply.
- **`src/App.tsx`.** The reducer that merges reported steps into the step board by id.
- **`src/components/JobResults.tsx`.** The summary statistics.
- **`src/lib/utils.ts`.** The second, one-directional relevance score.

The network is an input. Each request's outcome is a `Completion` value: a reply whose `message.content` is a string, `null` or absent, a body without a first choice, an HTTP error status, a rejected `fetch`, or a body that is not JSON. `JSON.parse` is a function parameter that returns `None` where it throws. `Date.now()` and the ISO date formatting of the fallback table are parameters. The environment variables are a `Config` value. The `onStepUpdate` callback is a `Reporter` object whose `trace` field receives every update.

Modules, one per file:

- `wrappers.dfy`: `Wrappers`.
- `text.dfy`: `Text`. String primitives: ASCII lower-casing, `includes`, `split(/\W+/)`, `trim`, `join`, decimal rendering.
- `arith.dfy`: `Arith`. `Math.round`, `min` and `max` on exact rationals.
- `seqs.dfy`: `Seqs`. `filter` and `slice`.
- `json.dfy`: `Json`. Parsed values and truthiness.
- `endpoint.dfy`: `Endpoint`. Request outcomes and errors.
- `budget.dfy`: `Budget`.
- `skills.dfy`: `Skills`.
- `resume.dfy`: `ResumeParsing`.
- `relevance.dfy`: `Relevance`.
- `utils.dfy`: `UtilsScore`.
- `listings.dfy`: `Listings`.
- `agent.dfy`: `Agent`.
- `jobsearch.dfy`: `JobSearch`.
- `coverletter.dfy`: `CoverLetter`.
- `appsteps.dfy`: `AppSteps`.
- `jobstats.dfy`: `JobStats`.

Behaviour of the code that the model keeps as written, with the lemma that proves each one:

- **A shortened resume is always rejected.** Whenever the resume is actually shortened, the total-token check rejects it, so every request sent carries the whole resume (`Budget.CutTextNeverFits`, `Budget.AdmissionKeepsWholeText`). With the fixed 568-character system message, a resume is admitted exactly when it has at most 210262 characters (`Budget.Fits`). The code counts these lengths in UTF-16 code units, while the model counts characters (see "Left out").
- **No span means no listings.** A reply without a `[` followed later by a `]` yields no listings, not the fallback table (`JobSearch.ExtractListings`).
- **Failures are reported on step 2.** The failure update always names step `'2'` (`Agent.CurrentStepIsSearch`).
- **An empty word matches every skill.** With at least one skill the description then scores 100; with no skills every description scores 45 (`Relevance.EmptyWordMatchesEverything`, `Relevance.RelevanceScore`).

## Model

| member | source | states |
|---|---|---|
| Budget.TokensAreCeilings | src/lib/apis/ioNet.ts:52-56 | the estimate is `ceil(n/2.5) + ceil(0.2n)` of the length `n`, computed exactly on integers |
| Budget.Tokens | src/lib/apis/ioNet.ts:52-56 | the estimate of `n` characters is 0 exactly for `n = 0` and lies between `3n/5` and `3n/5 + 8/5` |
| Budget.EstimateTokens | src/lib/apis/ioNet.ts:51-56 | a text estimates at 0 tokens exactly when it is empty, otherwise at three fifths of its length rounded up, plus at most 8/5 |
| Budget.TokensMonotone | src/lib/apis/ioNet.ts:52-56 | a longer text never estimates at fewer tokens |
| Budget.BudgetConstants | src/lib/apis/ioNet.ts:67-83 | with the 568-character stringified system message: system tokens 342, user budget M = 123158, cut length `floor(2.5M)` = 307895 |
| Budget.TruncatedLength | src/lib/apis/ioNet.ts:80-85 | the user content is never longer than the resume; it is shorter exactly when the estimate exceeds M and the resume is longer than `floor(2.5M)`, and then it has exactly `floor(2.5M)` characters |
| Budget.CutTextNeverFits | src/lib/apis/ioNet.ts:77-101 | for any system-token count below 117500, a text cut to `floor(2.5M)` characters fails the total-token check |
| Budget.AdmissionKeepsWholeText | src/lib/apis/ioNet.ts:80-101 | the check passes after truncation exactly when the whole resume passes it, and then nothing was cut |
| Budget.Fits | src/lib/apis/ioNet.ts:94-95 | the total-token check admits a user text exactly when it has at most 210262 characters; the code measures UTF-16 code units, which is the same count only for text inside the Basic Multilingual Plane |
| Budget.TotalCheckUpTo | src/lib/apis/ioNet.ts:94-95 | `342 + estimate(n) + 1500 <= 128000` holds exactly for `n <= 210262` |
| Skills.FirstMentionedIsTakeFilter | src/lib/apis/ioNet.ts:414-416 | scanning the vocabulary and stopping after ten hits equals `filter` followed by `slice(0, 10)` |
| Skills.FirstMentioned | src/lib/apis/ioNet.ts:414-416 | the scan returns at most `room` entries, each a candidate that the text mentions |
| Skills.VocabularyDistinct | src/lib/apis/ioNet.ts:408-412 | the vocabulary has 23 entries, all different |
| Skills.ExtractSkills | src/lib/apis/ioNet.ts:407-417 | at most 10 skills; each is a vocabulary entry the text contains case-insensitively; together they are a duplicate-free subsequence of the vocabulary, in its order |
| Skills.ExtractSkillsSkipsNothing | src/lib/apis/ioNet.ts:414-416 | with fewer than 10 results every mentioned entry is returned; a mentioned entry preceding a returned one is returned too |
| ResumeParsing.FallbackResume | src/lib/apis/ioNet.ts:136-142 | the fallback record is well formed; its skills are the skills extracted from the original text, its other lists are empty, and its summary is the first 200 characters followed by `...` |
| ResumeParsing.Normalize | src/lib/apis/ioNet.ts:146-150 | a non-array list property becomes `[]`, a falsy summary becomes `""`, every other property is kept, and the result is well formed |
| ResumeParsing.NormalizedInSteps | src/lib/apis/ioNet.ts:146-150 | the five updates, each fixing one property and leaving the others, add up to normalisation |
| ResumeParsing.NormalizedIsWellFormed | src/lib/apis/ioNet.ts:146-150 | after normalisation the four list properties are arrays and the summary is truthy or `""` |
| ResumeParsing.NormalizedIsUnique | src/lib/apis/ioNet.ts:146-150 | normalisation determines its result from its input |
| ResumeParsing.NormalizationIdempotent | src/lib/apis/ioNet.ts:146-150 | normalising a record that is already well formed leaves it unchanged |
| ResumeParsing.FallbackSurvivesNormalization | src/lib/apis/ioNet.ts:134-150 | when parsing throws, the returned record is exactly the fallback record |
| ResumeParsing.ParsedOrFallback | src/lib/apis/ioNet.ts:131-143 | the parse result when `JSON.parse` succeeds, otherwise the well-formed fallback record; an absent content is parsed as the text `undefined` and a `null` one as the text `null` |
| ResumeParsing.MissingFieldBecomesEmptyList | src/lib/apis/ioNet.ts:146-149 | an absent list property comes back as `[]` |
| ResumeParsing.ParseResume | src/lib/apis/ioNet.ts:59-163 | missing configuration fails before any request. A request is sent exactly when the configuration is present and the whole resume fits, and it carries the whole resume. An over-budget resume fails with the total computed after truncation. Transport failures are rethrown. A body without a first choice is a `TypeError`. A reply yields the normalised parse result, or the normalised fallback, when it is an object or an array, and a `TypeError` otherwise; in particular a `null` content, which `JSON.parse` turns into `null`, is a `TypeError`. Every success is well formed |
| Endpoint.TransportFailure | src/lib/apis/ioNet.ts:125-128 | an HTTP error is rethrown with its status, a failed fetch as a network failure, an unreadable body as a malformed body |
| Relevance.RelevanceScore | src/lib/apis/ioNet.ts:419-427 | the score lies in [45, 100] and is 45 for an empty skill list |
| Relevance.MatchedSkills | src/lib/apis/ioNet.ts:420-423 | the matched entries are exactly the skill entries some lower-cased `/\W+/` piece contains or is contained in; each matching entry is kept as often as it is listed, and no other entry is kept |
| Relevance.Words | src/lib/apis/ioNet.ts:420 | every maximal run of word characters of the lower-cased description is a word, and every non-empty word is such a run |
| Relevance.PercentScore | src/lib/apis/ioNet.ts:425-426 | the score lies in [45, 100]; no matches give 45; at least as many matches as skill entries (and at least one) give 100 |
| Seqs.FilterMultiplicity | src/lib/apis/ioNet.ts:421-423 | `filter` keeps every occurrence of a qualifying element and no occurrence of any other |
| Arith.PercentEnds | src/lib/apis/ioNet.ts:425 | the rounded percentage is 0 for no matches and at least 100 when the matches reach the divisor |
| Relevance.RelevanceScoreIsFlooredPercent | src/lib/apis/ioNet.ts:425-426 | with skills, the score is the half-up rounded match percentage raised to 45; the clamp at 100 never applies |
| Relevance.PercentScoreMonotone | src/lib/apis/ioNet.ts:425-426 | more matches never lower the score |
| Relevance.EmptyWordAtSeparatorEdge | src/lib/apis/ioNet.ts:420 | an empty piece occurs exactly when the description is empty or starts or ends with a non-word character |
| Relevance.EmptyWordMatchesEverything | src/lib/apis/ioNet.ts:420-426 | an empty piece makes every skill entry match and the score 100 |
| Relevance.DuplicatesCountTwice | src/lib/apis/ioNet.ts:421-423 | a matching skill listed twice is counted twice |
| Relevance.LowerKeepsWordChars | src/lib/apis/ioNet.ts:420 | lower-casing changes no character's word/non-word class |
| Text.Split | src/lib/apis/ioNet.ts:420 | `split` yields at least one piece |
| Text.SplitIsWordRuns | src/lib/apis/ioNet.ts:420 | every maximal run of word characters is a piece, every non-empty piece is such a run, and every piece occurs in the text |
| Text.SplitFirstEmpty | src/lib/apis/ioNet.ts:420 | the first piece is empty exactly when the text is empty or starts with a separator |
| Text.SplitLaterEmpty | src/lib/apis/ioNet.ts:420 | a later piece is empty exactly when the text ends with a separator |
| Text.SplitLaterEmptyAfterWord | src/lib/apis/ioNet.ts:420 | for a text opening with a word character, a later piece is empty exactly when it ends with a separator |
| Text.SplitLaterEmptyAfterSeparator | src/lib/apis/ioNet.ts:420 | for a text opening with a separator, a later piece is empty exactly when it ends with a separator |
| Text.SplitHasEmptyPiece | src/lib/apis/ioNet.ts:420 | some piece is empty exactly when the text is empty or starts or ends with a separator |
| Text.SkipSeparators | src/lib/apis/ioNet.ts:420 | dropping a leading run of separators leaves a suffix that starts with a word character or is empty |
| Text.ContainsEmpty | src/lib/apis/ioNet.ts:422 | every string includes the empty string |
| Text.ContainsAt | src/lib/apis/ioNet.ts:415 | `includes` holds exactly when the needle occurs at some offset |
| Text.LowerChar | src/lib/apis/ioNet.ts:415 | upper-case ASCII letters map to lower case; every other character is unchanged |
| Text.Lower | src/lib/apis/ioNet.ts:415 | lower-casing keeps the length and maps each character by `LowerChar` at its own position |
| Text.LowerIdempotent | src/lib/apis/ioNet.ts:415 | lower-casing twice is lower-casing once |
| Text.Trim | src/lib/apis/ioNet.ts:384 | `trim` returns an infix with only white space removed around it, and neither end of it is white space |
| Text.TrimStart | src/lib/apis/ioNet.ts:384 | leading white space is removed, and only that |
| Text.TrimEnd | src/lib/apis/ioNet.ts:384 | trailing white space is removed, and only that |
| Text.TrimIdempotent | src/lib/apis/ioNet.ts:384 | trimming twice is trimming once |
| Text.DecimalString | src/lib/apis/ioNet.ts:434 | a number is rendered as a non-empty string of decimal digits that denotes it, with no leading zero: `0` is rendered as `0` alone |
| Text.JoinHasParts | src/lib/apis/ioNet.ts:438 | every part occurs in the joined text |
| UtilsScore.ForwardMatches | src/lib/utils.ts:17-20 | the skill entries that some lower-cased word contains, each kept with its full multiplicity and no others |
| UtilsScore.UtilsRelevanceScore | src/lib/utils.ts:16-22 | no number (NaN) exactly for an empty skill list; otherwise exactly the match percentage rounded half up, which lies in [0, 100] so the `Math.min` clamp never changes it |
| UtilsScore.NothingSharedScoresZero | src/lib/utils.ts:18-21 | a description that contains none of the skills scores 0, having no floor |
| UtilsScore.IoNetScoreDominates | src/lib/utils.ts:16-22 | for the same non-empty skills, the score of `ioNet.ts` is at least this one |
| Listings.Locations | src/lib/apis/ioNet.ts:431 | five location slots; the first is the given location or `Remote` when it is empty |
| Listings.FallbackScore | src/lib/apis/ioNet.ts:441 | `max(95 - 8i, 50)`: within [50, 95], falling by 8 up to listing 5 and 50 from listing 6 |
| Listings.FallbackJob | src/lib/apis/ioNet.ts:433-445 | listing `i`: id `fallback-i`, company `i mod 6`, location slot `i mod 5`, level `i mod 3`, the description template, the salary range, url `https://example.com/job/i`, the score, the first four skills as requirements, the four benefits, posting day `i` days before now |
| Listings.GenerateFallbackJobs | src/lib/apis/ioNet.ts:429-446 | exactly eight listings |
| Listings.FallbackTable | src/lib/apis/ioNet.ts:433-445 | listing `i` of the table, at index `i`, has every field of fallback listing `i`, including description and url |
| Listings.FallbackSalary | src/lib/apis/ioNet.ts:439 | the salary is `$lo - $hi` with `lo = 60000 + 10000i` and `hi = 80000 + 15000i` written in decimal |
| Listings.FallbackDescriptionMentions | src/lib/apis/ioNet.ts:438 | the description names the query right after its opening words, and each of the first three skills |
| Listings.TemplateMentions | src/lib/apis/ioNet.ts:438 | a template `opening + query + middle + parts.join(', ') + closing` names the query and every part |
| Listings.FallbackScoreValues | src/lib/apis/ioNet.ts:441 | the score of listing `i` is entry `i` of 95, 87, 79, 71, 63, 55, 50, 50 |
| Listings.FallbackScoresTable | src/lib/apis/ioNet.ts:441 | the scores are 95, 87, 79, 71, 63, 55, 50, 50 |
| Listings.FallbackScoresNonIncreasing | src/lib/apis/ioNet.ts:441 | the scores never increase, are truthy and at least 50, and every listing has a description |
| Listings.FallbackIdsDistinct | src/lib/apis/ioNet.ts:434 | the eight ids are pairwise different |
| Agent.WithStatus | src/lib/apis/ioNet.ts:267-280 | a status update sets the status and keeps every other field: id, name, description, timestamp and details |
| Agent.SearchStarted | src/lib/apis/ioNet.ts:212-215 | the two updates before the request are steps 1 and 2 as declared |
| Agent.SuccessTrace | src/lib/apis/ioNet.ts:212-280 | a successful search reports eight updates, starting with the two sent before the request |
| Agent.SuccessTraceShape | src/lib/apis/ioNet.ts:212-280 | the updates are (1, completed), (2, in progress), (2, completed), (3, in progress), (3, completed), (4, in progress), (4, completed), (5, completed) |
| Agent.Find | src/lib/apis/ioNet.ts:312 | `find` returns the first member satisfying the predicate, or nothing when no member does |
| Agent.CurrentStep | src/lib/apis/ioNet.ts:312 | the current step is a member of `steps` that is in progress, the first such member |
| Agent.CurrentStepIsSearch | src/lib/apis/ioNet.ts:312 | the step found as in progress is always step 2 |
| Agent.FailureReport | src/lib/apis/ioNet.ts:312-313 | the failure update is the second step (id `2`) with only its status set to failed and its description replaced by the fixed failure description; its name, timestamp and details are kept |
| Agent.Reporter.constructor | src/lib/apis/ioNet.ts:170 | a fresh callback has received nothing |
| Agent.Reporter.Report | src/lib/apis/ioNet.ts:170 | an update is appended to what the callback has received |
| JobSearch.FirstIndex | src/lib/apis/ioNet.ts:285 | the first position of a character, or none when it is absent |
| JobSearch.LastIndex | src/lib/apis/ioNet.ts:285 | the last position of a character, or none when it is absent |
| JobSearch.SpanIsGreedy | src/lib/apis/ioNet.ts:285 | a span exists exactly when some `[` precedes some `]`; it runs from the first `[` of the content to its last `]` |
| JobSearch.Span | src/lib/apis/ioNet.ts:285 | a span starts with `[`, ends with `]` and occurs in the content |
| JobSearch.ExtractListings | src/lib/apis/ioNet.ts:282-292 | no content gives the fallback; no bracket pair gives no listings; a span that fails to parse gives the fallback; a span that parses gives exactly the parsed listings, even when that is `[]` |
| JobSearch.ReadListings | src/lib/apis/ioNet.ts:282-292 | the inner `try` computes the listings `ExtractListings` describes |
| JobSearch.ScoreJob | src/lib/apis/ioNet.ts:295-297 | a truthy score is kept unchanged; an absent or zero score is replaced by the computed relevance score; a falsy score without a description throws; nothing else changes |
| JobSearch.ScoreJobs | src/lib/apis/ioNet.ts:295-297 | the mapping succeeds exactly when every listing can be scored, and then scores each listing at its own index |
| JobSearch.TruthyScoresKept | src/lib/apis/ioNet.ts:295-297 | listings whose scores are all truthy come out of scoring unchanged |
| JobSearch.ScoredJobsHaveTruthyScores | src/lib/apis/ioNet.ts:297 | every scored listing has a truthy score; recomputed ones lie in [45, 100], kept ones are not clamped |
| JobSearch.Insert | src/lib/apis/ioNet.ts:298 | inserting adds exactly one element |
| JobSearch.InsertPermutes | src/lib/apis/ioNet.ts:298 | inserting adds the listing and keeps every other listing, as multisets |
| JobSearch.SortByScore | src/lib/apis/ioNet.ts:298 | the sorted list is a permutation of its input with non-increasing scores |
| JobSearch.SortIsStable | src/lib/apis/ioNet.ts:298 | for every score, the listings with that score keep their relative order |
| JobSearch.SortedInputUnchanged | src/lib/apis/ioNet.ts:298 | input already in non-increasing order comes back unchanged |
| JobSearch.InsertKeepsSorted | src/lib/apis/ioNet.ts:298 | inserting into a sorted list keeps it sorted |
| JobSearch.InsertKeepsTies | src/lib/apis/ioNet.ts:298 | an inserted listing lands before every listing of equal score |
| JobSearch.FallbackComesBackInOrder | src/lib/apis/ioNet.ts:289-298 | the fallback table passes scoring unchanged and comes out of the sort in its generated order |
| JobSearch.ReportProgress | src/lib/apis/ioNet.ts:267-280 | the six updates after the reply are appended to the callback's record, in order |
| JobSearch.SearchJobs | src/lib/apis/ioNet.ts:166-316 | A transport failure reports steps 1 and 2 and then the failure update, and rethrows. Otherwise the eight progress updates are reported. A listing that cannot be scored then adds the failure update and a `TypeError`. Otherwise the result is the extracted listings, scored and stably sorted; a content that is absent or `null` is read as no content, so `match` throws inside the inner `try` and the fallback table is used |
| CoverLetter.ToneInstruction | src/lib/apis/ioNet.ts:328-330 | the formal text exactly for the formal tone, the friendly text otherwise |
| CoverLetter.LanguageInstruction | src/lib/apis/ioNet.ts:332-334 | the French text exactly for French, the English text (without a closing full stop) otherwise |
| CoverLetter.CoverLetterResult | src/lib/apis/ioNet.ts:379-384 | transport failures are rethrown; a body without a first choice, or whose content is absent or `null`, is a `TypeError`; otherwise the letter is the trimmed reply content, with no white space at either end |
| CoverLetter.CoverLetterIsTrimmedReply | src/lib/apis/ioNet.ts:384 | a reply always yields a letter; trimming it again changes nothing; an already trimmed reply is returned as it is |
| AppSteps.Ids | src/App.tsx:49 | the ids of the board, position by position |
| AppSteps.Upsert | src/App.tsx:48-54 | an unseen id is appended at the end with all earlier entries unchanged; a seen id keeps the length, replaces every entry with that id and leaves the others in place |
| AppSteps.UpsertReplacesEntry | src/App.tsx:49-51 | a step whose id only one entry has replaces that entry in place |
| AppSteps.UpsertIds | src/App.tsx:48-54 | ids keep their positions; a new id is added at the end |
| AppSteps.UpsertStoresStep | src/App.tsx:48-54 | the reported step is on the board afterwards, no other entry with its id survives, and every other entry was there before |
| AppSteps.UpsertIdSet | src/App.tsx:48-54 | the id set becomes the old set plus the step's id |
| AppSteps.UpsertKeepsIdsDistinct | src/App.tsx:48-54 | distinct ids stay distinct |
| AppSteps.UpsertIdempotent | src/App.tsx:48-54 | reporting the same step twice equals reporting it once |
| AppSteps.UpsertLastWins | src/App.tsx:48-54 | of two reports with the same id, the later one wins |
| AppSteps.AppendUnseen | src/App.tsx:48-54 | the first-seen order keeps exactly the ids seen before or reported |
| AppSteps.ReplayIds | src/App.tsx:48-54 | the board's ids are the reported ids in order of first report |
| AppSteps.ReplayKeepsIdsDistinct | src/App.tsx:48-54 | replaying a trace from a board with distinct ids keeps them distinct |
| AppSteps.ReplayAppend | src/App.tsx:48-54 | replaying two traces in turn equals replaying their concatenation |
| AppSteps.ReplayOne | src/App.tsx:48-54 | replaying one report is one update |
| AppSteps.ReplayFromSingles | src/App.tsx:48-54 | a replay whose single steps are known ends on the last known board |
| AppSteps.Replay | src/App.tsx:40-55 | replaying a trace never shrinks the board and adds at most one entry per report |
| AppSteps.ReplayNew | src/App.tsx:52-53 | reporting a step with an unseen id appends it |
| AppSteps.ReplayAt | src/App.tsx:49-51 | reporting a step whose id only entry `k` has replaces entry `k` |
| AppSteps.ReplayPair | src/App.tsx:48-54 | replaying two reports is two updates in turn |
| AppSteps.ReplayOpening | src/App.tsx:48-54 | for any three steps with distinct ids, reports (1), (2), (2 completed), (3 in progress) leave step 1, step 2 completed, and step 3 in progress |
| AppSteps.UpsertThirdDone | src/App.tsx:48-54 | completing the third entry and starting a new step keeps the first two entries and appends the new one |
| AppSteps.UpsertFourthDone | src/App.tsx:48-54 | completing the fourth entry and adding a new completed step keeps the first three entries and appends the new one |
| AppSteps.ReplayClosing | src/App.tsx:48-54 | the last four reports of a search complete step 3 in place and add steps 4 and 5, completed |
| AppSteps.ReplayStartThenFail | src/App.tsx:48-54 | two steps with distinct ids followed by a report for the second leave the first and that report |
| AppSteps.SuccessBoardHalfway | src/App.tsx:40-55 | after the first four updates of a success the board holds step 1 completed, step 2 completed and step 3 in progress |
| AppSteps.SuccessBoard | src/App.tsx:40-55 | after a successful search the board holds steps 1 to 5 in order, all completed |
| AppSteps.FetchFailureBoard | src/App.tsx:40-55 | after a failed request the board holds step 1 completed and step 2 failed |
| AppSteps.ReplaySecondOfFive | src/App.tsx:49-51 | a report for the second of five entries with distinct ids replaces that entry |
| AppSteps.LateFailureBoard | src/App.tsx:40-55 | after a failure following step 5 the board holds five steps, step 2 failed and steps 1, 3, 4 and 5 completed |
| JobStats.MinScore | src/components/JobResults.tsx:22 | the least score of a non-empty list, attained by some listing |
| JobStats.MaxScore | src/components/JobResults.tsx:22 | the greatest score of a non-empty list, attained by some listing |
| JobStats.TotalWithin | src/components/JobResults.tsx:22 | bounding every score by `lo` and `hi` bounds the sum by `lo·n` and `hi·n` |
| JobStats.TotalOfAppend | src/components/JobResults.tsx:22 | the sum over a concatenation is the sum of the two sums |
| JobStats.TotalFromFront | src/components/JobResults.tsx:22 | the sum is the first score plus the sum of the rest |
| JobStats.LocationCount | src/components/JobResults.tsx:24 | there are at most `n` distinct locations, and at least one for a non-empty list |
| JobStats.TopJobsArePositions | src/components/JobResults.tsx:23 | the length of the filtered list is the number of positions whose score is at least 80, so equal listings are counted once each |
| JobStats.Summarize | src/components/JobResults.tsx:20-24 | nothing exactly for an empty list (no division by zero). Otherwise: the count; an average that is the mean rounded half up; the top count is the number of positions scoring at least 80 (at most `n`); the location count is the size of the set of locations (between 1 and `n`) |
| JobStats.AverageWithinScores | src/components/JobResults.tsx:22 | the average lies between the least and the greatest score |
| JobStats.AverageOfEqualScores | src/components/JobResults.tsx:22 | when every score is `s`, the average is `s` |
| JobStats.TopJobsExtremes | src/components/JobResults.tsx:23 | the top count is `n` exactly when every score is at least 80, and 0 exactly when none is |
| Arith.RoundIsNearest | src/components/JobResults.tsx:22 | `Math.round(a/d)` is the integer nearest to `a/d`, halves rounding up |
| Arith.RoundWithin | src/components/JobResults.tsx:22 | rounding a quotient that lies between two integers stays between them |
| Arith.PercentWithin | src/lib/apis/ioNet.ts:425 | a rounded percentage of `m` out of `n ≥ m` lies in [0, 100], is 0 for no matches and 100 for all |
| Json.ArraysAreTruthy | src/lib/apis/ioNet.ts:146-149 | an array is truthy, so the `!x` part of each list check adds nothing to `Array.isArray` |

## Left out

- Network, persistence and logging are not modelled. `fetch`, the request headers and bodies, the Supabase inserts, and `console` output are absent. The endpoint is a `Completion` input, and persistence has no effect in the model.
- A failing Supabase insert is not modelled. The code does not check the insert's result, and persistence is not part of this model.
- Environment variables become the `Config` value. Only the resume stage reads `Config`, because only that stage checks it. The search and cover-letter stages take no configuration.
- Timers and clocks: the two `delay` calls have no effect in the model. `Date.now()` and the ISO day formatting of the fallback table are parameters. The fixed step timestamps are one constant string.
- Floating point: the token estimate and both relevance scores are computed on exact integers and rationals, with half-up rounding. Fractional or non-numeric relevance scores from the reply are not modelled; a score is an integer or absent.
- Strings: a Dafny `string` is a sequence of Unicode scalar values. JavaScript's `length` and `substring` count UTF-16 code units instead. The two agree on text of the Basic Multilingual Plane; a character outside it (an emoji, say) is one element in the model and two code units in the code.
- Budget.Fits: the limit of 210262 is in UTF-16 code units in the code and in characters in the model, so a resume with characters outside the Basic Multilingual Plane is admitted by the model at lengths the code rejects. `Budget.TruncatedLength` and `ResumeParsing.ParseResume` count the same way, and the code's `substring` can split a surrogate pair, which the model cannot.
- Character handling: lower-casing covers only the ASCII letters, and `\W` is `[^A-Za-z0-9_]` (no Unicode case folding).
- The prompt texts of the three requests are not modelled, except the tone and language instructions. This includes the cover-letter prompt built from the resume.
- The parsed resume is modelled as its own properties only. A top-level array returned by `JSON.parse` is normalised as an object without own properties, so the result has the five added properties, as in the code. What the model loses is that the result is still an array: its elements, its `length`, and that `Array.isArray` holds for it.
- The parsed job elements are modelled as `Job` values. An element that is not an object, or that lacks a string description or a numeric score, behaves like a listing without that property. The stages read the description and the score, and the statistics also read the location.
- Listing locations: `Job.location` is always a string in the model. A parsed listing without a location contributes `undefined` to the code's `Set` of locations, and two such listings both contribute `undefined`; the model gives each of them some string instead. So the location count of `JobStats.Summarize` can differ from the code's when the reply leaves out locations.
- `JobSearch.ScoreJobs`: a description that is present but not a string (which would also throw) is modelled as absent.
- The UI components are not modelled: the uploader, the cover-letter modal, the application tracker, the timeline, the job cards, the search panel and the decorative components. The `formatDate` and `cn` wrappers in `src/lib/utils.ts` are not modelled either.
