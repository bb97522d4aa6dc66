# Verified model of the engagement-letter application's core

A Dafny 4.11 model of the parts of the application that decide what a letter says and when: its dates, its
prices, its values, its client list, its documents, and the worker loop underneath. Pure code is modelled as
functions with lemmas about them; code that updates state as methods and classes whose contracts tie each
step to a specification function, with the theorems proved about that function.

`dafny verify dfyconfig.toml` checks the whole project.

## What is proved

**Dates** (`Gregorian`, `IsoText`, `Holidays`, `BusinessDayDensity`, `BusinessDays`, `Months`, `DateRules`,
`SeededRules`, `DatePlanning`, `DateOutcomes`, `Timeline`). A date is a day number, with a proved bijection to
civil dates. Easter is a Sunday from 22 March to 25 April in every year, and the first Sunday after the full
moon the epact gives. The two unbounded business-day loops terminate because any five days hold a business day; their
results are characterised exactly, compose, are monotone, and return exactly from business days. Month
addition is clamped, monotone, and its two-step and round-trip laws hold exactly when stated. A rule whose
branch facts are required never changes a date once produced, and that lifts through the feed-forward plan;
the seeded rules put an engagement's dates in order for every year-end, and the stored ones wherever nobody has
decided one of them.

**Dispatch** (`Backoff`, `Dispatch`, `DispatchLoop`). The worker loop is a transition system over every
interleaving of claims, failures, completions and the stop flag; a class with the loop's own variables
refines it. Bounds, no lost job, drain, logging and backoff hold in every reachable state; nothing is claimed
once the flag has been read; a rejecting handler never reaches the loop, and only one that throws at once ends it.

**Values** (`DocumentMerge`, `MergeOrder`, `MergeAnswers`, `MergeDocuments`, `FieldValues`, `EffectiveValues`,
`EffectiveLaws`, `FormAgreement`, `FormLaws`, `Reconcile`, `ShownValues`, `ReconcileRuns`). Merging partitions findings,
and its winner is independent of reading order exactly under a stated condition. The layered lookup behind the form and the
letter is what the map-filling code computes, and the two lists of missing fields agree exactly when stated.
Conflict rows are a state machine per token, with invariants over every run of edits, decisions, scans and
passes.

**Prices** (`Money`, `FeeEngine`, `FeeLaws`, `RuleResolution`, `FeeRuleEditing`). Two-stage rounding with a bound on
the compounded error, rule selection as an order-independent maximum, and the exact set of accepted rules
that some engagement can still use.

**Clients and documents** (`EntityNames`, `ClientDiscovery`, `ClientImport`, `ImportConvergence`,
`ImportLaws`, `DocumentScan`). Imports fill blanks only, their counts reconcile, and the same import again adds
nothing; a trading name is separated without losing either half, and kept exactly when stated; a scan is called
complete exactly when nothing was left out.

## Where the code and its documentation differ

The model follows the code. Each difference is a lemma.

- `packages/services/src/effective-values.ts:112` keeps the last conflict row of a token, so the order of
  the stored rows can decide a value: `ConflictOrderIrrelevantExactly`, `DecisionLostBehindOpenRow`.
- `packages/services/src/preparation-service.ts:603-614` leaves a decision standing when the sources come to
  agree on something else, and that decision is what prints: `NoStaleDecisionExactly`,
  `AgreementLeavesDecision`, `AgreedSourcesPrintOldDecision`. With two decisions on record a pass reopens only
  one: `SecondDecisionStaysInForce`.
- `packages/services/src/preparation-service.ts:604-610` says a pass must not clear what documents disagree about;
  it does not, but lines 631-684 can give such a row the sources' values: `DocumentRowSurvivesExactly`.
- `packages/services/src/preparation-service.ts:717-728` prefers a row's stored text, and the effective value
  its decimal or date, so a pass can compare a text the letter would not print (`ShownIsUsedExactly`), and ask
  about one day written two ways (`OneDayIsAskedAbout`). `RowIsHarmlessExactly` says which rows can do this.
- `packages/services/src/fee-rule-service.ts:226-232` promises to refuse a rule that could never do anything.
  It takes a partner for a scope, though nothing ever gives a client a partner (the columns written are those of
  `packages/services/src/client-directory-service.ts:98-111` and of the import), and it does not look at whether
  the fee belongs to the type of engagement, nor at whether the last day has begun, when the rule stops:
  `AcceptedRuleIsUsableExactly`, `PartnerRuleSlipsThrough`, `ForeignFeeSlipsThrough`, `EndedRuleSlipsThrough`.
  A client group of blanks, which line 239 accepts and line 278 removes, is caught only by the screen:
  `AcceptedRuleIsLiveExactly`, `BlankGroupSlipsThrough`, `ScreenRuleIsUsableExactly`.
- `packages/services/src/preparation-service.ts:855-866` feeds the computed filing date forward, also where a
  person has confirmed another and line 890 keeps it, so the dates that lead up to it can come after it:
  `FilingDecidedExactly`, `ConfirmedFilingIsOvertaken`.
- `packages/services/src/document-merge.ts:74-76` promises an answer that does not depend on reading order.
  `OrderIndependentExactly` says when it does not. Interleaved spellings break it
  (`CollationTierDependsOnOrder`), so do texts that collate alike, of one value or of two
  (`EqualCollationWithinAValue`, `EqualCollationBetweenValues`), and scores within the tolerance make the
  comparison no order at all (`ToleranceMakesACircle`).
- `packages/services/src/client-document-scan.ts:45-46` says a file that would not open makes a scan
  incomplete; the code only counts it: `UnreadableFilesStayComplete`.
- `packages/services/src/field-form-service.ts:183-203` calls a field of blanks filled while the letter
  calls it missing: `AgreeOnTokenExactly`, `BlankFieldPassesTheForm`. A manifest that declares the
  compilation section twice can include it unconfirmed: `CompilationFollowsConfirmationExactly`.
- `packages/services/src/client-import-service.ts:639-642` resets the contact type that creating the client
  had taken from the client itself: `RerunWritesNothingExactly`.
- `packages/services/src/client-import-service.ts:516-521` says separating a name never loses it; a client that
  has another display name loses the trading name unless the list gives a name it is in, which a row without one
  (`packages/integrations/src/karbon/client.ts:340`) does not: `SeparatedNameIsKeptExactly`, `TradeNameLost`. What
  the list gave is replaced by what it gives later: `TradeNameStaysExactly`, `TradeNameGoesLater`.
- `apps/worker/src/dispatch.ts:128-133` guards the loop against a handler that rejects; one that throws before
  it gives a promise ends the loop without a drain: `RacesNeverThrow`, `LoopThrowsExactly`.
- `apps/worker/src/polling-failure.ts:18-19` says the first failure waits the ordinary interval; an interval
  above the ceiling is shortened: `FirstFailureWait`.

## Model

| member | source | states |
|---|---|---|
| Gregorian.YearOf | packages/dates/src/calendar.ts:11-13 | the year of a day number is the one whose days contain it, found by a search that ends for every integer |
| Gregorian.CivilOf | packages/dates/src/calendar.ts:11-13 | the civil date of every day number is valid and has that number |
| Gregorian.YearLength | packages/dates/src/calendar.ts:36-38 | consecutive years start 365 or 366 days apart, as the leap rule says |
| Gregorian.DayRoundTrip | packages/dates/src/calendar.ts:11-17 | every valid civil date is recovered from its day number, so the two are in bijection |
| Gregorian.DatesAreDistinct | packages/dates/src/calendar.ts:11-13 | two valid civil dates with one day number are the same date |
| IsoText.UtcDateRemap | packages/dates/src/calendar.ts:11-13 | building a date agrees with calendar arithmetic exactly when the year is not 0 to 99 |
| IsoText.TextIdentifiesDay | packages/dates/src/calendar.ts:15-17 | the ten-character text belongs to one day only, exactly for years 0 to 9999 |
| IsoText.IsoRoundTrip | packages/dates/src/calendar.ts:15-24 | reading back the text of a day gives that day exactly for years 100 to 9999 |
| IsoText.TextSurvives | packages/dates/src/calendar.ts:19-24 | writing back a date read from text gives that text exactly when it names a real date outside the remapped years |
| Holidays.EasterIsSunday | packages/dates/src/calendar.ts:88-104 | for every year the computed Easter is a Sunday from 22 March to 25 April of that year |
| Holidays.EasterFollowsFullMoon | packages/dates/src/calendar.ts:88-104 | Easter is the first Sunday strictly after the paschal full moon, which is defined from the epact with its solar and lunar corrections and shares nothing with the computation |
| Holidays.FullMoonIs | packages/dates/src/calendar.ts:91-97 | the computation's offset is the full moon the epact gives, its two exceptions included, in every year |
| Holidays.MovableHolidaysAreMondays | packages/dates/src/calendar.ts:106-117 | Victoria Day, Labour Day and Thanksgiving are Mondays, in the one week each can fall in |
| Holidays.WeekIsInStep | packages/dates/src/calendar.ts:126-128 | the days of the week are the world's |
| Holidays.GoodFridayIsListed | packages/dates/src/calendar.ts:106-124 | Good Friday is a Friday from 20 March to 23 April and is found by its own year's list |
| Holidays.NthWeekdayIs | packages/dates/src/calendar.ts:75-79 | the result is the wanted weekday and lies in the nth week of the month |
| Holidays.MondayBeforeIs | packages/dates/src/calendar.ts:81-85 | the result is the last Monday strictly before the day |
| Holidays.HolidaysAreSpaced | packages/dates/src/calendar.ts:106-117 | where each holiday of a year falls, counted from its first of January |
| Holidays.HolidaysStayInTheirYear | packages/dates/src/calendar.ts:120-124 | every listed holiday falls in the year it is listed for, so a date need only consult its own year |
| Holidays.HolidayByText | packages/dates/src/calendar.ts:120-124 | comparing texts finds a holiday exactly when the day is one, for years 0 to 9999 |
| BusinessDayDensity.FewListed | packages/dates/src/calendar.ts:106-117 | no five days hold more than two holidays and no three weeks more than three |
| BusinessDayDensity.WeekdaysMinusHolidays | packages/dates/src/calendar.ts:120-128 | business days in a short window are exactly its weekdays less those listed for its first year and the next New Year's Day |
| BusinessDayDensity.FiveDaysHoldOne | packages/dates/src/calendar.ts:126-146 | any five consecutive days of any year hold a business day, the measure both loops need |
| BusinessDayDensity.ThreeWeeksHoldTwelve | packages/dates/src/calendar.ts:126-139 | any twenty-one consecutive days hold at least twelve business days |
| Stepping.StepForwardCounts | packages/dates/src/calendar.ts:130-139 | n steps forward land on the nth marked day strictly after the start |
| Stepping.StepBackwardCounts | packages/dates/src/calendar.ts:130-139 | n steps back land on the nth marked day strictly before the start |
| Stepping.NthAfterUnique | packages/dates/src/calendar.ts:130-139 | only one day is the nth after |
| Stepping.NthBeforeUnique | packages/dates/src/calendar.ts:130-139 | only one day is the nth before |
| BusinessDays.AddBusinessDays | packages/dates/src/calendar.ts:130-139 | the loop terminates for either sign and returns the day the counting specification names |
| BusinessDays.NextBusinessDay | packages/dates/src/calendar.ts:142-146 | the loop terminates and returns the first business day from the date on, at most four days later |
| BusinessDays.RollIsOneFromTheDayBefore | packages/dates/src/rule-engine.ts:192-198 | the engine's roll equals the next business day, and moves a date exactly when it is not one |
| BusinessDays.BusinessDaysFromIsExact | packages/dates/src/calendar.ts:130-139 | a day is the result exactly when it is a business day with that many business days in the half-open interval |
| BusinessDays.BusinessDaysCompose | packages/dates/src/calendar.ts:130-139 | counts of the same sign add |
| BusinessDays.BusinessDaysReturn | packages/dates/src/calendar.ts:130-139 | n then minus n returns to the start exactly from a business day, or for n zero |
| BusinessDays.BusinessDaysMonotone | packages/dates/src/calendar.ts:130-139 | a later start never lands earlier, for any count of either sign |
| BusinessDays.RollMonotone | packages/dates/src/calendar.ts:142-146 | rolling keeps the order of dates |
| BusinessDays.TwelveBackIsThreeWeeks | packages/dates/src/default-rules.ts:162-176 | up to twelve business days back is never more than three weeks back |
| Months.AddDaysIsAddition | packages/dates/src/calendar.ts:30-34 | going through the civil date and its overflowing day is addition of day numbers |
| Months.DaysInMonthIsLength | packages/dates/src/calendar.ts:36-38 | day zero of the next month gives the length of the month, for any month number |
| Months.AddMonthsIsClamped | packages/dates/src/calendar.ts:44-55 | the month index shifts by exactly n and the day is the smaller of itself and the month's length |
| Months.EndOfMonthIsLast | packages/dates/src/calendar.ts:153-157 | the result is the last day of the same month and not before the date |
| Months.AddMonthsMonotone | packages/dates/src/calendar.ts:44-55 | month addition keeps the order of dates |
| Months.AddMonthsStrict | packages/dates/src/calendar.ts:44-55 | adding more months lands strictly later |
| Months.AddMonthsTwice | packages/dates/src/calendar.ts:44-55 | two additions never land after their sum, and agree exactly when the first clamp loses nothing the second would keep |
| Months.AddMonthsUndone | packages/dates/src/calendar.ts:44-55 | n then minus n is the identity exactly when the day exists in the month between |
| Months.ThreeMonthsApart | packages/dates/src/default-rules.ts:132-161 | three more months are at least eighty-one more days |
| DateRules.EvaluateDateRule | packages/dates/src/rule-engine.ts:127-211 | the branching code with its pushed assumptions computes the specified outcome, blocked cases included |
| DateRules.NeverGuesses | packages/dates/src/rule-engine.ts:127-211 | when branch facts are required, more information never changes a produced outcome |
| DateRules.GuessesExactly | packages/dates/src/rule-engine.ts:152-198 | for any base and branches, a rule never changes its date exactly when every branch that could still be chosen gives the date it already gives |
| DateRules.OneBranchGuessesExactly | packages/dates/src/rule-engine.ts:172-198 | a one-branch rule never changes its date exactly when it requires the fact or the branch changes nothing |
| DateOutcomes.YearsLater | packages/dates/src/rule-engine.ts:115-116 | adding years keeps the month, and the day but for 29 February |
| DateOutcomes.BlockedBy | packages/dates/src/rule-engine.ts:152-186 | a date is blocked by an unknown base first, and otherwise exactly by the required facts nobody has answered |
| DateOutcomes.AssumptionsAre | packages/dates/src/rule-engine.ts:149-198 | the assumptions of a date in order, the last exactly when the rule rolls and the day it came to is not a business day |
| SeededRules.SeededRulesRequireTheirFacts | packages/dates/src/default-rules.ts:20-257 | every seeded rule requires each fact it branches on |
| SeededRules.OnlyPlannedDatesAreConfirmed | packages/dates/src/default-rules.ts:20-257 | a rule asks for confirmation exactly when some plan holds it |
| DatePlanning.EngagementDates.PutDate | packages/services/src/preparation-service.ts:871-911 | a row is stored unless the date was confirmed or overridden |
| DatePlanning.EngagementDates.CalculateDates | packages/services/src/preparation-service.ts:791-869 | the loop leaves the rows of the specified run, reports its blocked tokens, and counts add up |
| DatePlanning.StoredAfter | packages/services/src/preparation-service.ts:871-911 | after a run decisions stand, evaluated tokens hold their last outcome, and other rows are untouched |
| DatePlanning.StoredDates | packages/services/src/preparation-service.ts:886-910 | after a run a decided date is what it was, and every other date the run computes is stored |
| DateOutcomes.StoredRowSays | packages/services/src/preparation-service.ts:841-852 | an undecided date is stored with its rule, inputs, result and reasons, unconfirmed |
| DateOutcomes.IssueIsProposed | packages/services/src/preparation-service.ts:822-833 | the date of issue is proposed as today, to be confirmed, until decided |
| DateOutcomes.PlanStartsFrom | packages/services/src/preparation-service.ts:806-811 | a plan starts from the engagement's year-end and tax year, today, and the answers, with no deadline known |
| DatePlanning.RerunIsIdempotent | packages/services/src/preparation-service.ts:791-911 | storing the same run again changes nothing |
| DatePlanning.PlansLeaveSlotsFree | packages/services/src/preparation-service.ts:100-125 | in every plan no date is fed forward into a slot that already had one |
| DatePlanning.PlanNeverGuesses | packages/services/src/preparation-service.ts:835-866 | more information never changes or withdraws a date the whole plan has produced |
| Timeline.RunIs | packages/services/src/preparation-service.ts:835-866 | a seeded plan evaluates every entry on exactly the inputs fed forward to it |
| Timeline.T2Timeline | packages/dates/src/default-rules.ts:93-176 | for every T2 year-end: balance due by client information, before target completion, before authorizations, before filing |
| Timeline.T1Timeline | packages/dates/src/default-rules.ts:22-90 | for every T1 year: information, then T183, then filing, with payment by filing; blocked exactly until the fact is answered |
| Timeline.T3Timeline | packages/dates/src/default-rules.ts:179-224 | for every trust year-end filing and payment coincide ninety days later and information is due after forty-five, rolled |
| Timeline.SigningDates | packages/dates/src/default-rules.ts:226-257 | a signature request lapses thirty days after sending and is first chased on the third business day |
| Timeline.StoredTimeline | packages/services/src/preparation-service.ts:835-910 | for every kind of engagement, the stored dates leading up to filing fall in order wherever nobody has decided one, and decided ones stay |
| Timeline.StoredPayment | packages/services/src/preparation-service.ts:835-910 | the stored balance date, once known, is not after the information date (T2) or the filing date, unless one is decided |
| Timeline.FilingDecidedExactly | packages/services/src/preparation-service.ts:855-890 | with the filing date alone decided, the stored dates fall in order exactly when it is after the last date computed back from the computed one |
| Timeline.ConfirmedFilingIsOvertaken | apps/web/src/app/actions.ts:311-330 | for every T1 year: confirm the filing date, then answer that the client is self-employed, and both dates leading up to it are stored after it |
| Backoff.BackoffIsCappedDoubling | apps/worker/src/polling-failure.ts:21-25 | the exponent-capped form equals capped doubling for every failure count and poll interval of at least one |
| Backoff.BackoffNeverShortens | apps/worker/src/polling-failure.ts:21-25 | more failures never wait less |
| Backoff.BackoffReachesCeiling | apps/worker/src/polling-failure.ts:21-25 | from the seventeenth failure the wait is a minute, the ceiling |
| Backoff.SixteenFailuresAreNotEnough | apps/worker/src/polling-failure.ts:21-25 | seventeen is the best such bound |
| Backoff.FirstFailureWait | apps/worker/src/polling-failure.ts:17-25 | the first failure waits the poll interval exactly when that is no more than the ceiling |
| Dispatch.RunsKeep | apps/worker/src/dispatch.ts:62-151 | the invariant holds in every state of every run |
| Dispatch.DispatchSafety | apps/worker/src/dispatch.ts:62-151 | in every run: jobs in flight within the limit, each non-null claim started once and in order, each in flight or settled or the one that threw, all settled on return |
| Dispatch.DispatchBackoff | apps/worker/src/dispatch.ts:82-114 | in every run: the count is the trailing failures, the first is logged, logs are five minutes apart, waits are as specified |
| Dispatch.RacesNeverThrow | apps/worker/src/dispatch.ts:126-144 | in every run, whatever handlers reject, the handle that decides a race was fulfilled and the loop goes round |
| Dispatch.LoopThrowsExactly | apps/worker/src/dispatch.ts:126-144 | a run ends by an error exactly when some started handler threw before giving a promise |
| Dispatch.RejectionsDoNotMatter | apps/worker/src/dispatch.ts:134-144 | through the promises of handler, catch and finally, which handlers reject changes neither what may happen next nor where the loop gets |
| Dispatch.NeverStuckExactly | apps/worker/src/dispatch.ts:70-76 | no run waits for nothing exactly when the limit is at least one |
| Dispatch.CapacityIsReached | apps/worker/src/dispatch.ts:70-145 | every number of jobs up to the limit can be in flight at once |
| Dispatch.StopIsFinal | apps/worker/src/dispatch.ts:70-162 | in every run, once a check has read the stop flag nothing more is claimed or started, and the loop returns after exactly the promises then in flight |
| Dispatch.ClaimsExactlyBelowTheLimit | apps/worker/src/dispatch.ts:70-84 | a check that finds the loop running lets a claim be answered next exactly when fewer jobs run than the limit |
| Dispatch.EveryTurnIsChecked | apps/worker/src/dispatch.ts:70-76 | in every run each claim and each race won come straight after a check that read the loop as running, and the return after one that read it as stopped |
| Dispatch.TurnsLead | apps/worker/src/dispatch.ts:108-155 | a failed or empty claim leads to exactly the wait it asks for, and a started job, a wait ended or a race won to the next check |
| Dispatch.DrainFinishes | apps/worker/src/dispatch.ts:147-151 | once stopping it starts nothing, and returns after exactly the promises then in flight have settled |
| DispatchLoop.Loop.Check | apps/worker/src/dispatch.ts:70-76 | the top of the loop takes the specified step |
| DispatchLoop.Loop.ClaimFailed | apps/worker/src/dispatch.ts:84-108 | the catch around the claim counts, logs when due and sleeps as specified |
| DispatchLoop.Loop.ClaimedNothing | apps/worker/src/dispatch.ts:110-124 | a null claim ends the streak and sleeps |
| DispatchLoop.Loop.ClaimedJob | apps/worker/src/dispatch.ts:110-145 | a job is started and its handle is in flight, or the loop throws with it |
| DispatchLoop.Loop.Answer | apps/worker/src/dispatch.ts:82-145 | from the claim's answer to the next wait is the specified step, and says when a failure is logged |
| DispatchLoop.Loop.Wake | apps/worker/src/dispatch.ts:105-124 | the end of a sleep is the specified step |
| DispatchLoop.Loop.ResumeRace | apps/worker/src/dispatch.ts:71-76 | code that would rethrow a rejected race always goes round |
| DispatchLoop.Loop.RunSettles | apps/worker/src/dispatch.ts:134 | a handler's own promise settling, either way, is a step that touches nothing of the loop's |
| DispatchLoop.Loop.CatchCallback | apps/worker/src/dispatch.ts:134-139 | the callback logs exactly a rejection and touches nothing of the loop's |
| DispatchLoop.Loop.FinallyCallback | apps/worker/src/dispatch.ts:140-144 | the handle leaves the active set whichever way the handler ended, and decides a race it is the first to settle |
| DispatchLoop.Loop.Return | apps/worker/src/dispatch.ts:147-151 | when the loop returns every job ever claimed has settled |
| DocumentMerge.GroupsAreClasses | packages/services/src/document-merge.ts:116-121 | grouping one finding at a time yields exactly the classes of agreement, one group each |
| MergeDocuments.GroupFindings | packages/services/src/document-merge.ts:116-121 | the find-or-push loop computes the specified groups |
| MergeDocuments.FillBuckets | packages/services/src/document-merge.ts:103-113 | the buckets hold each token's non-blank findings in order, and the tokens come in collation order |
| MergeDocuments.MergeDocumentFindings | packages/services/src/document-merge.ts:102-143 | one entry for each token with a non-blank finding, each the specified merge of its bucket |
| MergeAnswers.FindingsCount | packages/services/src/document-merge.ts:104-111 | a token is merged from every finding about it that is more than blanks, as often as it was read, and from no other |
| MergeAnswers.StoredTextIsBest | packages/services/src/document-merge.ts:126-137 | the text stored is that of an agreeing finding: none scores higher, at that score none is of a kind believed before in the listed order, and of such a kind none is spelled earlier |
| MergeAnswers.AnswersAreRanked | packages/services/src/document-merge.ts:80-101 | with scores equal or apart, the winning group goes before each that lost, and these before one another: by best score, then documents, then best kind, then first spelling |
| MergeOrder.MergePartitions | packages/services/src/document-merge.ts:116-139 | corroborating and disagreeing groups hold every finding exactly once, and only the agreeing ones corroborate |
| MergeOrder.RankingIs | packages/services/src/document-merge.ts:79-100 | between two groups the tiers decide in order: score beyond the tolerance, count, kind, collation |
| MergeOrder.FirstIsBest | packages/services/src/document-merge.ts:123-124 | with separated scores no group outranks the winner |
| MergeOrder.FirstReadStands | packages/services/src/document-merge.ts:116-124 | the winner is the group first read or strictly precedes it |
| MergeOrder.OrderIndependentExactly | packages/services/src/document-merge.ts:79-139 | with scores equal or apart, the value is the same for every order of reading exactly when one class outranks every other and its foremost findings spell it alike |
| MergeOrder.NoTiesLeaveSpelling | packages/services/src/document-merge.ts:79-139 | with no ties through the kind tier some class outranks every other, and order is irrelevant exactly when it is spelled alike |
| MergeDocuments.ScanOrderIndependentExactly | packages/services/src/document-merge.ts:71-143 | the same exact condition for a whole scan, token by token |
| MergeDocuments.CollationTierDependsOnOrder | packages/services/src/document-merge.ts:71-100 | spellings of one value either side of a rival's: the winner changes with the order of reading |
| MergeDocuments.EqualCollationWithinAValue | packages/services/src/document-merge.ts:126-130 | two texts of one value that collate alike: the first read is stored |
| MergeDocuments.EqualCollationBetweenValues | packages/services/src/document-merge.ts:99-124 | two values that collate alike: the first read wins |
| MergeDocuments.ToleranceMakesACircle | packages/services/src/document-merge.ts:86-97 | three documents with scores within the tolerance, each preceding the next in a circle |
| FieldValues.NeverEmpty | packages/services/src/field-values.ts:58-102 | a resolution is never empty, and exists exactly when a row or a decision supplies a value |
| FieldValues.ResolutionIgnoresOrder | packages/services/src/field-values.ts:47-102 | with one row per source the result does not depend on reading order |
| FieldValues.ResolutionFollowsPrecedence | packages/services/src/field-values.ts:52-107 | for any rows: an overridden row, else the decision, else a confirmed row, else any with a value; of several the most authoritative source by name, then the earliest collation, then the first read; and nothing exactly when there is none |
| EffectiveValues.ResolveEffectiveValues | packages/services/src/effective-values.ts:105-189 | successive overwriting of one map is the layered lookup for the wanted tokens and no others |
| EffectiveLaws.FeePrintsFirst | packages/services/src/effective-values.ts:161-172 | the last calculated fee of the kind that owns a token prints before everything else |
| EffectiveLaws.DatePrintsNext | packages/services/src/effective-values.ts:146-160 | without a fee the last settled date prints, a person's own before the calculated |
| EffectiveLaws.FieldPrintsThen | packages/services/src/effective-values.ts:112-144 | without either, the field rows print as their precedence and the token's last decision resolve them |
| EffectiveLaws.YearPrintsLast | packages/services/src/effective-values.ts:174-188 | with nothing in any table only the engagement's year is left, for its own token |
| EffectiveLaws.RowContributes | packages/services/src/effective-values.ts:122-133 | a row contributes its decimal, else its date, else its text |
| EffectiveValues.FillRows | packages/services/src/effective-values.ts:113-119 | the buckets hold each wanted token's rows in order |
| EffectiveValues.FieldValuesOf | packages/services/src/effective-values.ts:112-144 | the field pass leaves exactly the resolved field value of each wanted token |
| EffectiveValues.LayDates | packages/services/src/effective-values.ts:146-159 | the last settled date of a token replaces what was under it, and nothing else changes |
| EffectiveValues.LayFees | packages/services/src/effective-values.ts:161-172 | the last fee of a token replaces what was under it, and nothing else changes |
| EffectiveValues.DecisionMatters | packages/services/src/field-values.ts:64-102 | a decision changes the result exactly when no row is overridden and its verdict differs |
| EffectiveValues.ConflictOrderIrrelevantExactly | packages/services/src/effective-values.ts:112-133 | the order of conflict rows is irrelevant exactly when the token's rows are not consulted or give one verdict |
| EffectiveValues.DecisionLostBehindOpenRow | packages/services/src/effective-values.ts:112-133 | two rows, one decided and one open, whose order decides the value |
| EffectiveValues.LayeredIgnoresOrder | packages/services/src/effective-values.ts:97-189 | with one row each the lookup does not depend on the order of any table |
| EffectiveValues.FieldValueIsNeverEmpty | packages/services/src/effective-values.ts:121-144 | an effective value from a field row is never empty |
| FormAgreement.IncludedSections | packages/services/src/field-form-service.ts:361-386 | the loop and the splice leave the selected sections with compilation following the confirmation |
| FormAgreement.CompilationFollowsConfirmationExactly | packages/services/src/generation-service.ts:175-186 | the section applies exactly when confirmed, unless two selected copies of it are declared |
| FormLaws.SelectedIsLastAnswer | packages/services/src/field-form-service.ts:366-372 | a service is selected as its last answer says, and not without one |
| FormLaws.SectionAppliesExactly | packages/services/src/field-form-service.ts:366-372 | every section but the compilation one applies exactly when its service is selected |
| FormLaws.CompilationAppliesExactly | packages/services/src/field-form-service.ts:374-380 | declared once, the compilation section applies exactly when confirmed; undeclared, never |
| FormLaws.RequiredExactly | packages/documents/src/template-engine/manifest.ts:230-254 | what is required: a field that names a section when that applies, any other as declared, and what the sections that apply list |
| FormAgreement.FormFor | packages/services/src/field-form-service.ts:122-203 | the outstanding list is the required definitions without an effective value, in order |
| FormAgreement.BuildValues | packages/services/src/generation-service.ts:113-189 | the printed values are exactly the formatted effective ones, with the unconfirmed compilation fee not applicable |
| FormLaws.CompilationFeePrints | packages/services/src/generation-service.ts:175-186 | the compilation fee prints as not applicable where its section is declared and not confirmed |
| FormAgreement.MissingRequiredFields | packages/services/src/generation-service.ts:206-213 | the missing list is the required tokens that print nothing but blanks |
| FormAgreement.AgreeOnTokenExactly | packages/services/src/field-form-service.ts:183-203 | form and letter agree on a required token exactly outside three stated families |
| FormAgreement.BlankFieldPassesTheForm | packages/services/src/generation-service.ts:206-213 | a blank value from the client system is filled for the form and missing from the letter |
| FormAgreement.FormMatchesLetter | packages/services/src/field-form-service.ts:141-203 | for a well-formed manifest whose values print something the two lists are the same, compilation confirmed or not |
| Reconcile.RecommendedIsBest | packages/services/src/preparation-service.ts:617-625 | the recommended value is on the table and from the most authoritative source there |
| Reconcile.ShownIsUsedExactly | packages/services/src/preparation-service.ts:717-728 | exactly when the text a pass compares is the text the effective value would use |
| Reconcile.FactsAreNotCompared | packages/services/src/preparation-service.ts:586-593 | the tokens of the facts family, and only they, are never put on the table |
| ShownValues.RowIsHarmlessExactly | packages/services/src/preparation-service.ts:598-603 | a row never makes a pass find agreement differently from the values the letter would use, whatever other rows that read alike stand beside it, exactly when what it shows and what it contributes normalise alike |
| ShownValues.AlikeRowsAreHarmless | packages/services/src/preparation-service.ts:598-603 | over rows that all read alike a pass finds agreement exactly when the values the letter would use agree |
| ShownValues.GapsAgree | packages/shared/src/domain.ts:188-199 | what a run of blanks, commas and full stops is made of, and how long it is, makes no difference to agreement |
| ShownValues.PlainFormsAgree | packages/shared/src/domain.ts:188-199 | nor does a curly quotation mark or a long dash in its plain form |
| ShownValues.OneDayIsAskedAbout | packages/services/src/preparation-service.ts:717-728 | a client's year-end and the same day in a letter's words: the texts the letter would use are equal, the ones compared are not, and the pass raises a question |
| Reconcile.FewValuesAgree | packages/services/src/preparation-service.ts:601-603 | fewer than two distinct values always agree, so the size guard adds nothing |
| Reconcile.StepCovers | packages/services/src/preparation-service.ts:617-698 | after a pass a disagreeing token has an open row showing the current values or a decision about exactly them |
| Reconcile.StepKeepsOneCrossSource | packages/services/src/preparation-service.ts:597-699 | a pass never makes a second cross-source row |
| Reconcile.PassBalances | packages/services/src/preparation-service.ts:595-699 | a pass never touches the number of document questions and raises exactly as many as there are more open rows |
| Reconcile.DocumentRowSurvivesExactly | packages/services/src/preparation-service.ts:604-684 | a row documents raised among themselves keeps its candidates, whichever rows the queries return, exactly when the sources agree, or it is a decision about the current values, or it is open and shows them or stands behind a decision |
| Reconcile.NoStaleDecisionExactly | packages/services/src/preparation-service.ts:603-674 | no stale decision survives, whichever rows the queries return, exactly when there was none or the sources disagree and at most one was on record |
| Reconcile.IdleExactly | packages/services/src/preparation-service.ts:597-699 | exactly which rows a pass leaves alone, whichever rows the queries return |
| Reconcile.SecondPassIdleExactly | packages/services/src/preparation-service.ts:597-699 | exactly from which rows a second pass has nothing left to do |
| Reconcile.AgreementLeavesDecision | packages/services/src/preparation-service.ts:603-614 | sources that came to agree leave a decision about other values in force |
| ReconcileRuns.GroupFields | packages/services/src/preparation-service.ts:582-593 | the tokens of a pass are distinct, facts are left out, and each bucket holds the token's rows in order |
| ReconcileRuns.ConflictDesk.ReconcileToken | packages/services/src/preparation-service.ts:597-699 | the queries and updates for one token are the specified step and touch no other token |
| ReconcileRuns.ConflictDesk.ReconcileAll | packages/services/src/preparation-service.ts:581-715 | the whole pass steps every token once and returns the number of questions raised |
| ReconcileRuns.ConflictDesk.DecideConflict | apps/web/src/app/actions.ts:266-295 | a choice marks the row resolved with exactly the value and source given; an empty one is refused and changes nothing |
| ReconcileRuns.ConflictDesk.RaiseFromScan | packages/services/src/client-document-scan.ts:614-638 | a scan adds one open row of its own kind and nothing else |
| ReconcileRuns.OneCrossSourceInEveryRun | packages/services/src/preparation-service.ts:581-715 | over every run of edits, decisions, scans and passes no token has two cross-source rows |
| ReconcileRuns.EveryPassCovers | packages/services/src/preparation-service.ts:631-698 | right after any pass every disagreeing token is open on the current values or decided about exactly them |
| ReconcileRuns.PassesConvergeWithoutScans | packages/services/src/preparation-service.ts:581-715 | in every run without scan questions a pass leaves no stale decision in a disagreement, and a second pass changes and raises nothing |
| ReconcileRuns.SecondDecisionStaysInForce | packages/services/src/preparation-service.ts:635-674 | a run of edits, decisions and a scan after which a pass reopens one decision and leaves a stale one in force |
| ReconcileRuns.StandingDecisionPrints | packages/services/src/effective-values.ts:112-144 | once the sources agree, a decision a pass left standing is the value that prints |
| ReconcileRuns.ChoicePrints | apps/web/src/app/actions.ts:266-295 | what a person chose last prints, under the source it was chosen from |
| ReconcileRuns.AgreedSourcesPrintOldDecision | packages/services/src/preparation-service.ts:603-614 | both sources say B and the letter prints the old decision for A |
| ReconcileRuns.QuietRaisesNothing | packages/services/src/preparation-service.ts:595-714 | a pass over quiet tokens raises nothing |
| Money.CentsAreClose | packages/shared/src/money.ts:34-36 | rounding to cents moves a non-negative amount by at most half a cent and yields whole cents |
| Money.CentsKeepFloor | packages/shared/src/money.ts:34-36 | nothing at a whole cent or above rounds below it |
| Money.FivesAreNext | packages/shared/src/money.ts:38-51 | the rounded fee is the least multiple of five not below the amount |
| Money.FivesFixed | packages/shared/src/money.ts:38-51 | rounding leaves an amount alone exactly when it is a multiple of five |
| Money.RoundsHalfAway | packages/shared/src/money.ts:34-36 | rounding goes to the nearest last place, a half away from zero, alike on either side of it |
| FeeEngine.CalculateFee | packages/pricing/src/engine.ts:106-282 | the branching code computes the specified quote and pushes exactly the due warnings in order |
| FeeEngine.WarningsAreExact | packages/pricing/src/engine.ts:114-292 | a warning is given exactly when due and none twice, so the de-duplication drops nothing |
| FeeLaws.FixedAmountYear | packages/pricing/src/engine.ts:203-216 | a fixed amount is added to last year's fee, then rounded as the rule says, or blocked below zero |
| FeeLaws.TargetYear | packages/pricing/src/engine.ts:173-179 | a target is charged whatever last year's fee was |
| FeeLaws.OverrideYear | packages/pricing/src/engine.ts:162-171 | a written override replaces what the rule would have come to and is rounded alike |
| FeeLaws.NoPriceExactly | packages/pricing/src/engine.ts:162-222 | there is no price, and why, exactly when an override has no reason or something the method needs is missing |
| FeeLaws.ApprovalExactly | packages/pricing/src/engine.ts:232-262 | a decrease always needs approval, and an increase exactly when its percentage, to four places, is above the threshold, ten by default |
| FeeLaws.WarningsMean | packages/pricing/src/engine.ts:114-272 | what each warning means, of the inputs and the price |
| FeeEngine.PercentageYear | packages/pricing/src/engine.ts:190-250 | one year of a non-negative increase: a multiple of five, not below last year, within half a cent below and five dollars above the exact product |
| FeeEngine.CompoundingBound | packages/pricing/src/engine.ts:190-250 | over any sequence of yearly increases the fee is a multiple of five, not below the start, above the exact product less the compounded half-cents and below it plus the compounded five dollars |
| FeeEngine.NeverFalls | packages/pricing/src/engine.ts:190-250 | over any sequence of non-negative increases the fee never falls |
| FeeEngine.SteadyCompounding | packages/pricing/src/engine.ts:190-250 | after n years at one rate both bounds in closed form around the exact growth |
| FeeEngine.GeometricSum | packages/pricing/src/engine.ts:190-250 | the compounded roundings sum to the geometric closed form |
| FeeEngine.NoIncreaseKeepsFee | packages/pricing/src/engine.ts:180-250 | the no-increase method keeps last year's fee exactly when that was already a multiple of five |
| RuleResolution.BeatsTrichotomy | packages/pricing/src/rule-resolution.ts:87-98 | of two rules exactly one beats the other unless level, date and id all agree |
| RuleResolution.BeatsNegTransitive | packages/pricing/src/rule-resolution.ts:87-98 | not being beaten is transitive, so folding finds a maximum |
| RuleResolution.ResolveIsMaximal | packages/pricing/src/rule-resolution.ts:82-99 | the result is an applicable rule that no applicable rule beats, and there is none exactly when none applies |
| RuleResolution.ResolvePrefers | packages/pricing/src/rule-resolution.ts:17-99 | a rule for this once wins over one for the client, that over partner or group, that over type of engagement, that over global; then the latest to take effect; then the greatest identifier |
| RuleResolution.AppliesExactly | packages/pricing/src/rule-resolution.ts:51-79 | when a rule applies, by window, fee, type and the scope of its level |
| RuleResolution.ResolveIgnoresOrder | packages/pricing/src/rule-resolution.ts:82-99 | with distinct ids every order of the rules gives the same rule |
| RuleResolution.AddingOneRule | packages/pricing/src/rule-resolution.ts:82-99 | one more rule leaves the winner or becomes it |
| FeeRuleEditing.ParseDateIsExact | packages/services/src/fee-rule-service.ts:293-303 | a date is accepted exactly when it is blank or the text of a real day |
| FeeRuleEditing.AmountIsTheMethods | packages/services/src/fee-rule-service.ts:246-262 | each method reads its own amount, a percentage to four places and money to cents, and refuses it blank, negative or not a number |
| FeeRuleEditing.AcceptedRuleSays | packages/services/src/fee-rule-service.ts:264-290 | an accepted rule is stored as it was put: its amount with its method, its days as midnights, its scope by level |
| FeeRuleEditing.RefusedExactly | packages/services/src/fee-rule-service.ts:233-244 | a rule is refused for want of a scope exactly when its level needs one that is not given |
| FeeRuleEditing.AcceptedRuleIsUsableExactly | packages/services/src/fee-rule-service.ts:225-291 | over the contexts the program builds from now on, an accepted rule is used in some exactly when active, naming a group at the partner-or-group level, pairing a fee with its own type of engagement, and its last day has not begun |
| FeeRuleEditing.ScreenRuleIsUsableExactly | apps/web/src/app/actions.ts:1744-1764 | a rule saved through the screen is usable exactly when active, naming a group at the partner-or-group level, with a fee of its type of engagement, and its last day has not begun |
| FeeRuleEditing.PartnerRuleSlipsThrough | packages/services/src/pricing-service.ts:85-90 | an accepted rule for a partner, which no client has |
| FeeRuleEditing.ForeignFeeSlipsThrough | packages/services/src/preparation-service.ts:84-93 | an accepted rule about a fee no engagement of its type is priced for |
| FeeRuleEditing.EndedRuleSlipsThrough | packages/pricing/src/rule-resolution.ts:51-54 | an accepted rule whose last day, perhaps its only one, had begun when it was saved |
| FeeRuleEditing.AcceptedRuleIsLiveExactly | packages/services/src/fee-rule-service.ts:233-291 | over all contexts, built by the program or not, an accepted rule is used in some exactly when active and, at partner or group level, still naming one after trimming |
| FeeRuleEditing.BlankGroupSlipsThrough | packages/services/src/fee-rule-service.ts:239-278 | a group of blanks passes the service and leaves a rule no context can use, and is refused when sent by the screen |
| FeeRuleEditing.AcceptedRuleIsNeverBlocked | packages/services/src/fee-rule-service.ts:246-262 | with a known non-negative prior fee an accepted rule always produces a fee |
| ClientDiscovery.FromClientList | packages/services/src/client-import-service.ts:665-705 | the keys, the last summary of each and the count passed over under each type are as specified |
| ClientDiscovery.KeysAreKeptEntries | packages/services/src/client-import-service.ts:677-705 | each key once, exactly from the entries not passed over, and a summary for exactly the keys |
| ClientDiscovery.PassedOverExactly | packages/services/src/client-import-service.ts:79-84 | an entry is passed over exactly when its type, blanks and case aside, is inactive or dissolved, unless all are wanted |
| ClientDiscovery.SkippedIsCounted | packages/services/src/client-import-service.ts:677-687 | the count under a type is how many entries of that type were passed over |
| ClientDiscovery.DiscoveredClientsReconcile | packages/services/src/client-import-service.ts:303-553 | whatever the client list holds, the counts of the import add up to the clients found |
| ClientImport.ClientImporter.BackfillFromKarbon | packages/services/src/client-import-service.ts:727-779 | fills exactly the blank columns and unknown contacts, reports them, and changes nothing when only looking |
| ClientImport.ClientImporter.ImportOne | packages/services/src/client-import-service.ts:367-553 | one key is created, failed, matched, filled, reported or passed over as specified |
| ClientImport.ClientImporter.Run | packages/services/src/client-import-service.ts:303-553 | the whole run is the specified fold over the keys from the refreshed store |
| ImportLaws.RealTurnSays | packages/services/src/client-import-service.ts:393-552 | one key of a real import: a failure with its reason, a known client filled, or a new one created unless it has no name or its key is taken |
| ImportLaws.CreatedClientSays | packages/services/src/client-import-service.ts:512-552 | a client is created with what the vendor gives, in Canada where it names no country, and its contacts under their keys |
| ImportLaws.ListedIsPreviewedUnread | packages/services/src/client-import-service.ts:367-377 | a preview names a new listed client by the legal half of the listed name without reading it |
| ImportLaws.PreviewComparesUpToItsBudget | packages/services/src/client-import-service.ts:379-395 | a preview compares the known clients up to its budget and counts exactly the rest as not compared |
| ImportConvergence.ImportsKeepEverything | packages/services/src/client-import-service.ts:456-489 | across any imports no client or contact is removed and no non-blank detail changed |
| ImportConvergence.DifferencesAreExactly | packages/services/src/client-import-service.ts:480-486 | the reported differences are exactly the compared details both sides hold that read differently, never one just filled |
| ImportConvergence.DifferencesAreLeftAlone | packages/services/src/client-import-service.ts:470-489 | what is reported as left alone is not touched by filling the blanks |
| ImportLaws.DifferencesSay | packages/services/src/client-import-service.ts:899-921 | a reported difference says what is held here and, trimmed, what the vendor holds |
| EntityNames.SplittingKeepsBoth | packages/integrations/src/karbon/client.ts:1125-1137 | both halves of a separated name are in the full name and not blank, and a name is left whole exactly when it cannot be separated anywhere |
| EntityNames.JoinedNameComesApart | packages/integrations/src/karbon/client.ts:1125-1137 | a legal name with a trading name in brackets behind it comes apart into those two, the legal one's own brackets kept |
| ImportConvergence.SeparatedNameIsKeptExactly | packages/services/src/client-import-service.ts:512-536 | a trading name is the display name, or in the full name stored, exactly when the client brings no display name, or that one, or was on the client list under a name it is in |
| ImportConvergence.ListedTradeNameIsKept | packages/services/src/client-import-service.ts:441-536 | a trading name separated off the listed name, here or where the client was read, is kept whatever display name the client brings |
| ImportConvergence.ListedNameIsSplit | packages/services/src/client-import-service.ts:441-451 | a client named from the list takes the legal half, and the trading half if it has none of its own |
| ImportConvergence.TradeNameLost | packages/services/src/client-import-service.ts:516-530 | a client with another display name, found through its work or listed without a name, of which no stored text holds the trading name |
| ImportConvergence.TradeNameStaysExactly | packages/services/src/client-import-service.ts:624-652 | over any imports a kept trading name stays kept exactly when it is the display name, or no real import listed the client, or the last to do so gave a name it is in |
| ImportConvergence.TradeNameGoesLater | packages/services/src/client-import-service.ts:636-640 | a trading name kept only in the listed name goes when a later import lists the client without one |
| ImportConvergence.OwnNameStands | packages/services/src/client-import-service.ts:437-451 | a client read back with a name is stored under that name, whatever the list calls it |
| ImportConvergence.DryRunChangesNothing | packages/services/src/client-import-service.ts:351-395 | a preview leaves the store exactly as it was |
| ImportConvergence.FoundReconciles | packages/services/src/client-import-service.ts:844-882 | found is created plus failed plus matching plus filled plus differing less those in both, plus those a preview did not compare |
| ImportConvergence.BackfillExactly | packages/services/src/client-import-service.ts:734-751 | there is a backfill exactly when a blank can be filled or a contact is new |
| ImportConvergence.FilledHasNothingToFill | packages/services/src/client-import-service.ts:734-771 | a filled client has nothing left to fill from the same record, repeated contact keys included |
| ImportConvergence.CreatedHasNothingToFill | packages/services/src/client-import-service.ts:512-552 | a created client has nothing left to fill from the record it was created from |
| ImportConvergence.RerunAddsNothing | packages/services/src/client-import-service.ts:367-553 | the same import again creates and fills nothing, and can only refresh the mirror of the vendor's record |
| ImportConvergence.RerunWritesNothingExactly | packages/services/src/client-import-service.ts:531-536 | exactly when the second run leaves the store untouched |
| DocumentScan.ScopesFor | packages/services/src/client-document-scan.ts:394-417 | the scopes and their order, and a failed search recorded as a failure |
| DocumentScan.ConsideredByName | packages/services/src/client-document-scan.ts:205-208 | a document is considered exactly when listed under a name ending in .docx or .pdf, in any mix of letter case |
| DocumentScan.SortedCounts | packages/services/src/client-document-scan.ts:205-208 | each such document is put in order as often as it is listed |
| DocumentScan.ReadingOrderIs | packages/services/src/client-document-scan.ts:126-139 | names of the prior year come first, then of a recent year, then of none, then of an older one, and then by collation |
| DocumentScan.CapTakesMostRelevant | packages/services/src/client-document-scan.ts:126-139 | nothing the cap leaves out of a scope comes before anything it takes |
| DocumentScan.PriorYearIsReadFirst | packages/services/src/client-document-scan.ts:126-139 | while a document naming the prior year is left out, only such documents are taken |
| DocumentScan.ReadFiles | packages/services/src/client-document-scan.ts:226-290 | each file is counted as unreadable, or as read and perhaps accepted |
| DocumentScan.Scan | packages/services/src/client-document-scan.ts:173-337 | the loop computes the specified result, a throwing download included |
| DocumentScan.NeverMoreThanTheLimit | packages/services/src/client-document-scan.ts:189-214 | at most sixty documents are considered, whatever the scopes hold, and never more accepted than read |
| DocumentScan.CompleteExactly | packages/services/src/client-document-scan.ts:188-337 | a scan is complete exactly when no search, listing or file failed and the cap neither cut a scope nor was reached before the last one |
| DocumentScan.CompleteMeansEverythingCameBack | packages/services/src/client-document-scan.ts:205-232 | in a complete scan every document listed in every scope under a .docx or .pdf name was asked for and came back |
| DocumentScan.UnreadableFilesStayComplete | packages/services/src/client-document-scan.ts:229-243 | a file nothing could be read from leaves a scan complete |

## Left out

Dates.

- A host date's range (about 271821 BC to AD 275760) and invalid dates: day numbers are unbounded integers.
- `Date.UTC` remaps years 0 to 99. The holiday list and month arithmetic are modelled without the remapping;
  where dates are built and read as text it is explicit, and the text laws say exactly for which years they hold.
- Remainders of negative years: the Easter laws hold for every integer year under floored remainders, which
  are the source's for years from zero on.
- Parsing and validation of stored rule definitions, the wording of assumptions and blocked reasons, and the
  date the plan stores for today beyond being a parameter.

Dispatch.

- A sleep, a clock, a logger or an `isRunning` that throws, in the loop or in a callback, and a clock that
  goes back.

Values.

- Text agreement is equality under a normalisation and collation is a position on a line; both are parameters.
  Results hold for every normalisation; `ShownValues` has the source's, with lower-casing as a parameter.
- OrderIndependentExactly: assumes scores equal or further apart than the tolerance. Closer scores can make the
  comparison go in a circle, and what a sort then does is the platform's.
- Decimals and the tax year are carried as the text they print as. Number and date formatting are parameters.
- Row ids, timestamps, confidence figures, evidence and audit records.
- `findFirst` is any function that returns a matching row when there is one; results hold for all of them.
- The grouping, labels and ordering of the form's fields, and saving them.

Prices.

- Decimal arithmetic keeps 28 digits; the model is exact. A negative zero raw fee counts as zero.
- AcceptedRuleIsLiveExactly: ranges over all contexts, also those the program never builds;
  AcceptedRuleIsUsableExactly ranges over those it does.
- A rule for a client that does not exist, which the table's own reference refuses. Any identifier may be a client's.
- Parsing of amounts is a parameter. The T2 pair of fees, ancillary charges and storage are not modelled, nor
  is recalculation over a manual override in the pricing service.

Clients and documents.

- RerunWritesNothingExactly: does not model the time of the mirror's refresh, which every import rewrites.
- RerunAddsNothing: assumes the vendor answers about a key with the client that has it, as its interface promises.
- CompleteMeansEverythingCameBack: assumes each requested document is returned or reported failed, as the vendor's
  interface promises.
- Lower-casing is a parameter.
- The search for last year's work items asks for at most 25. A complete scan says nothing about a 26th,
  because the search result is an input.
- Text extraction, classification, scoring, storage of bytes, and the choice of the prior-year letter: what
  reading a file comes to is a parameter.
- Work-item discovery of clients, truncation notes, and the sentences of the summaries.

Everywhere: permissions, notifications, logging text, signing and delivery, document rendering, screens,
scripts and configuration.
