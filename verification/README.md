# VMF Fantasy League: a verified model of its rules

This project models the rule engine behind the VMF fantasy league in Dafny and proves what its
rules promise. Each module follows one component: pure `domain/` rules become functions and lemmas,
services that update rows in place become classes whose methods are proved against those functions,
and the promises of the rules are then proved about every input, every run or every reachable state.

- **Head-to-head schedule** (`H2HSchedule`, `HomeMatches`): the circle method for every even number of
  managers. The rotating list refines a closed form, and because n - 1 is odd a pair's index sum fixes
  the one round in which it meets; home matches are shared out evenly.
- **The Cup** (`CupBracket`, `PublishedBrackets`, `CupNets`, `CupEvaluation`, `CupAccounting`,
  `CupRun`, `CupProgress`, `CupDraw`, `CupService`, `CupTheorems`): a mutable knock-out tree advanced
  round by round, in any order and repeatedly, refines a recursive evaluation of the bracket, for any
  well-formed bracket and for the two published ones. Scores and tie-break facts are read afresh by
  every call: whatever they were, a stored Cup is one that lots could have produced, and over figures
  that stand still it is the evaluation over them.
- **Ranking and tie-breaks** (`Sorting`, `Rankings`, `CupResolution`): competition ranks, and the two
  encodings of the one tie-break order.
- **Least-recently-read batches** (`BatchRotation`): a fairness bound for synchronization, resting on
  the read times the raw store keeps.
- **Discipline** (`Disciplinary`, `DisciplinaryService`): detection, a review state machine, and an
  append-only ledger of consequences that apply once.
- **Player statistics and rescheduling** (`FixtureStats`): why a moved fixture never counts twice.
- **Score, finalize, settle** (`Settlement`, `SettlementService`): what one scheduled tick does to a
  Gameweek, and what stays fixed afterwards.
- **Promotion** (`Promotion`, `PromotionService`, `Zones`): the swap between the two divisions, and the
  places the table marks for it.
- **Matchups and tables** (`GameweekScoring`, `Matchup`, `H2HTable`, `SetSums`): conservation laws
  over sums, unions of squads and accumulators updated in place.
- **Bracket page** (`BracketLabels`, `BracketWings`, `BracketPages`): the depth-first search that
  splits a Cup into two wings, over whatever its labels say.

Each of these parts has a module whose name ends in `Outcomes`. It says what an operation leaves
behind in figures of its inputs alone: points compared, statuses counted, rows of a payload, totals of
a season. The other modules prove invariants and refinements on top of the model's helper functions;
these statements hold those helpers to their inputs.

`dafny verify dfyconfig.toml` checks the whole project.

Points where the code and what is said about it differ, and which the model settles by following the
code:

- `plan_division_swap` says a tie matters only where it straddles a boundary. The code also reports
  a rank shared wholly inside a zone: `Promotion.TieInsideAZoneStopsTheSwap` is such a table and
  `Promotion.DecidedIffNoTie` states exactly when a swap is decided.
- `zones.ts` says it shows nothing where the boundary rank is shared, and that this keeps a table
  nobody has scored in from lighting up. It asks only who holds rank 6, so a tie that starts above
  the boundary is not seen: `Zones.LevelTableIsMarked` marks the whole of LOW, and
  `Zones.StraddlingTieIsHiddenIff` and `Zones.SixAreMarkedIff` are the exact conditions.
- A finalized Gameweek is said to make its matches follow its scores, and a later correction to be
  raised for review and not written (`set_gameweek_finalized`, admin.py:106-111). Every tick that
  runs rewrites the scores of a finalized Gameweek, while a match already final is skipped. So an
  ordinary later tick with a correction leaves a final match that its final scores contradict, with
  nothing reopened: `Settlement.CorrectionAfterClosingIsStale` is an instance and
  `Settlement.ClosedTickAgreesIff` the exact condition. So does reopening a Gameweek that the very
  next tick finalizes again: `Settlement.ReopenedAndClosedAtOnceIsStale` is an instance and
  `Settlement.FinalizingSettlesIff` the exact condition for the tick that finalizes.
- The live job on its own would record any fixture when it knows none of the Gameweek;
  `FixtureStats.LiveKeepsHomeIff` is the exact condition, and the scheduler's guard supplies it.
- The batch rotation is said to starve nobody. A request that fails does not move the read time, and
  a squad that arrives unreadable is still missing, so its manager stays ahead of everyone whose squad
  is stored: `BatchRotation.ReadIffFewStuck` states exactly who is read and who is starved, and
  `BatchRotation.FailingReadStarves` is an instance.
- A score that disagrees with FPL is said never to be locked. The two figures are compared only in a
  Gameweek with a start flag up, while the gate asks only for fixtures played out:
  `Settlement.UnstartedTickLocksTheDifference` locks a difference and `Settlement.LockedIsDerivedIff`
  is the exact condition.

Times are integers, payload digests stand for payloads, and rows are values in maps and sequences held
by class fields. A job that fails is rolled back, so it is a step that changes nothing. The ticks of
`BatchRotation` have increasing times.

## Model

| member | source | states |
|---|---|---|
| H2HSchedule.GenerateRoundRobin | services/api/src/vmf_api/domain/h2h_schedule.py:14-52 | the rotating-list loop yields exactly the closed-form circle schedule, and fails exactly on an odd or too short list, on duplicates, or on a round count outside 1..n-1 |
| H2HSchedule.HasDuplicates | services/api/src/vmf_api/domain/h2h_schedule.py:25-26 | true exactly when two entries are the same manager |
| H2HSchedule.TurnedPosition | services/api/src/vmf_api/domain/h2h_schedule.py:51 | one rotation of the list is one step of the modular shift of every place but the first |
| H2HSchedule.SeatingIsBijective | services/api/src/vmf_api/domain/h2h_schedule.py:34-51 | in every round each participant sits at exactly one place, shifted by the round modulo n-1 |
| H2HSchedule.HalfOfSum | services/api/src/vmf_api/domain/h2h_schedule.py:38-51 | 2 is invertible modulo the odd n-1: the sum of two places determines the round |
| H2HSchedule.MeetOnlyInRound | services/api/src/vmf_api/domain/h2h_schedule.py:37-51 | if two participants sit opposite each other in round r, r is the round their index sum fixes |
| H2HSchedule.MeetInRound | services/api/src/vmf_api/domain/h2h_schedule.py:37-51 | in the round their index sum fixes, two participants do sit opposite each other |
| H2HSchedule.RoundIsPerfectMatching | services/api/src/vmf_api/domain/h2h_schedule.py:34-50 | every round, numbered start + r, plays every participant exactly once |
| H2HSchedule.PairMeetsOnlyInItsRound | services/api/src/vmf_api/domain/h2h_schedule.py:28-52 | a pair meets in round r if and only if r is the pair's round |
| H2HSchedule.NoPairMeetsTwice | services/api/src/vmf_api/domain/h2h_schedule.py:20-52 | for every even n and any number of rounds no unordered pair meets in two rounds, nor twice in one |
| H2HSchedule.FullScheduleIsRoundRobin | services/api/src/vmf_api/domain/h2h_schedule.py:28-52 | with n-1 rounds every pair meets, and by the previous property only once |
| HomeMatches.HomeMatchesAreBalanced | services/api/src/vmf_api/domain/h2h_schedule.py:37-51 | over a full schedule of n the participant at an even index is at home n/2 times and the one at an odd index once less |
| Rankings.CompetitionRank | services/api/src/vmf_api/domain/rankings.py:17-34 | the loop returns the values in stable descending order, a permutation, each rank being one more than the number of strictly greater keys |
| Rankings.RankIgnoresInputOrder | services/api/src/vmf_api/domain/rankings.py:24-34 | the rank of a value is the same for every order of the input |
| Rankings.RanksFollowKeys | services/api/src/vmf_api/domain/rankings.py:24-34 | two values of a table are ranked as their keys compare, and share a rank exactly when the keys are equal |
| Sorting.SortSorts | services/api/src/vmf_api/domain/rankings.py:24 | the stable sort used throughout yields an ordered sequence, for ascending and descending keys |
| Sorting.SortPermutes | services/api/src/vmf_api/domain/rankings.py:24 | sorting keeps every value as often as it occurred |
| Sorting.LessIsTotal | services/api/src/vmf_api/domain/tie_breaks.py:36-45 | tuple comparison is a strict total order: exactly one of equal, less, greater |
| CupResolution.ResolutionIsSymmetric | services/api/src/vmf_api/domain/cup.py:51-95 | swapping the two entries gives the same winner and step |
| CupResolution.SeparationIsKeyOrder | services/api/src/vmf_api/domain/cup.py:66-88 | the early-return chain of comparisons decides exactly as the tuple order on (score, sort key) does |
| CupResolution.SeparationNamesStep | services/api/src/vmf_api/domain/tie_breaks.py:48-60 | past the score the chain names the step that deciding_step names |
| CupResolution.ResolutionAgreesWithRanking | services/api/src/vmf_api/domain/cup.py:66-95 | with nobody disqualified an administrator draw is needed exactly when the keys are equal; otherwise the side competition ranking places higher wins, at the step deciding_step names |
| CupBracket.Bracket.RoundForGameweek | services/api/src/vmf_api/domain/cup_bracket.py:79-83 | the round found is played in that Gameweek, and none is found only if no round is |
| PublishedBrackets.PublishedBracketsAreWellFormed | services/api/src/vmf_api/domain/cup_bracket.py:115-276 | both published brackets have unique ties, feed only from earlier rounds, use no seed or winner twice, and run to one final |
| PublishedBrackets.FittingBracketIsWellFormed | services/api/src/vmf_api/domain/cup_bracket.py:238-260 | a bracket whose slots all fit a table of uses is well formed |
| PublishedBrackets.EveryWinnerMovesOn | services/api/src/vmf_api/domain/cup_bracket.py:220-260 | in a bracket laid out like the published ones every tie but the final sends its winner on, and the final does not |
| PublishedBrackets.PublishedSeeds | services/api/src/vmf_api/domain/cup_bracket.py:282 | each published bracket consumes HIGH places 1 to 18 and LOW places 1 to 22 |
| PublishedBrackets.OnlyTableSeeds | services/api/src/vmf_api/domain/cup_bracket.py:282 | no published bracket consumes any other place |
| CupNets.NetIsSound | services/api/src/vmf_api/domain/cup_bracket.py:63-94 | a well-formed bracket with its third-place match is layered by rounds and no occupant source is used twice |
| CupNets.NetRunsToOneFinal | services/api/src/vmf_api/domain/cup_bracket.py:75-77 | in a bracket with one final every other tie sends its winner on |
| CupEvaluation.FrontierIsDistinct | services/api/src/vmf_api/services/cups.py:484-511 | no manager stands in two of the slots that the rounds before r settle |
| CupEvaluation.TieHasTwoSides | services/api/src/vmf_api/services/cups.py:582-587 | a decided tie has two different managers, its winner and its loser |
| CupEvaluation.BeatenLeavesFrontier | services/api/src/vmf_api/services/cups.py:466-511 | a manager beaten in a round is in no slot settled after it |
| CupEvaluation.BeatenStaysOut | services/api/src/vmf_api/services/cups.py:466-511 | a beaten manager is in no later tie, the third-place match aside |
| CupEvaluation.BeatenOnce | services/api/src/vmf_api/services/cups.py:466-511 | nobody is beaten in two bracket ties |
| CupEvaluation.OneTiePerRound | services/api/src/vmf_api/services/cups.py:497-511 | in one round, third-place match included, no manager stands in two slots |
| CupAccounting.EntrantsAreTiesPlusOne | services/api/src/vmf_api/services/cups.py:322-352 | a bracket of T ties is entered by T + 1 different managers |
| CupAccounting.BeatenAreDecided | services/api/src/vmf_api/services/cups.py:422-426 | k decided ties leave exactly k beaten managers |
| CupAccounting.OccupantsEntered | services/api/src/vmf_api/services/cups.py:484-495 | whoever stands in a bracket slot was drawn into the bracket |
| CupAccounting.CupBooksBalance | services/api/src/vmf_api/services/cups.py:399-442 | entrants less beaten is T + 1 less the decided ties, and when all are decided the champion alone is unbeaten |
| CupRun.SidesDiffer | services/api/src/vmf_api/domain/cup.py:57-58 | a stored tie that agrees with the bracket's evaluation has two different managers, so settling it over any figures raises no self-play error |
| CupRun.AdvanceIsConsistent | services/api/src/vmf_api/services/cups.py:399-434 | advancing any one round over the figures evaluated keeps every stored winner and filled slot equal to the recursive evaluation |
| CupRun.DrawOnlyAdds | services/api/src/vmf_api/services/cups.py:404-416 | further lots change no holder, winner or loser that the evaluation already had |
| CupRun.RunIsConsistent | services/api/src/vmf_api/services/cups.py:363-442 | after any sequence of advance calls over one set of figures and of lots, in any order and with repeats, the stored Cup agrees with the evaluation over those figures |
| CupRun.AdvanceIsUpheld | services/api/src/vmf_api/services/cups.py:393-434 | advancing any round over whatever figures leaves a Cup that lots in place of the figures could have produced: its slots and winners are the evaluation of its own stored winners |
| CupRun.RunIsUpheld | services/api/src/vmf_api/services/cups.py:363-442 | so does every sequence of calls and lots, each call over figures of its own |
| CupRun.AwaitedTieSettlesIff | services/api/src/vmf_api/services/cups.py:403-424 | a tie left awaiting a draw is settled by a later call exactly when the figures of that call separate its two sides |
| CupRun.RunPreserves | services/api/src/vmf_api/services/cups.py:403-407 | no run, whatever figures its calls read, ever changes a winner, a filled slot or a settled result |
| CupRun.AdvanceTwice | services/api/src/vmf_api/services/cups.py:403-407 | repeating a call over the same figures changes nothing |
| CupProgress.RoundBecomesComplete | services/api/src/vmf_api/services/cups.py:399-434 | with the earlier rounds handed on, advancing round k over whatever figures hands round k on, and what it leaves open awaits a draw |
| CupProgress.AdvanceKeepsComplete | services/api/src/vmf_api/services/cups.py:399-434 | advancing a later round, or one in which nothing more is decided, leaves the rounds that were handed on handed on |
| CupProgress.LotsKeepComplete | services/api/src/vmf_api/services/cups.py:404-407 | lots for a tie leave the rounds before it handed on |
| CupProgress.RunCompletes | services/api/src/vmf_api/services/cups.py:363-442 | after any run, whatever its calls, their figures and its lots, every slot fed from the rounds the run has come to holds their stored winner or loser, and what is open there awaits a draw |
| CupProgress.CompleteIsEvaluated | services/api/src/vmf_api/services/cups.py:363-442 | over one set of figures the rounds handed on are stored exactly as the bracket evaluates |
| CupProgress.OnePassProgresses | services/api/src/vmf_api/services/cups.py:363-442 | one call per round in order comes through all of them, each call over figures of its own |
| CupProgress.InOrderCallsProgress | services/api/src/vmf_api/services/cups.py:363-442 | over one set of figures and without lots a run comes as far as the rounds stand in order among its calls, with any other calls between |
| CupProgress.FullRunDecides | services/api/src/vmf_api/services/cups.py:363-442 | a run through the last round, whatever figures its calls read, has decided every bracket tie once no draw is pending |
| CupDraw.QualificationTable | services/api/src/vmf_api/services/cups.py:113-169 | each division's entries are its lines ranked by competition ranking |
| CupDraw.AddDivision | services/api/src/vmf_api/services/cups.py:574-578 | the loop over one division counts each rank's holders and remembers one of them, touching no other division |
| CupDraw.ManagersBySeed | services/api/src/vmf_api/services/cups.py:564-579 | a place is mapped exactly when one manager holds it, and then to him |
| CupDraw.OneHolderIffAlone | services/api/src/vmf_api/services/cups.py:564-579 | a rank has exactly one holder exactly when the keys around it differ from its own |
| CupDraw.DivisionFillsIff | services/api/src/vmf_api/services/cups.py:292-298 | places 1 to p are all filled exactly when there are p managers whose keys are pairwise different and differ from the next one's |
| CupDraw.PlacesFillIff | services/api/src/vmf_api/services/cups.py:292-298 | the same, stated on the division's lines before ranking |
| CupDraw.TableIsDistinct | services/api/src/vmf_api/services/cups.py:113-169 | a table of distinct managers lists each of them once over both divisions |
| CupDraw.HolderTakesPlace | services/api/src/vmf_api/services/cups.py:564-579 | the holder of a place is the line whose rank that place is |
| CupService.CupBracketService.constructor | services/api/src/vmf_api/services/cups.py:244-258 | a service over a well-formed bracket starts with no Cup drawn |
| CupService.CupBracketService.WriteRound | services/api/src/vmf_api/services/cups.py:311-352 | one round's rows, the third-place match included, are added and no other row is touched |
| CupService.CupBracketService.WriteTree | services/api/src/vmf_api/services/cups.py:309-352 | the rounds together write one row for every tie of the net |
| CupService.CupBracketService.Generate | services/api/src/vmf_api/services/cups.py:259-361 | a Cup is drawn exactly when none is, qualification is settled or waived, and every consumed place has one holder; it then seeds each place with its holder and stores the empty tree; a refusal changes nothing and names the unfilled places |
| CupService.CupBracketService.SettleTie | services/api/src/vmf_api/services/cups.py:403-426 | one tie in place: carried, left open, sent to a draw, or resolved |
| CupService.CupBracketService.SettleTies | services/api/src/vmf_api/services/cups.py:399-426 | the loop over a round settles exactly the round's ties and tallies winners, losers, resolved and awaiting |
| CupService.CupBracketService.PlaceInRound | services/api/src/vmf_api/services/cups.py:478-510 | one later round: empty winner slots and third-place sides are filled from the tally, filled ones kept |
| CupService.CupBracketService.PlaceWinners | services/api/src/vmf_api/services/cups.py:466-511 | over all later rounds placing equals filling the net's slots |
| CupService.CupBracketService.Advance | services/api/src/vmf_api/services/cups.py:363-442 | fails exactly when undrawn, when no round is played in the Gameweek, or when it is open; otherwise the rows become those of the abstract step over the figures of this call, with exact counts of ties resolved and awaiting a draw |
| CupService.CupBracketService.RecordLots | services/api/src/vmf_api/services/cups.py:404-407 | an outside decision on a tie awaiting a draw, naming one of its sides, is stored; any other is refused |
| CupService.TallyCounts | services/api/src/vmf_api/services/cups.py:399-426 | the counters of the loop are the numbers of ties that gained a winner and that await a draw |
| CupService.TallyMaps | services/api/src/vmf_api/services/cups.py:401-426 | the winners and losers collected are exactly those of the round's settled ties |
| CupTheorems.StoredIsEvaluated | services/api/src/vmf_api/services/cups.py:399-442 | in every state reached over one set of figures each stored side, winner and loser is what the bracket evaluates to |
| CupTheorems.StoredIsUpheld | services/api/src/vmf_api/services/cups.py:363-442 | in every reachable state, whatever figures each call read, each stored side, winner and loser is what the bracket makes of the stored winners, and a tie without a stored winner has none there |
| CupTheorems.NobodyPlaysTwiceInARound | services/api/src/vmf_api/services/cups.py:466-511 | in every reachable state, whatever figures each call read, no manager stands in two slots of one round |
| CupTheorems.NobodyPlaysHimself | services/api/src/vmf_api/domain/cup.py:57-58 | in no reachable state, and over no figures, does settling a tie ask a manager to play himself |
| CupTheorems.BeatenManagersAreOut | services/api/src/vmf_api/services/cups.py:466-511 | in every reachable state, whatever figures each call read, a stored winner has a loser, who is in no later tie but the third-place match |
| CupTheorems.StoredBooksBalance | services/api/src/vmf_api/services/cups.py:322-352 | in every reachable state, whatever figures each call read, entrants are ties plus one and k decided ties leave exactly k entrants beaten |
| CupTheorems.FullRunCrownsAChampion | services/api/src/vmf_api/services/cups.py:363-442 | from any reachable state a run through the last round, whatever its calls, their figures and lots, with no draw pending has decided every bracket tie and leaves the final's winner alone unbeaten |
| CupTheorems.OnePassCrownsAChampion | services/api/src/vmf_api/services/cups.py:363-442 | each round advanced once in order, every call over figures of its own, is enough for that |
| CupTheorems.SteadyRunIsEvaluated | services/api/src/vmf_api/services/cups.py:363-442 | a run over one set of figures stores exactly the evaluation, open slots included, in all the rounds it has come to |
| CupTheorems.InOrderPassCrownsAChampion | services/api/src/vmf_api/services/cups.py:363-442 | over one set of figures the rounds advanced in order are enough, with any calls before, between and after, and the champion is the evaluation's only unbeaten entrant |
| CupTheorems.PublishedCupDrawsIff | services/api/src/vmf_api/services/cups.py:285-298 | a published Cup can be drawn exactly when HIGH's first 18 and LOW's first 22 keys are pairwise different and differ from the next one's |
| BatchRotation.InBatchIff | services/api/src/vmf_api/services/ingestion.py:702-714 | a manager is in the batch exactly when fewer than the limit are ahead of him |
| BatchRotation.QueueShrinks | services/api/src/vmf_api/services/ingestion.py:635-714 | a tick that does not read a manager takes its batch, less those stuck, out of the queue ahead of him, and those stuck ahead of him stay the same |
| BatchRotation.QueueAfterTicks | services/api/src/vmf_api/services/ingestion.py:702-714 | after t unread ticks of k with s stuck the queue ahead is shorter by at least t (k - s), and by exactly t k with nobody stuck |
| BatchRotation.StuckBatchStarves | services/api/src/vmf_api/services/ingestion.py:635-714 | a manager behind as many stuck ones as the batch holds is in no batch, however many ticks follow |
| BatchRotation.ReadInTime | services/api/src/vmf_api/services/ingestion.py:635-714 | with s of the a managers ahead stuck and s below the limit k, a manager is read within floor((a - s) / (k - s)) + 1 ticks |
| BatchRotation.ReadIffFewStuck | services/api/src/vmf_api/core/config.py:44-54 | whoever never answers or never leaves a squad, and whichever squads are stored: given more ticks than managers ahead, a manager is read in one of them exactly when fewer than the limit are stuck ahead of him |
| BatchRotation.StoringLeavesNobodyStuck | services/api/src/vmf_api/services/ingestion.py:673-700 | with every squad request answered and stored nobody is ever stuck, whichever squads are stored at the start |
| BatchRotation.HistoryLeavesFailedStuck | services/api/src/vmf_api/services/ingestion.py:702-714 | for entry history the stuck are exactly those ahead whose request fails |
| BatchRotation.UnreadWhileBatchesFit | services/api/src/vmf_api/services/ingestion.py:702-714 | with nobody stuck, a manager is in no batch while a whole batch still fits ahead of him |
| BatchRotation.FirstReadIsExact | services/api/src/vmf_api/services/ingestion.py:635-714 | with nobody stuck and a managers ahead the first read comes at tick floor(a / k), and not before |
| BatchRotation.EveryoneIsReadInTime | services/api/src/vmf_api/core/config.py:44-54 | with n managers, batches of k and every request answered, each manager is read in any ceil(n / k) consecutive ticks: for squads from any stored squads and read times, for entry history from any read times |
| BatchRotation.MissingSquadsComeFirst | services/api/src/vmf_api/services/ingestion.py:690-700 | for squads, a manager with one stored is read only when everyone without one is in the batch |
| BatchRotation.FailingReadStarves | services/api/src/vmf_api/services/ingestion.py:635-656 | an instance: behind one manager who never answers a batch of one never reaches the second |
| BatchRotation.RawStore.Record | services/api/src/vmf_api/services/raw_store.py:49-104 | a repeated payload moves last-seen and the counter of its one row, a new one adds a row; either way the manager's last-read time becomes the time of the observation |
| BatchRotation.Ingestion.SyncEntryHistory | services/api/src/vmf_api/services/ingestion.py:474-501 | the job reads the least-recently-read batch and moves the last-read time of exactly those who answered, and nothing of the squad job |
| BatchRotation.Ingestion.SyncPicks | services/api/src/vmf_api/services/ingestion.py:392-435 | the squad job reads its batch, moves the last-read time of those who answered, and stores a squad for those whose answer parses; other Gameweeks and entry history stay as they are |
| BatchRotation.SeenAgainMovesLastRead | services/api/src/vmf_api/services/ingestion.py:635-656 | re-observing an unchanged payload counts as a read |
| Disciplinary.ReviewsAreBounded | services/api/src/vmf_api/domain/violations.py:109-137 | no case can be reviewed more than three times, and three is reached |
| Disciplinary.StoredReviewsAreBounded | services/api/src/vmf_api/services/admin.py:34-94 | over any run of detections and reviews, clearing and raising a case again included, the accepted reviews of a key and those it can still see are at most three |
| Disciplinary.DetectionAt | services/api/src/vmf_api/services/violations.py:96-123 | a pass leaves at each key its target: reviewed cases as they were, unreviewed ones as the published cost says |
| Disciplinary.DetectionConverges | services/api/src/vmf_api/services/violations.py:96-123 | afterwards every unreviewed case of a history row matches its cost and no case is left where the cost is allowed |
| Disciplinary.DetectionIsIdempotent | services/api/src/vmf_api/services/violations.py:96-123 | a second pass over the same history changes nothing |
| Disciplinary.DetectionKeepsTotals | services/api/src/vmf_api/services/violations.py:96-123 | no pass changes anyone's confirmed total |
| Disciplinary.DetectionKeepsSound | services/api/src/vmf_api/services/violations.py:103-112 | every case keeps 0 confirmed while detected and the detected count when confirmed or rejected |
| Disciplinary.ReviewKeepsSoundCases | services/api/src/vmf_api/services/admin.py:49-63 | a review keeps the same relation between a case's status and its counts |
| Disciplinary.ThresholdPassIs | services/api/src/vmf_api/services/violations.py:160-205 | the pass adds exactly the due consequences not yet in the ledger, each once |
| Disciplinary.LedgerIsDueAtPeak | services/api/src/vmf_api/services/admin.py:49-90 | over any run of detections and reviews a manager's ledger is what is due at the highest total any review of his reached, each consequence once; the H2H penalty is -6 exactly when the deduction is in it and 0 otherwise; he is removed exactly when that consequence is in it |
| Disciplinary.LedgerOnlyGrows | services/api/src/vmf_api/services/violations.py:152-166 | no step takes a consequence back, an override downwards included |
| Disciplinary.OnlyReviewsMoveTotals | services/api/src/vmf_api/services/admin.py:62-90 | only a review of a manager's own case changes his total |
| DisciplinaryService.Disciplinarian.DetectTransferViolations | services/api/src/vmf_api/services/violations.py:62-131 | the loop over history equals the abstract pass, its counters are those of the rows it went through and account for the change in size, and one negative cost rolls everything back |
| DisciplinaryService.Disciplinarian.ConfirmedViolationCount | services/api/src/vmf_api/services/violations.py:134-142 | the sum of a manager's confirmed counts |
| DisciplinaryService.Disciplinarian.WriteDown | services/api/src/vmf_api/services/violations.py:176-203 | each outstanding consequence writes its ledger row, the deduction its penalty, the last one the removal |
| DisciplinaryService.Disciplinarian.ApplyThresholdActions | services/api/src/vmf_api/services/violations.py:145-213 | the new tables are those of the abstract threshold pass, with what was applied, deducted and removed |
| DisciplinaryService.Disciplinarian.ReviewViolation | services/api/src/vmf_api/services/admin.py:34-94 | an unknown case or a forbidden transition is refused with nothing changed; otherwise case, ledger and penalties become those of the abstract review, and the new total, the consequences written, the points deducted and the removal are reported |
| FixtureStats.LiveKeepsHomeIff | services/api/src/vmf_api/services/ingestion.py:281-306 | the live job alone keeps every statistic under its fixture's Gameweek exactly when it knows a fixture of that Gameweek or has nothing to record |
| FixtureStats.TickKeepsHome | services/api/src/vmf_api/services/sync_orchestrator.py:103-125 | a tick, whose live job runs only if something of the Gameweek has started, keeps every statistic at home |
| FixtureStats.TicksKeepHome | services/api/src/vmf_api/services/sync_orchestrator.py:103-125 | so does every sequence of ticks from an empty database |
| FixtureStats.NoFixtureCountsTwice | services/api/src/vmf_api/services/ingestion.py:238-251 | in every reachable state no fixture counts for a player in two Gameweeks |
| FixtureStats.SurvivorsStayed | services/api/src/vmf_api/services/ingestion.py:238-251 | a statistic survives the fixture job exactly when its fixture stayed in its Gameweek, and unchanged |
| FixtureStats.RescheduleLeavesTotal | services/api/src/vmf_api/services/scoring.py:235-278 | a Gameweek total after the fixture job is the old one less the points of the fixtures that moved away |
| FixtureStats.FixtureStore.SyncFixtures | services/api/src/vmf_api/services/ingestion.py:218-267 | the loop over parsed fixtures equals the abstract job, reports the rows added or changed, and fails exactly on a payload that repeats a fixture it is first to name |
| FixtureStats.FixtureStore.SyncLive | services/api/src/vmf_api/services/ingestion.py:269-364 | the loop over parsed rows equals the abstract job, reports the rows added or changed, and fails exactly on a repeated new key |
| FixtureStats.FixtureStore.AnythingStarted | services/api/src/vmf_api/services/sync_orchestrator.py:217-232 | true exactly when some fixture of the Gameweek has started |
| FixtureStats.FixtureStore.RunTick | services/api/src/vmf_api/services/sync_orchestrator.py:103-125 | fixtures first, then the live feed under its guard; a broken key leaves the tables as they were |
| Settlement.RunKeepsSources | services/api/src/vmf_api/services/scoring.py:104-176 | in every run each score row has the source it was derived from |
| Settlement.FinalizingStampsScores | services/api/src/vmf_api/services/sync_orchestrator.py:130-152 | a tick that finalizes a Gameweek leaves it finalized, all its score rows final, and every expected manager with one |
| Settlement.FinalizingSettlesIff | services/api/src/vmf_api/services/h2h_settlement.py:102-127 | after a finalizing tick a match of two managers with sources still in H2H is final and true to the scores exactly when it was not already final, or already held the result that the two sources' final net scores give |
| Settlement.FirstFinalizationSettlesAll | services/api/src/vmf_api/services/sync_orchestrator.py:130-164 | in any run without a reopen the tick that finalizes a Gameweek leaves every such match final with the winner the locked scores give |
| Settlement.GateOpensIff | services/api/src/vmf_api/services/finalization.py:61-149 | a Gameweek closes exactly when it is open, FPL has checked the data, it has fixtures and all are played out, every expected manager has a score, no figures disagree and no source is quarantined |
| Settlement.FinalizingLocksRow | services/api/src/vmf_api/services/scoring.py:104-176 | a finalizing tick locks for every manager with a source the net score that source gives once final |
| Settlement.LockedIsDerivedIff | services/api/src/vmf_api/services/finalization.py:117-126 | what it locks is the derived total less the transfer cost exactly when some fixture had started, or FPL has published nothing, or FPL published the derived figure |
| Settlement.UnstartedTickLocksTheDifference | services/api/src/vmf_api/services/scoring.py:213-226 | an instance: with the one fixture played out but its start flag down the gate compares no figures, and a published score that differs from the derived one is locked |
| Settlement.StepKeepsFinalMatch | services/api/src/vmf_api/services/h2h_settlement.py:102-106 | one step, other than reopening its Gameweek, leaves a final match of a finalized Gameweek as it is |
| Settlement.FinalMatchesAreFrozen | services/api/src/vmf_api/services/h2h_settlement.py:102-106 | so does every run without that reopen |
| Settlement.ClosedTickAgreesIff | services/api/src/vmf_api/services/h2h_settlement.py:102-127 | a tick of a finalized Gameweek keeps a final match, and the match still follows the rewritten final scores exactly when it already held the result they give |
| Settlement.CorrectionAfterClosingIsStale | services/api/src/vmf_api/services/admin.py:106-111 | an instance: one ordinary tick with a correction after the Gameweek was finalized rewrites a final score and keeps the match it contradicts |
| Settlement.TickIsLocal | services/api/src/vmf_api/services/h2h_settlement.py:75-82 | a tick changes scores and matches of its own Gameweek only |
| Settlement.RunKeepsOpenMatches | services/api/src/vmf_api/services/scoring.py:213-233 | in every run without a reopen no score of an open Gameweek is final, nor is a match of it that was not final at the start |
| Settlement.OpenTickUnlocks | services/api/src/vmf_api/services/h2h_settlement.py:102-127 | after a reopen, a running tick with a fixture started that does not finalize leaves every playable match of the Gameweek not final |
| Settlement.ReopenedThenScoredSettles | services/api/src/vmf_api/services/h2h_settlement.py:102-127 | after one such tick, whatever follows, the tick that next finalizes the Gameweek leaves the match final and true to the scores |
| Settlement.ReopenedAndClosedAtOnceIsStale | services/api/src/vmf_api/services/h2h_settlement.py:103-106 | an instance: reopened and finalized again by the very next tick, a match keeps a result the new scores contradict |
| Settlement.CorrectionAfterPlaySettles | services/api/src/vmf_api/services/h2h_settlement.py:102-127 | an instance: reopened, scored once in play and then corrected and closed, the same match follows its scores |
| SettlementService.LeagueStore.ScoreGameweek | services/api/src/vmf_api/services/scoring.py:72-192 | the loop over managers writes the row each source gives and reports exactly the managers whose figures disagree; before kick-off nothing is written |
| SettlementService.LeagueStore.FinalizeIfSettled | services/api/src/vmf_api/services/finalization.py:46-149 | the gate finalizes exactly when every condition holds and otherwise reports the first that refuses |
| SettlementService.LeagueStore.Apply | services/api/src/vmf_api/services/h2h_settlement.py:139-165 | every result field of one match is overwritten, its status that of the least settled side |
| SettlementService.LeagueStore.SettleAt | services/api/src/vmf_api/services/h2h_settlement.py:102-127 | one match: kept, left to review, left unplayed, walkover or settled on points |
| SettlementService.LeagueStore.SettleEach | services/api/src/vmf_api/services/h2h_settlement.py:97-137 | the loop settles every match of the Gameweek in place and tallies what happened to each |
| SettlementService.LeagueStore.SettleGameweek | services/api/src/vmf_api/services/h2h_settlement.py:51-137 | the match table becomes that of the abstract settlement |
| SettlementService.TallyNotesEachOnce | services/api/src/vmf_api/services/h2h_settlement.py:97-137 | no match is counted twice, and the matches named for review are exactly the open ones with two forfeiting managers |
| SettlementService.LeagueStore.ScoreAndFinalize | services/api/src/vmf_api/services/sync_orchestrator.py:130-152 | score, try to finalize, and stamp the scores final in the same tick |
| SettlementService.LeagueStore.RunTick | services/api/src/vmf_api/services/sync_orchestrator.py:97-164 | the tick's steps in order have the effect of the abstract tick, a live tick with nothing in play having none |
| SettlementService.LeagueStore.SetGameweekFinalized | services/api/src/vmf_api/services/admin.py:96-136 | flips the flag; an unknown Gameweek or one already in that state is refused |
| Promotion.Contested | services/api/src/vmf_api/domain/promotion.py:41-47 | the counting loop returns exactly the boundary ranks that more than one manager holds |
| Promotion.PlanDivisionSwap | services/api/src/vmf_api/domain/promotion.py:50-87 | errors exactly on a non-positive count or a division smaller than it; otherwise the bottom of HIGH, the top of LOW and the shared ranks of both zones |
| Promotion.DecidedIffZonesSeparated | services/api/src/vmf_api/domain/promotion.py:74-77 | a swap is decided exactly when every rank in the two zones is held by one manager |
| Promotion.DecidedIffNoTie | services/api/src/vmf_api/domain/promotion.py:74-77 | a swap is decided exactly when no tie straddles either boundary and none lies inside a zone |
| Promotion.TieInsideAZoneStopsTheSwap | services/api/src/vmf_api/domain/promotion.py:74-77 | an instance: LOW ranked 1, 1, 3 and HIGH 1, 2, 3 plan no swap of two although nobody ties across a boundary |
| Promotion.DecidedMoversAreApart | services/api/src/vmf_api/domain/promotion.py:54-87 | a decided swap moves count each way and ranks every mover strictly apart from all who stay |
| Promotion.SwapIgnoresInputOrder | services/api/src/vmf_api/domain/promotion.py:68-72 | the shared ranks, and for a decided swap the movers and their order, do not depend on the order of the tables |
| Promotion.OrderedRanksAgree | services/api/src/vmf_api/domain/promotion.py:68-69 | sorting any order of a table puts the same rank at each position |
| Zones.StraddlingTieIsHiddenIff | apps/web/src/lib/zones.ts:23-41 | a tie that straddles the boundary leaves the table unmarked exactly when it starts at the boundary's own rank |
| Zones.SixAreMarkedIff | apps/web/src/lib/zones.ts:23-41 | a table that is marked has six managers marked exactly when no tie straddles the boundary; with one LOW marks more and HIGH fewer |
| Zones.DecidedSwapIsMarked | apps/web/src/lib/zones.ts:23-41 | where the swap of six is decided, the marked managers are exactly those it moves |
| Zones.LevelTableIsMarked | apps/web/src/lib/zones.ts:10-31 | with everybody at rank 1 the whole of LOW is marked |
| Zones.PlacesAreCompetition | services/api/src/vmf_api/services/promotion.py:94-116 | each place of a division is ranked one more than the number of places ranked above it |
| PromotionService.PlacesHoldTable | services/api/src/vmf_api/services/promotion.py:189-203 | every manager of a table has one place, at the competition rank of his row |
| PromotionService.SwapNamesCountEachWay | services/api/src/vmf_api/services/promotion.py:205-219 | the plan names count different managers of LOW and count of HIGH |
| PromotionService.PromotedOutscoreStayers | services/api/src/vmf_api/services/promotion.py:189-219 | whoever is promoted has a strictly greater Classic key than everyone who stays in LOW |
| PromotionService.StayersOutscoreRelegated | services/api/src/vmf_api/services/promotion.py:189-219 | whoever is relegated has a strictly smaller key than everyone who stays in HIGH |
| PromotionService.AppliedDivisions | services/api/src/vmf_api/services/promotion.py:177-203 | each division becomes itself less those who leave plus those who come |
| PromotionService.AppliedKeepsSizes | services/api/src/vmf_api/services/promotion.py:177-204 | applying the swap keeps the size of both divisions |
| PromotionService.AppliedWritesOneMembershipEach | services/api/src/vmf_api/services/promotion.py:177-203 | every manager gets exactly one membership, in the division he is now in, marked with where he came from if he moved |
| PromotionService.SwapIsMadeOnce | services/api/src/vmf_api/services/promotion.py:163-175 | after a swap every further one is refused |
| PromotionService.DivisionSwapService.RankDivision | services/api/src/vmf_api/services/promotion.py:93-116 | the ranked places of one division's table |
| PromotionService.DivisionSwapService.Plan | services/api/src/vmf_api/services/promotion.py:68-139 | refusals in the order they are checked, otherwise the planned swap |
| PromotionService.DivisionSwapService.Apply | services/api/src/vmf_api/services/promotion.py:141-213 | a refused swap changes nothing and says why; an accepted one writes the planned divisions and memberships |
| PromotionService.DivisionSwapService.WriteMemberships | services/api/src/vmf_api/services/promotion.py:177-204 | the loop writes one row and one pointer for every manager, HIGH's table first |
| GameweekScoring.CaptainIsHighest | services/api/src/vmf_api/domain/gameweek_scoring.py:106-123 | there is an effective captain exactly when some multiplier exceeds one, and no pick beats his key |
| GameweekScoring.ComputeGameweekScore | services/api/src/vmf_api/domain/gameweek_scoring.py:126-207 | the loop's totals are the sums over the fielded and the benched picks; the published total wins when present and the reconciled flag says whether it agrees |
| GameweekScoring.CountedAddUp | services/api/src/vmf_api/domain/gameweek_scoring.py:153-184 | the counted picks carry the whole derived total, and with the bench every point is counted once |
| Matchup.CompareSquads | services/api/src/vmf_api/domain/matchup.py:252-292 | the loop over the union of the squads yields the line of every player a side fields, in id order, with what each side has left |
| Matchup.Remaining | services/api/src/vmf_api/domain/matchup.py:229-249 | the loop counts fielded players with unresolved fixtures, their multipliers and those fixtures |
| Matchup.EveryFieldedPlayerHasOneLine | services/api/src/vmf_api/domain/matchup.py:265-286 | a player has a line exactly when a side fields him; a line is shared exactly when its net multiplier is zero |
| Matchup.LinesCarryTheDifference | services/api/src/vmf_api/domain/matchup.py:84-100 | for any worth of players, one side's total less the other's is the sum over the lines |
| Matchup.DifferentialsAreTheUnshared | services/api/src/vmf_api/domain/matchup.py:208-217 | the differentials are exactly the lines that are not shared, by falling absolute swing |
| Matchup.MarginIsSumOfSwings | services/api/src/vmf_api/domain/matchup.py:96-100 | the difference of the two derived totals is the sum of the swings of the differentials: shared and unfielded players contribute nothing |
| Matchup.RemainingDifferenceIsLiveNet | services/api/src/vmf_api/domain/matchup.py:229-249 | the sides' live multipliers differ by the net multipliers of the lines with fixtures to come |
| H2HTable.Record | services/api/src/vmf_api/services/h2h.py:86-108 | one match updates both accumulators by its two shares, even when both sides are one accumulator |
| H2HTable.RecordIn | services/api/src/vmf_api/services/h2h.py:85-108 | over the whole table a match gives each manager his share of it and leaves the rest alone |
| H2HTable.Accumulate | services/api/src/vmf_api/services/h2h.py:79-108 | after the loop each manager's accumulator is the sum of his shares of the completed matches |
| H2HTable.Standings | services/api/src/vmf_api/services/h2h.py:71-139 | an unknown schedule is an error; otherwise every manager is listed once with all the columns of his own completed matches, penalties and net points, ranked by competition ranking |
| H2HTable.WinsAndPointsBalance | services/api/src/vmf_api/services/h2h.py:88-108 | over the table wins equal losses and points for equal points against |
| H2HTable.PointsAreHandedOut | services/api/src/vmf_api/services/h2h.py:96-108 | table points sum to three per decisive match, walkovers included, and two per draw |
| H2HTable.LineAddsUp | services/api/src/vmf_api/services/h2h.py:88-108 | each manager's played is wins, draws and losses, and his points three per win and one per draw |
| H2HTable.TableTotals | services/api/src/vmf_api/services/h2h.py:85-108 | any quantity counted match by match has the same total over managers as over matches |
| H2HTable.WalkoverIsOnlyAWin | services/api/src/vmf_api/domain/h2h_result.py:65-74 | a settled walkover gives the opponent a win and three points and moves no points for or against |
| H2HTable.PublishedPointsBalance | services/api/src/vmf_api/services/h2h.py:110-139 | the points shown are those handed out plus the penalties |
| H2HTable.ShownRowAddsUp | services/api/src/vmf_api/services/h2h.py:124-138 | every shown row has played equal to wins, draws and losses, and points equal to three per win, one per draw and the penalty |
| BracketLabels.NamesAreDistinct | services/api/src/vmf_api/domain/cup_bracket.py:105-109 | no two ties print the same name |
| BracketLabels.LabelsReadBack | apps/web/src/lib/bracket.ts:25-32 | the page reads back exactly the tie a winner slot was written from, and nothing from a qualification place |
| BracketLabels.ReadingInverts | apps/web/src/lib/bracket.ts:25-32 | a label that reads as a winner's is that winner's label written out |
| BracketWings.Ancestry | apps/web/src/lib/bracket.ts:35-41 | the search with its visited set terminates on any labels; what it adds leads into the tie and is closed under feeders |
| BracketWings.Subtree | apps/web/src/lib/bracket.ts:43-47 | on any labels, cyclic ones included, exactly the ties that lead into the given one |
| BracketWings.TiesByName | apps/web/src/lib/bracket.ts:62-65 | the nested loops build the map in which a later tie of the same name wins |
| BracketWings.LayoutBracket | apps/web/src/lib/bracket.ts:60-94 | the wings are the earlier rounds cut down to the ties behind each of the final's feeders; a final without two feeders leaves everything on the left |
| BracketWings.WingShows | apps/web/src/lib/bracket.ts:49-58 | a wing shows exactly the matches of its rounds whose names are in its set |
| BracketWings.FeedersSplitTheTree | apps/web/src/lib/bracket.ts:75-89 | where every tie but the root has one later consumer, each leads into exactly one of the root's two feeders |
| BracketPages.PageIsATree | apps/web/src/lib/bracket.ts:6-9 | the labels of a well-formed bracket form such a tree |
| BracketPages.WingsShareOutTheTies | apps/web/src/lib/bracket.ts:60-94 | on a well-formed bracket whose final meets two winners every other tie is in exactly one wing and the final in neither, whatever order the rounds arrive in |
| BracketPages.PublishedCupsHaveTwoWings | apps/web/src/lib/bracket.ts:60-94 | so it is for both published Cups |
| CupOutcomes.SettlingDecides | services/api/src/vmf_api/domain/cup.py:66-88 | an open tie goes to the side with more points, at level points to the better first fact that differs (fewer cards being better), and to nobody if all are level |
| CupOutcomes.CallDecidesOpenTie | services/api/src/vmf_api/services/cups.py:403-461 | in every reachable state a call for a finalized Gameweek decides each of its open ties that way, by the points and facts it reads (0 where missing), and writes each side's points on its own side |
| CupOutcomes.CallLeavesOtherResults | services/api/src/vmf_api/services/cups.py:403-409 | a tie of another Gameweek, an open one in a Gameweek that is not final, or one without two sides or with a winner keeps its result |
| CupOutcomes.LotsDecideLevelTie | services/api/src/vmf_api/services/cups.py:404-416 | lots decide a tie awaiting a draw between its two managers and change nothing else |
| CupOutcomes.SlotHoldsWhomItPrints | services/api/src/vmf_api/services/cups.py:484-495 | in every reachable state an entry slot holds the manager drawn to its place, and a slot that waits for a tie nobody but that tie's winner |
| CupOutcomes.ThirdPlaceHoldsTheBeaten | services/api/src/vmf_api/services/cups.py:497-511 | in every reachable state the third-place match holds nobody but the losers of the first two ties of the round before, each on his own side |
| CupOutcomes.WinnerMovesOnAtOnce | services/api/src/vmf_api/services/cups.py:428-434 | a call that decides a tie has sent its winner on to the slot that waits for it |
| BatchOutcomes.QueueIsByWait | services/api/src/vmf_api/services/ingestion.py:659-714 | ahead of a manager stand exactly those without a stored squad, then those never read, then those read longer ago, then lower ids |
| BatchOutcomes.AnswersMoveTimes | services/api/src/vmf_api/services/ingestion.py:474-501 | a run of either job moves the last-read time of those asked who answer to its own time, and nobody else's |
| BatchOutcomes.AnswersStoreSquads | services/api/src/vmf_api/services/ingestion.py:392-435 | the squad job stores a squad for exactly those asked whose answer can be read; the other job stores none |
| BatchOutcomes.RunWithoutLimitReadsAll | services/api/src/vmf_api/services/ingestion.py:678-704 | a run without a limit asks about every manager, and reads every one who answers |
| BatchOutcomes.BatchSize | services/api/src/vmf_api/services/ingestion.py:699-714 | a run with a limit asks about that many managers of the league, or about all if there are fewer, and about nobody twice |
| BatchOutcomes.LastReadIsLatest | services/api/src/vmf_api/services/ingestion.py:635-656 | a manager has a last-read time exactly when a row of the endpoint is his, and it is the latest time any of them was seen |
| DisciplinaryOutcomes.DueFrom | services/api/src/vmf_api/domain/violations.py:36-60 | the totals from which each consequence is due: 1, 2 and 3 |
| DisciplinaryOutcomes.ConsequencesByPeak | services/api/src/vmf_api/domain/violations.py:36-60 | over every run, by the highest total a review has reached: deposit and a table penalty of -6 from 1, capped prize and the loss of Cup and head-to-head from 2, removal from 3, and nothing below |
| DisciplinaryOutcomes.ReviewIsAcceptedIff | services/api/src/vmf_api/domain/violations.py:103-137 | a review is accepted exactly when there is such a case, its state can see it, and an override names a count of at least 0; it gives that case its outcome and count, touches no other, and writes ledger rows for that manager at his new total |
| DisciplinaryOutcomes.HitsAreStartedEights | services/api/src/vmf_api/domain/violations.py:93-100 | an error exactly on a negative figure; otherwise n units with 8(n - 1) < cost - allowed <= 8n, and none at or under the limit |
| DisciplinaryOutcomes.PassRaisesByCost | services/api/src/vmf_api/services/violations.py:78-119 | after a pass a cost above the limit has an undecided case of that many units and any other cost none, unless the case was decided, which is then as it was; a negative figure changes nothing |
| DisciplinaryOutcomes.PassLeavesOtherCases | services/api/src/vmf_api/services/violations.py:88-119 | a pass touches only transfer cases that its history names |
| DisciplinaryOutcomes.PassCountsItsChanges | services/api/src/vmf_api/services/violations.py:95-131 | the pass reports as raised, updated and cleared the numbers of rows whose case was missing, counted wrongly, or without a cost to stand on |
| FixtureOutcomes.NamedFixtureIsAsPublished | services/api/src/vmf_api/services/ingestion.py:229-241 | a fixture the payload names has the row of its last occurrence there |
| FixtureOutcomes.OtherFixtureIsAsItWas | services/api/src/vmf_api/services/ingestion.py:229-241 | a fixture the payload does not name is as it was |
| FixtureOutcomes.StatisticsFollowFixtures | services/api/src/vmf_api/services/ingestion.py:238-251 | with unique ids a statistic goes exactly when its fixture was stored in that Gameweek and its row now names another one or none; the others stay as they are |
| FixtureOutcomes.WrittenAreTheNews | services/api/src/vmf_api/services/ingestion.py:232-241 | with unique ids the rows written are those that are new or differ from the table |
| FixtureOutcomes.CountedStatisticIsAsPublished | services/api/src/vmf_api/services/ingestion.py:301-345 | a player's statistic in a fixture that counts for the Gameweek is the one of its last row in the feed |
| FixtureOutcomes.OtherStatisticIsAsItWas | services/api/src/vmf_api/services/ingestion.py:301-345 | a statistic no row that counts is about is as it was, and so are the fixtures |
| FixtureOutcomes.WrittenStatsAreTheNews | services/api/src/vmf_api/services/ingestion.py:299-345 | with nobody named twice the rows written are those that count for the Gameweek and are new or differ from the table |
| FixtureOutcomes.FeedIsReadIff | services/api/src/vmf_api/services/sync_orchestrator.py:103-123 | a tick records the live feed exactly when a fixture of its Gameweek has its start flag up in the table just mirrored |
| SettlementOutcomes.TickScores | services/api/src/vmf_api/services/scoring.py:129-176 | the row a tick leaves: in play the derived points less the cost whatever FPL published; once played out, and for good once final, FPL's figure less its cost where there is one; before kick-off as it was |
| SettlementOutcomes.ReportedAreContradicted | services/api/src/vmf_api/services/scoring.py:137-152 | reported are exactly the managers of a started Gameweek, not in play, whose published gross differs from the derived one |
| SettlementOutcomes.GateNamesTheFirst | services/api/src/vmf_api/services/finalization.py:46-149 | the gate reports the first of its conditions that fails |
| SettlementOutcomes.TickSettles | services/api/src/vmf_api/services/h2h_settlement.py:97-165 | a tick gives each match of its Gameweek the result of the net scores it leaves: the higher side wins, one forfeit is a walkover of no points, two are left to a person, a missing score leaves it alone; the status is LiveMatch in play, ProvisionalMatch after it, FinalMatch when final |
| SettlementOutcomes.OtherTicksDoNothing | services/api/src/vmf_api/services/sync_orchestrator.py:108-111 | a live-only tick with nothing started changes nothing |
| SettlementOutcomes.TallyCountsMatches | services/api/src/vmf_api/services/h2h_settlement.py:97-165 | its counters are the numbers of the Gameweek's matches settled, walked over and kept, and those left to a person are named |
| PromotionOutcomes.PromotedHaveTheBetterSeason | services/api/src/vmf_api/domain/rankings.py:62-68 | on the Season totals: whoever an accepted swap promotes has more season points than everyone who stays in LOW, at level points more awards, then captain points, then goals, then fewer cards |
| PromotionOutcomes.RelegatedHaveTheWorseSeason | services/api/src/vmf_api/domain/rankings.py:62-68 | the same downwards for whoever it takes out of HIGH |
| PromotionOutcomes.CountMoveEachWay | services/api/src/vmf_api/services/promotion.py:141-204 | an accepted swap of count moves exactly that many managers up and exactly that many down |
| PromotionOutcomes.SwapIsMadeIff | services/api/src/vmf_api/services/promotion.py:68-175 | a swap is made exactly when the Season, its final last Gameweek and the next phase exist, nobody holds a place of that phase, both divisions have count managers, and no two level seasons stand among the best of LOW or the worst of HIGH that are to move |
| PromotionOutcomes.SwapIsRefusedFor | services/api/src/vmf_api/services/promotion.py:74-175 | a refusal names the first of these conditions that fails, in the order in which they are asked |
| TableOutcomes.ShownRowCountsMatches | services/api/src/vmf_api/services/h2h.py:76-138 | each shown row counts the schedule's own matches with status FinalMatch or WalkoverMatch: played once for each side the manager is on, wins those he is named winner of, points for and against the stored scores of his side and the other, and points with the penalty |
| TableOutcomes.EverybodyHasOneRow | services/api/src/vmf_api/services/h2h.py:79-84 | everybody on a side of any match, played or not, has one row, and nobody else |
| TableOutcomes.ShownInOrder | services/api/src/vmf_api/domain/rankings.py:94-110 | rows stand by table points, then difference, points for, wins and full net points, and share a rank exactly when all five are level |
| ScoringOutcomes.TotalsCountPicks | services/api/src/vmf_api/domain/gameweek_scoring.py:160-169 | the derived total is points times multiplier over the picks with a positive one, the bench total the points of the others, a player without statistics counting 0 |
| ScoringOutcomes.EventsCountPicks | services/api/src/vmf_api/domain/gameweek_scoring.py:170-172 | goals and cards are counted once for each pick with a positive multiplier |
| ScoringOutcomes.PickCountsInItsPlace | services/api/src/vmf_api/domain/gameweek_scoring.py:173-184 | each such pick has one counted entry, in pick order, with its points, contribution, bench boost flag from squad position 12 on and armband flag |
| ScoringOutcomes.FirstOfTheHighestIsCaptain | services/api/src/vmf_api/domain/gameweek_scoring.py:106-123 | the armband is on the first pick with multiplier above one that none outranks by multiplier, then captaincy, then earlier squad position |
| ScoringOutcomes.LineReadsInputs | services/api/src/vmf_api/domain/matchup.py:265-286 | a line shows its player's multiplier on each side (0 if not fielded), points, fixture counts, state and armbands as the inputs have them |
| ScoringOutcomes.FieldedAreShown | services/api/src/vmf_api/domain/matchup.py:264-274 | a player has a line exactly when a side has him with a positive multiplier, and lines stand in id order |
| ScoringOutcomes.DifferentialsStandBySwing | services/api/src/vmf_api/domain/matchup.py:208-217 | differentials stand by falling absolute swing, at a level swing by rising id |
| ScoringOutcomes.LeftCountsThePlayersStillToPlay | services/api/src/vmf_api/domain/matchup.py:229-249 | a side's remaining players, multipliers and fixtures are counted over exactly its fielded players with a fixture to come |
| BracketOutcomes.WingKeepsOrder | apps/web/src/lib/bracket.ts:49-58 | a wing keeps the order of the rounds and of the matches in them, cuts each round down to its ties and shows no empty round |
| BracketOutcomes.RoundsGoUp | apps/web/src/lib/bracket.ts:60-61 | the page goes through all the rounds by rising order |
| BracketOutcomes.FinalIsOfTheLastRound | apps/web/src/lib/bracket.ts:67-73 | the final is the first match of the round of highest order; without rounds or without that match the page has no wings |
| BracketOutcomes.EachWingLeadsIntoItsSlot | apps/web/src/lib/bracket.ts:75-94 | where both slots of the final name a winner each wing shows exactly the earlier ties that lead into its slot's tie |
| BracketOutcomes.WithoutTwoFeedersAllIsOnTheLeft | apps/web/src/lib/bracket.ts:75-85 | where a slot of the final names no winner every earlier tie is on the left and none on the right |
| BracketOutcomes.NameStandsForTheLast | apps/web/src/lib/bracket.ts:62-66 | a name stands for the last match that has it |

## Left out

- `advance` also reports how many managers it moved on, and `generate` how many it placed; neither count is modelled.
- Tie identities in the Cup modules are values; `BracketLabels` gives them their printed names.
- Names, team names, audit entries, reasons and notes are not carried; a membership's source is the division moved from.
- How qualification totals and cumulative tie-break facts are summed from score rows (`_totals`, `_tie_break_facts`): they arrive as maps.
- A Cup walkover: `_resolve` never marks a side disqualified, so `advance` never produces one; `ResolveCupMatch` covers it.
- Drawing lots happens outside `advance`; it is modelled as an event that names one of the two sides of a tie awaiting a draw.
- Manual edits of a manager's status and `import_h2h_schedule --allow-settled`, which break the run invariants on purpose.
- The team-of-the-week award, chips, highlights, statistics pages and the season bootstrap: single passes over rows, with no state to keep.
- Decimal rounding in `locked_scores.py`: one small bound.
- SQL, sessions, migrations, locks, HTTP, retries, JSON parsing, settings, routes, authentication and the user interface: rows and parsed payloads are the inputs.
- `due_threshold_actions` refuses a negative total; totals are shown to be non-negative, so that error is not modelled.
- The order in which the H2H table lists managers of equal rank: the source iterates a set, the model uses id order.
- Players a squad lists with opponents and kick-off times (`build_squad`, `PlayerFixture`): presentation only.
- BatchRotation.Ingestion.SyncEntryHistory: reads in the order of the batch; the bounded concurrency of the requests is not modelled, because each answer is recorded under its own manager.
- How the pick snapshots that feed a derived total are stored and revised (`_store_pick_snapshot`): a source row carries the total.
- The squad job's skips before a deadline is known or has passed, and both jobs' skip when nobody is selected.
- Counters of the scheduled jobs beyond those named above, and the detail dictionaries they return.
