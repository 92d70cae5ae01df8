# Trouble Brewing helper — a Dafny model

This project models the rules core of a storyteller's helper for *Blood on
the Clocktower*, Trouble Brewing edition:

- **the role catalog** (`app/data.ts`): 22 roles with their types, night
  flags and night orders, and the catalog grouped by type;
- **the seat library** (`app/gameLogic.ts`): creating blank seats, binding
  roles by identifier (with its two errors), the protection-aware kill, the
  ability check and the alive/dead counters;
- **the night prompt** (`app/utils.ts`, `calculateNightInfo`): the role a
  seat acts as (a drunk acts as its charade role), whether it is impaired,
  and the true and false instruction, including the washerwoman, librarian
  and investigator information with its seat numbers;
- **the scenario suite's rule helpers**
  (`tests/trouble_brewing_scenarios.test.js`): the suite's role lookup and
  seat builder, its alignment and kill rules, protection reset, the fortune
  teller, the empath (plain and with a spy mask) and the investigator, and
  the succession and special-victory rules it states inline;
- **the three game simulators** (`tests/single_sim_run.js`,
  `tests/stress_test.js`, `tests/gameSimulation.test.js`): the Fisher–Yates
  shuffle, the presets, the deal, the win check, the night actions (poisoner,
  monk, demon), the voting day and the random-execution day, and the round
  loop with its limit.

The simulators share one model (`SimCommon`) of their game context. It is a
class whose fields (seats, day, night, winner, log) the steps update in
place. Each step is a method proved equal to a pure specification function
over a `State` value: `NightSpec`, `DaySpec`, `Play`, `WinCheck`. The
simulators differ in four rules, collected in `Rules`:

- whether they log;
- whether the demon rests on the first night;
- whether protection is cleared at dawn;
- whether the day is a vote or a random execution.

Every random number is an input. `Math.random()` becomes a function from a
step number to a natural number, reduced modulo the range, and a vote is a
ballot function.

`SimLemmas` proves the game-level facts about those functions:

- seats only "evolve": same ids, roles and allegiance, deaths never undone;
- the seat list stays valid;
- the log only grows;
- a game that ends is won by good or by evil;
- an undecided game played all of its nights.

Each simulator module then states what its own entry point promises.

The 15-player preset of the simulators lists 16 roles (9 townsfolk,
4 outsiders, 2 minions, 1 demon), and the deal seats only the first 15
shuffled roles. The model keeps this as written. `SimCommon.SetupDemon`
states the consequence: below 15 players exactly one seat holds the demon,
and at 15 players the demon is dealt unless the deal's first exchange's draw
leaves it in the last position (where the pick already put it). `SimLemmas.NoDemonGoodWinsAtOnce` states what such
a game does: good wins on the first night.

## Model

| member | source | states |
|---|---|---|
| Data.CatalogIndexed | app/data.ts:81-104 | The catalog has 22 entries and entry `i` carries the identifier numbered `i`. |
| Data.IdsDistinct | app/data.ts:81-104 | No two catalog entries share an identifier. |
| Data.CatalogKeysDistinct | app/data.ts:81-104 | No two catalog entries share an id string, so a lookup by id finds at most one role. |
| Data.RoleOf | app/data.ts:81-104 | The catalog holds an entry for every identifier. |
| Data.FindInSpec | app/gameLogic.ts:53 | `find` by id returns an entry with that id when one exists, and fails exactly when none exists. |
| Data.FindRoleOfKey | app/gameLogic.ts:53 | Looking up an identifier's id string finds exactly that identifier's catalog entry. |
| Data.FindRoleUnknown | app/gameLogic.ts:53-57 | Lookup fails exactly for strings that are no role's id. |
| Data.OfTypeMembers | app/data.ts:106-111 | A type filter keeps exactly the entries of that type. |
| Data.CatalogBlocks | app/data.ts:81-104 | The catalog lists four minions, the demon, thirteen townsfolk and four outsiders, in that order. |
| Data.GroupedByType | app/data.ts:106-111 | Each group of `groupedRoles` equals the catalog filtered by that type, in catalog order. |
| Data.OnlyImpIsDemon | app/data.ts:110 | The demon group is the imp alone. |
| Data.GroupedPartition | app/data.ts:106-111 | The groups have 13, 4, 4 and 1 entries, add up to the catalog, and every role is in its own type's group and in no other. |
| Data.InactiveOrderIsZero | app/data.ts:81-104 | A role that does not wake in a phase has order 0 for that phase. |
| Data.OrdersMatchSheets | app/data.ts:81-104 | Every non-zero night order is the one the first-night and other-nights sheets give for that role. |
| Data.ActiveOrdersDistinct | app/data.ts:81-104 | Within a phase, no two roles share a non-zero order, so the night order is strict. |
| GameLogic.InitializeSeats | app/gameLogic.ts:9-38 | Gives `max(playerCount, 0)` seats; seat `i` has id `i`, no role, and is alive, sober, unpoisoned and unprotected. |
| GameLogic.FirstUnknown | app/gameLogic.ts:51-57 | Finds the first role id, in list order, that the catalog does not know, or reports that all are known. |
| GameLogic.AssignRoles | app/gameLogic.ts:46-65 | A length mismatch is the first error. Otherwise the first unknown id is reported. Otherwise every seat holds the catalog role keyed by its id, is drunk exactly when that role is the drunk, and is otherwise unchanged. |
| GameLogic.KnownKeys | app/gameLogic.ts:53 | Ids the catalog knows find catalog entries that carry those ids. |
| GameLogic.AllPlayersHaveRoles | app/gameLogic.ts:149-151 | Every seat holds a role exactly when every seat could use its ability were it alive. A successful `AssignRoles` establishes it. |
| GameLogic.FindSeat | app/gameLogic.ts:81-84 | Finds the first seat with the id, or reports that no seat has it. |
| GameLogic.MarkDead | app/gameLogic.ts:114-122 | Seats with the id become dead; every other seat is unchanged. |
| GameLogic.KillPlayer | app/gameLogic.ts:76-123 | Fails exactly when no seat has the id. Otherwise only seats with that id can change, and then only by dying. |
| GameLogic.CanUseAbility | app/gameLogic.ts:130-142 | A seat without a role cannot act. A living seat with a role can. A dead one can only with a flag that keeps its ability. |
| GameLogic.AliveCount | app/gameLogic.ts:158-160 | The alive count is at most the seat count. |
| GameLogic.DeadCount | app/gameLogic.ts:167-169 | The dead count is at most the seat count. |
| GameLogic.AliveDeadPartition | app/gameLogic.ts:158-169 | The alive and dead counts add up to the number of seats. |
| GameLogic.MarkDeadAliveCount | app/gameLogic.ts:114-122 | Marking an id dead lowers the alive count by exactly the number of living seats with that id. |
| GameLogic.AssignedSeatsCanAct | app/gameLogic.ts:59-63 | Binding roles keeps every seat's id, and every living bound seat may use its ability. |
| GameLogic.KillIsIdempotent | app/gameLogic.ts:86-89 | Killing the same target a second time returns the result of the first kill. |
| GameLogic.ProtectedTargetSurvives | app/gameLogic.ts:95-105 | A living target protected by an existing, unimpaired seat is not killed while protection is checked. |
| GameLogic.VoidProtectionKills | app/gameLogic.ts:95-123 | With the protection void or skipped and no night soldier, the target dies and nothing else changes. Alive count falls by one, dead count rises by one, and the dead seat keeps its ability only by flag. |
| GameLogic.NightSoldierNeverDies | app/gameLogic.ts:108-111 | At night the soldier is never killed, even when poisoned or drunk. |
| GameLogic.KillDeadIsNoop | app/gameLogic.ts:86-89 | Killing a dead target leaves the seats unchanged. |
| GameLogic.KillKeepsRoles | app/gameLogic.ts:114-122 | A kill changes no role, so every seat holds a role after it exactly when every seat did before. |
| GameLogic.BlankSeatsLackRoles | app/gameLogic.ts:12-15 | Freshly initialized seats hold no role, so the check holds for them only when there are none. |
| GameLogic.IndexedSeatsAreFound | app/gameLogic.ts:11-15 | On seats whose ids are their positions, ids are unique, seat `i` is found at `i`, and ids outside the range are not found. |
| NightInfo.Pool | app/utils.ts:36 | The pool is exactly the other seats whose true role has the learned type. |
| NightInfo.FirstOther | app/utils.ts:39 | Finds the first seat that is neither of the two, or reports that there is none. |
| NightInfo.CalculateNightInfo | app/utils.ts:12-50 | A prompt exists exactly when the seat exists, has a role, and (if drunk) has a charade role. The prompt is for that seat, its true instruction is never empty, impairment means poisoned, drunk or the drunk role, and the reason is "poisoned" exactly when poisoned. |
| NightInfo.DrunkActsAsCharade | app/utils.ts:16-19 | A drunk with a charade role is prompted as that role and is always impaired. |
| NightInfo.SoberActsAsOwnRole | app/utils.ts:16 | Any other seat with a role is prompted as its own role. |
| NightInfo.ShownSeatHasLearnedType | app/utils.ts:34-41 | A shown role happens only on the first night for an information role. It names another seat whose true role has the learned type. The decoy is a third seat, missing only when no third seat exists. |
| NightInfo.InstructionShowsRole | app/utils.ts:34-41 | The same facts about the instruction itself, in terms of the acting seat. |
| NightInfo.ShowsRoleIffPoolNonEmpty | app/utils.ts:34-42 | On the first night an information role is shown a seat exactly when another seat has the learned type. Otherwise it is told zero, with "one" as the false line. |
| NightInfo.DrawOnlyChoosesShownSeat | app/utils.ts:38 | The random draw changes only which seat is shown; every other part of the prompt is the same. |
| NightInfo.SpyFakeEqualsReal | app/utils.ts:32-33 | The spy's false instruction equals its true one. |
| NightInfo.ImpPromptByPhase | app/utils.ts:25-27 | The imp is shown its minions on the first night and chooses a victim on every other night. |
| NightInfo.CatalogHasNoReminders | app/data.ts:81-104 | No catalog role carries a reminder text. |
| NightInfo.CatalogFallbackIsNoAction | app/utils.ts:43-48 | Every catalog role outside the special branches is told it has no action, with the generic false line. |
| Scenarios.GetRole | tests/trouble_brewing_scenarios.test.js:9-13 | Returns a catalog entry with that id, and fails with the "role not found" message exactly when no role has that id. |
| Scenarios.CreateSeat | tests/trouble_brewing_scenarios.test.js:15-41 | Builds a seat holding the catalog role with that id, drunk exactly when it is the drunk, every other flag cleared; an unknown id is the lookup error. |
| Scenarios.CreateSeatOfKey | tests/trouble_brewing_scenarios.test.js:15-41 | Every catalog id builds a seat holding exactly that role. |
| Scenarios.IsEvil | tests/trouble_brewing_scenarios.test.js:43 | A seat is evil exactly when its role is neither townsfolk nor outsider, or it has inherited the demon. |
| Scenarios.SuiteEvilIgnoresConversion | tests/trouble_brewing_scenarios.test.js:43 | The suite's alignment equals the simulators' alignment with the conversion flag cleared. The two agree on unconverted seats, and a conversion to evil counts only in the simulators. |
| Scenarios.Kill | tests/trouble_brewing_scenarios.test.js:46-52 | Reports exactly whether the kill rule lets the seat die, and changes that seat alone, only to dead. |
| Scenarios.ResetProtection | tests/trouble_brewing_scenarios.test.js:54 | Every seat loses its protection and its protector, and nothing else changes. |
| Scenarios.SoldierSurvivesUnlessForced | tests/trouble_brewing_scenarios.test.js:47-48 | An unimpaired soldier dies only to a forced kill. |
| Scenarios.ProtectionIsUnconditional | tests/trouble_brewing_scenarios.test.js:49 | A protected seat dies only when protection is ignored, whoever the protector is. |
| Scenarios.UnprotectedKillRule | tests/trouble_brewing_scenarios.test.js:46-52 | Without protection a kill succeeds exactly when the soldier rule does not apply. A drunk dressed as a soldier, or a poisoned soldier, always dies. |
| Scenarios.PoisonedSoldierRulesDisagree | tests/trouble_brewing_scenarios.test.js:47 | On a poisoned soldier at night, the seat library keeps it alive while the suite's rule kills it. |
| Scenarios.ImpairedProtectorRulesDisagree | tests/trouble_brewing_scenarios.test.js:49 | On a seat protected by a poisoned monk, the seat library kills it while the suite's rule keeps it alive. |
| Scenarios.AnyPings | tests/trouble_brewing_scenarios.test.js:58-62 | True exactly when some target is of demon type, a demon successor or the red herring. |
| Scenarios.FortuneTellerCheck | tests/trouble_brewing_scenarios.test.js:56-64 | A healthy fortune teller reads "yes" exactly when a target pings. A poisoned one reads "yes" exactly when none does. |
| Scenarios.PoisonFlipsFortuneTeller | tests/trouble_brewing_scenarios.test.js:63 | Poison always flips the answer for the same targets. |
| Scenarios.LeftOf | tests/trouble_brewing_scenarios.test.js:69 | The left neighbour is a seat whose right neighbour is the empath. |
| Scenarios.RightOf | tests/trouble_brewing_scenarios.test.js:70 | The right neighbour is the next seat, wrapping to seat 0 after the last. |
| Scenarios.EvilNeighbours | tests/trouble_brewing_scenarios.test.js:69-71 | Counts at most two evil neighbours. |
| Scenarios.EmpathInfo | tests/trouble_brewing_scenarios.test.js:66-74 | A healthy empath reads the evil-neighbour count. A poisoned one reads 0 or 1, never that count. |
| Scenarios.MaskedEvilNeighbours | tests/trouble_brewing_scenarios.test.js:92-96 | A mask can only lower the evil-neighbour count. |
| Scenarios.EmpathInfoWithSpyMask | tests/trouble_brewing_scenarios.test.js:87-98 | A healthy empath reads the masked count. A poisoned one reads 0 or 1, never the masked count. |
| Scenarios.EmptyMaskIsPlainCount | tests/trouble_brewing_scenarios.test.js:87-98 | With an empty mask, the masked count and a healthy empath's answer equal the plain ones. |
| Scenarios.MaskedNeighboursReadGood | tests/trouble_brewing_scenarios.test.js:92-96 | With both neighbours masked, a healthy empath reads 0. |
| Scenarios.PoisonedEmpathHelpersDisagree | tests/trouble_brewing_scenarios.test.js:97 | With one evil neighbour that the mask hides, the two poisoned answers differ: 0 from the plain helper, 1 from the masked one. |
| Scenarios.InvestigatorPing | tests/trouble_brewing_scenarios.test.js:77-84 | Reports exactly those candidates that register as minions, in the order given: its length is the number of candidates that register, the first candidate leads the list exactly when it registers, the second ends it exactly when it registers, and the list is empty exactly when neither does. |
| Scenarios.ForcedCandidateReported | tests/trouble_brewing_scenarios.test.js:78-79 | A forced candidate is always reported, so the report is never empty. |
| Scenarios.AliveDemonCount | tests/trouble_brewing_scenarios.test.js:262 | Counts at most one living demon or successor per seat. |
| Scenarios.AliveDemonCountUpdate | tests/trouble_brewing_scenarios.test.js:262 | Replacing one seat changes the living-demon count by that seat's contribution only. |
| Scenarios.SaintExecution | tests/trouble_brewing_scenarios.test.js:228 | Evil wins exactly when the seat is a dead saint; good never wins this way. |
| Scenarios.MayorSurvival | tests/trouble_brewing_scenarios.test.js:236-238 | Good wins exactly when three seats live and nobody was executed; evil never wins this way. |
| Scenarios.MayorWinIgnoresRoles | tests/trouble_brewing_scenarios.test.js:236-238 | Three living seats with no execution give good the win whatever the roles, even with a seat's role removed. |
| Scenarios.ScarletWomanSuccession | tests/trouble_brewing_scenarios.test.js:254-258 | Succession keeps the number of seats. |
| Scenarios.SuccessionKeepsOneDemon | tests/trouble_brewing_scenarios.test.js:253-263 | With no living demon left and at least five alive, the chosen living seat (the scarlet woman) becomes the imp, and exactly one living demon remains. |
| Scenarios.ImpStarPass | tests/trouble_brewing_scenarios.test.js:271-273 | The imp is dead and the chosen minion is the imp and a demon successor. |
| Scenarios.StarPassKeepsDemonCount | tests/trouble_brewing_scenarios.test.js:271-273 | Passing the demon to a living minion keeps the number of living demons. |
| SimCommon.Swap | tests/single_sim_run.js:13 | The two positions are exchanged and every other position is kept. |
| SimCommon.Pick | tests/single_sim_run.js:8 | A random draw becomes a position within the range. |
| SimCommon.ShuffleDown | tests/single_sim_run.js:11-14 | The shuffle keeps the length. |
| SimCommon.SwapPermutes | tests/single_sim_run.js:13 | An exchange is a permutation. |
| SimCommon.ShuffledPermutes | tests/single_sim_run.js:9-16 | Whatever the draws, the shuffle is a permutation of its input. |
| SimCommon.ShuffledLast | tests/single_sim_run.js:11-13 | The last position holds the entry the first draw picks. |
| SimCommon.Shuffle | tests/single_sim_run.js:9-16 | The in-place Fisher–Yates loop on a copy yields the shuffle function's order for the same draws. |
| SimCommon.FindPreset | tests/single_sim_run.js:31 | Finds a preset for that player count, or reports that none exists. |
| SimCommon.PresetTable | tests/single_sim_run.js:18-30 | Row `i` is for `5 + i` players and adds up to that count, except the 15-player row, which adds up to 16. Every row has one demon and fits the catalog's group sizes. |
| SimCommon.PresetFor | tests/single_sim_run.js:31 | Every count from 5 to 15 has its row, and no other count has one. |
| SimCommon.Take | tests/single_sim_run.js:70 | Takes the first `n` entries, or all when fewer. |
| SimCommon.Dealt | tests/single_sim_run.js:78-81 | Deals one seat per player. |
| SimCommon.Total | tests/single_sim_run.js:43 | The drawn player count lies in the range. |
| SimCommon.Catalog | tests/single_sim_run.js:32-33 | The type pools are `groupedRoles`, with the shape the deal needs. |
| SimCommon.GroupedFit | app/data.ts:106-111 | `groupedRoles` has the group sizes and types the deal needs. |
| SimCommon.TakeShuffled | tests/single_sim_run.js:70 | A pick takes as many roles as asked for, or all of the pool, each a role of the pool. |
| SimCommon.PickedSize | tests/single_sim_run.js:70-76 | A preset within the pool sizes picks exactly its size. |
| SimCommon.SetupFits | tests/single_sim_run.js:42-84 | Every drawn count has a preset. The deal order has 16 roles for 15 players and exactly the player count otherwise. |
| SimCommon.PresetFitsGroups | tests/single_sim_run.js:18-30 | Each count's preset has one demon and picks that many roles. |
| SimCommon.PickedShape | tests/single_sim_run.js:71-76 | The picked demon comes last, and no other pick is a demon. |
| SimCommon.DealtDemon | tests/single_sim_run.js:77 | The dealt order holds the demon exactly once, and it is the only demon-type role. |
| SimCommon.DealtSeats | tests/single_sim_run.js:78-81 | Dealt seats are valid. Seat `i` holds the `i`-th role, is drunk exactly for the drunk, and is otherwise blank. |
| SimCommon.DealtDemonSeats | tests/single_sim_run.js:77-81 | At most one seat holds the demon. One always does when every pick is seated. With one pick left over, one does unless the first exchange's draw leaves the demon in the last position. |
| SimCommon.SetupSeats | tests/single_sim_run.js:42-84 | The deal seats the drawn count of valid, role-bound, otherwise blank seats, drunk exactly for the drunk, at day 1 and night 1 with no winner and an empty log. |
| SimCommon.SetupDemon | tests/single_sim_run.js:42-84 | At most one seat is the demon. Below 15 players exactly one is. At 15 the demon is dealt unless the first exchange's draw leaves it at position 15. |
| SimCommon.DealingFresh | tests/single_sim_run.js:42-84 | The deal yields a fresh table: valid, all alive, day 1, night 1, no winner, empty log. |
| SimCommon.Table | tests/single_sim_run.js:42-84 | The catalog deal is a fresh table. |
| SimCommon.Where | tests/single_sim_run.js:86 | Lists exactly the positions of the seats that match the filter. |
| SimCommon.WhereOrdered | tests/single_sim_run.js:86 | The positions come in table order. |
| SimCommon.RandomAlive | tests/single_sim_run.js:89-93 | Picks a matching seat, and finds none exactly when no seat matches. |
| SimCommon.Unprotected | tests/single_sim_run.js:165-168 | Every seat loses its protection and its protector. |
| SimCommon.CountYes | tests/single_sim_run.js:197-201 | The yes votes never exceed the number of voters. |
| SimCommon.ActStep | tests/single_sim_run.js:116-162 | An action keeps the seat count, the counters and the winner, and only appends to the log (nothing when not logging). |
| SimCommon.ActFold | tests/single_sim_run.js:117-123 | A list of actions keeps the seat count, the counters and the winner. |
| SimCommon.NightActions | tests/single_sim_run.js:116-162 | The poisoners', monks' and demons' actions keep the seat count, the counters and the winner. |
| SimCommon.Nomination | tests/single_sim_run.js:186-190 | The nominator and the nominee are two different living seats. |
| SimCommon.NominationVote | tests/single_sim_run.js:186-209 | The nomination keeps the seat count, the counters and the winner, and only appends to the log. |
| SimCommon.Context.constructor | tests/single_sim_run.js:83 | The context holds the given state. |
| SimCommon.Context.Push | tests/single_sim_run.js:113 | Appends the entry when logging, and changes nothing else. |
| SimCommon.Context.CheckGameOver | tests/single_sim_run.js:95-109 | The context and the flag become the win check of the old state. |
| SimCommon.Context.Act | tests/single_sim_run.js:117-161 | The context becomes the old state after that action. |
| SimCommon.Context.RunActors | tests/single_sim_run.js:117-123 | The loop over the actors gives the fold of their actions. |
| SimCommon.Context.ClearProtection | tests/single_sim_run.js:165-168 | Only the seats change, each losing its protection. |
| SimCommon.Context.SimulateNight | tests/single_sim_run.js:111-172 | The context and the flag become the night specification of the old state. |
| SimCommon.Context.NightActs | tests/single_sim_run.js:116-162 | The context becomes the poisoners', monks' and demons' actions on the old state. |
| SimCommon.Context.CountVotes | tests/single_sim_run.js:197-201 | Counts the yes ballots. |
| SimCommon.Context.Nominate | tests/single_sim_run.js:186-209 | The context becomes the nomination and vote on the old state. |
| SimCommon.Context.SimulateVoteDay | tests/single_sim_run.js:174-214 | The context and the flag become the voting day, then the win check, of the old state. |
| SimCommon.Context.SimulateRandomDay | tests/gameSimulation.test.js:183-197 | The context and the flag become the random-execution day, then the win check, of the old state. |
| SimCommon.Context.SimulateDay | tests/single_sim_run.js:174-214 | The context and the flag become the day specification of the old state. |
| SimCommon.Context.PlayRounds | tests/single_sim_run.js:221-228 | The round loop gives the game specification `Play` from round 0. |
| SimCommon.InitGame | tests/single_sim_run.js:42-84 | A fresh context holding the deal for the draws, with the preset of the drawn count. |
| SimCommon.DrawRoles | tests/single_sim_run.js:43-77 | The drawn count, its preset, and the roles in deal order. |
| SimCommon.PickRoles | tests/single_sim_run.js:70-76 | The preset's picks from each shuffled pool. |
| SimCommon.Deal | tests/single_sim_run.js:78-81 | Each blank seat `i` is bound to the `i`-th dealt role, with the drunk marked. |
| SimLemmas.EvolvesKeepsValid | tests/gameSimulation.test.js:42-52 | Later seats keep the seat list valid. |
| SimLemmas.EvolvesAlive | tests/single_sim_run.js:86 | The number of living seats never grows. |
| SimLemmas.EvolvesNoDemon | tests/single_sim_run.js:87 | With no demon or successor seated, no later state has a living demon. |
| SimLemmas.ActStepTarget | tests/single_sim_run.js:116-162 | An action that neither rests nor lacks a target marks exactly one seat that its target filter matches. A resting action, or one without a target, leaves the seats unchanged. A demon that does not rest and finds no target logs the failure. |
| SimLemmas.ActStepEvolves | tests/single_sim_run.js:116-162 | One action keeps ids, roles and allegiance, and undoes no death. |
| SimLemmas.ActFoldEvolves | tests/single_sim_run.js:116-162 | A list of actions does the same. |
| SimLemmas.ActFoldNoDeath | tests/single_sim_run.js:116-134 | Poisoning, protecting and a resting demon kill nobody. |
| SimLemmas.FirstNightNoDeath | tests/single_sim_run.js:147-154 | Under the first-night rule nobody dies on the first night. |
| SimLemmas.NightBodyEvolves | tests/single_sim_run.js:111-170 | A night evolves the seats and adds one night, keeping the day and the winner. When protection is cleared, every seat ends the night unprotected. |
| SimLemmas.NightActionsEvolve | tests/single_sim_run.js:116-162 | The night actions evolve the seats. |
| SimLemmas.NightActionsLog | tests/single_sim_run.js:113-160 | The night actions only append to the log, and leave it empty when not logging. |
| SimLemmas.WinCheckDecides | tests/single_sim_run.js:95-109 | Good wins when no demon lives (checked first). Otherwise evil wins when no good seat lives or at most two live. Otherwise nothing changes. An ending changes only the winner and, when logging, appends exactly one entry. |
| SimLemmas.VoteDayOutcome | tests/single_sim_run.js:174-214 | The day counter rises by one. With at most one seat alive the seats are unchanged. Otherwise the nominee, a living seat other than the nominator, dies exactly when the yes votes reach a strict majority of the living, and no one else dies. |
| SimLemmas.RandomDayOutcome | tests/gameSimulation.test.js:183-197 | When anyone lives, exactly one living seat dies; otherwise the seats are unchanged. |
| SimLemmas.DayBodyEvolves | tests/single_sim_run.js:174-214 | A day evolves the seats and adds one day. |
| SimLemmas.PlayEvolves | tests/single_sim_run.js:221-228 | Over any number of rounds the seats evolve. |
| SimLemmas.PlayNights | tests/single_sim_run.js:221-228 | The game adds at most one night per remaining round, and at least one when it ends. A game that does not end plays every remaining night and keeps its winner. From a state without a winner, the flag is set exactly when a winner is. |
| SimLemmas.PlayOutcome | tests/single_sim_run.js:216-234 | From valid seats and no winner: seats stay valid and evolve, the log only grows, and the flag is set exactly when good or evil won. An undecided game played every night. |
| SimLemmas.PlayLog | tests/single_sim_run.js:216-234 | A game only appends to the log, and leaves it untouched when not logging. |
| SimLemmas.PlayWinner | tests/single_sim_run.js:221-228 | A game that ended was won by good or by evil. |
| SimLemmas.NightStep | tests/single_sim_run.js:111-172 | A night followed by its win check evolves the seats and adds exactly one night. |
| SimLemmas.DayStep | tests/single_sim_run.js:174-214 | A day followed by its win check evolves the seats and keeps the night counter. |
| SimLemmas.NightFlag | tests/single_sim_run.js:170-171 | From no winner, the night's flag is set exactly when a winner was declared. |
| SimLemmas.DayFlag | tests/single_sim_run.js:211-213 | From no winner, the day's flag is set exactly when a winner was declared. |
| SimLemmas.WinCheckStep | tests/single_sim_run.js:95-109 | The win check changes only the winner and the log, appends to the log, and a verdict is good or evil. |
| SimLemmas.NoDemonGoodWinsAtOnce | tests/single_sim_run.js:95-102 | A game that starts without a demon or successor ends on the first night, won by good. |
| SingleSimRun.RoleNames | tests/single_sim_run.js:219 | One name per seat, each that seat's role name. |
| SingleSimRun.SimulateGame | tests/single_sim_run.js:216-234 | The report is the single-game specification of the catalog deal for the draws. |
| SingleSimRun.SimulateWith | tests/single_sim_run.js:216-234 | The same for any type pools shaped like the catalog's. |
| SingleSimRun.Report | tests/single_sim_run.js:218-233 | After the deal: the two opening lines, the rounds, then the timeout when no side won. |
| SingleSimRun.SingleGameWinner | tests/single_sim_run.js:229-232 | A report ends with good, evil, or the timeout. The timeout comes only after every night, and is logged last. |
| SingleSimRun.SingleGameSeats | tests/single_sim_run.js:216-234 | A report's seats stay valid and keep their roles, and no one comes back from the dead. |
| SingleSimRun.SingleGameLog | tests/single_sim_run.js:218-219 | The log opens with the player count and preset, then the role assignment. |
| SingleSimRun.SingleFirstNightSpares | tests/single_sim_run.js:147-154 | Every seat of a freshly dealt table is still alive after the first night. |
| SingleSimRun.RunOnce | tests/single_sim_run.js:236-238 | `runOnce` plays the single-game specification of the catalog deal with the round limit of 50. |
| SingleSimRun.RunOnceWinner | tests/single_sim_run.js:229-238 | The game `runOnce` reports lasts at most 50 nights; without a verdict for good or evil it is the timeout after night 50, logged last. |
| StressTest.SimulateGame | tests/stress_test.js:185-200 | Returns the stress-game specification of the catalog deal for the draws. |
| StressTest.SimulateWith | tests/stress_test.js:185-200 | The same for any type pools shaped like the catalog's. |
| StressTest.Run | tests/stress_test.js:188-199 | The round loop, then the decided game or the timeout error. |
| StressTest.StressGameOutcome | tests/stress_test.js:185-200 | A decided game has valid, evolved seats, an empty log and at least one night. Otherwise the result is the timeout error, after every night, with no winner. |
| StressTest.StressRun | tests/stress_test.js:216-217 | One game of the `runStress` loop is the stress-game specification of the catalog deal with the round limit of 100. |
| StressTest.StressRunOutcome | tests/stress_test.js:216-228 | Such a game either succeeds with a verdict for good or evil, valid seats and at most 100 nights, or fails with the timeout error after all 100 rounds. |
| GameSimulation.CheckSeats | tests/gameSimulation.test.js:42-52 | Passes exactly when every seat's id is its position, no id repeats, and every seat holds a role. |
| GameSimulation.RunRounds | tests/gameSimulation.test.js:205-214 | The round loop gives the game specification from round 0 with the 20-round limit. |
| GameSimulation.Round | tests/gameSimulation.test.js:208-213 | The flag is set exactly when a winner is. A stop ends the game. Otherwise the game goes on from the next round. |
| GameSimulation.SimulateGame | tests/gameSimulation.test.js:200-222 | The result is the simulated-game specification of the catalog deal, and the seat check passes. |
| GameSimulation.SimulateWith | tests/gameSimulation.test.js:200-222 | The same for any type pools shaped like the catalog's. |
| GameSimulation.RunGame | tests/gameSimulation.test.js:202-221 | After the deal: the opening line, the seat check (which passes), the rounds, then the timeout when no winner was set. |
| GameSimulation.GameTest | tests/gameSimulation.test.js:224-238 | The test passes for every deal and every run of draws. |
| GameSimulation.GameTestWith | tests/gameSimulation.test.js:224-238 | The same for any type pools shaped like the catalog's. |
| GameSimulation.SimGameOutcome | tests/gameSimulation.test.js:224-238 | The seats stay valid and evolve, and the winner is good, evil or the timeout. The timeout comes only after all 20 nights, and is logged last. |
| GameSimulation.SimGameLog | tests/gameSimulation.test.js:202 | The log opens with the player count. |

## Left out

- The innkeeper and `poisoner_mr` branches of the simulators' nights: no catalog role carries those ids, so the branches cannot run. The model's night has no innkeeper step.
- Seat fields that no modelled code reads: `hasGhostVote`, `statuses`, `grandchildId`, `isGrandchild`, `zombuulLives`, `isZombuulTrulyDead`, `isGoodConverted`, `voteCount`, `isCandidate`. `isFirstDeathForZombuul` and `isEvilConverted` are kept because a check reads them.
- The default round limit of 120 in the stress simulator's `simulateGame`: `runStress` always passes 100, so only that limit is modelled (`StressTest.StressRounds`).
- `dayCount` and the rest of `runStress` in `tests/stress_test.js`: its loop over 1000 games and its counters, win tallies, rates and averages, which are statistics only. One game of the loop is `StressTest.StressRun`.
- Console output, `Date.now` timings, `formatTime`, `getSeatPosition` and the colour and label maps: presentation only.
- Randomness: every `Math.random()` draw is an input. The vote probabilities (65% rising to 85%, or 50%) are not modelled; a day's votes are an arbitrary ballot function.
- The nominee rejection loop (`while target === proposer`) is modelled by its outcome: any other living seat, chosen by a draw. Its looping is not modelled.
- The script filter of `filterRoles`: no catalog role has a `script` field, so every role passes it and the pools are the `groupedRoles` groups.
- Object identity and aliasing: seats are values, and a step's update to a seat is written into the list. The source's shared seat objects across filtered lists are not modelled.
- Log lines are events (`LogEvent`) carrying the numbers they print, not the formatted text. The win check's reason text is modelled by the stage (night or day).
- SimCommon.Shuffle: its contract ties it to the shuffle function; that the result is a permutation is proved separately, by `SimCommon.ShuffledPermutes`.
- GameLogic.KillPlayer: the protector is looked up without checking whether it is alive, as in the source.
- Scenarios.MayorSurvival: the suite's check does not look for a mayor, and neither does the model.
- Scenarios.ScarletWomanSuccession: its own contract states only the length; the succession's effect is stated by `Scenarios.SuccessionKeepsOneDemon`. No lemma covers the below-five-alive case, where nothing changes.
- GameSimulation.CheckSeats: the test's `expect` failures are modelled as a `false` result, and the `typeof` and `toBeDefined` checks are implied by the types.
- The simulators' setup methods take the type pools as a parameter (`SimulateWith`, `GameTestWith`); the catalog's `groupedRoles` is passed by `SimulateGame` and `GameTest`.
- `gameLoop.test.js`, `tests/monkey_playwright.js` and `app/layout.tsx` are not part of this model.
