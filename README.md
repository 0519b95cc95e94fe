# Traffic-light Q-learning controller, modelled in Dafny

The system controls one four-way junction with tabular Q-learning, and it contains two engines.

- **The per-road engine** is spread over three files:
  - the topology table (`trafficData.ts`);
  - the discretizer and the zero-filled 162-entry Q-table (`trafficUtils.ts`);
  - the reward, the epsilon-greedy policy with its adaptive override, and the copy-on-write Q-update (`qLearningService.ts`).
- **The older aggregate engine** (`simulationService.ts`) has:
  - one vehicle count for the whole junction;
  - three phases: Green, Yellow and Red;
  - its own discretizer, reward, selection and update;
  - the pure per-tick transition `simulateStep`.

Every `Math.random()` draw is an explicit real parameter in [0, 1). Every quantity is an exact `real`.

| file | module | models |
|---|---|---|
| `wrappers.dfy` | `Wrappers` | `Option`. |
| `records.dfy` | `Records` | A JavaScript `Record<string, number>` as an ordered list of entries, so that `Object.values` can be summed. A lookup of a missing key gives `None` (`undefined`). A sum that touches a missing key gives `None` (`NaN`). |
| `qtable.dfy` | `QTable` | Q-table keys `${state}_${action}`, missing keys read as 0 (`\|\| 0`), the maximum scan, the first-maximum scan, and the update rule as a blend. |
| `traffic_data.dfy` | `TrafficData` | The eight edges and the two phases with their active roads. |
| `traffic_utils.dfy` | `TrafficUtils` | The traffic levels, the state key, and the four nested loops that build the initial table, as a method. The table is described twice: by one function per loop (`AtSouth` to `AtWest`), which the loop invariants use, and by a flat pass-by-pass function (`Table`), which the counting proofs use. `FinalTable` proves that the two agree. |
| `q_learning_service.dfy` | `QLearningService` | The per-road reward, `selectAction` and `updateQValue`. Each loop is a method proved equal to its specification function. |
| `simulation_service.dfy` | `SimulationService` | The older engine: its constants, initial table and state, and the tick as a function. It also proves an invariant that every tick preserves. |

Notes on what the code does:

- No function in `src/services` changes per-road counts. The only transition is the aggregate `simulateStep`, so no modelled operation changes `roadTraffic`.
- `simulateStep` copies `roadTraffic` and `adaptiveMode` through `...state` but never sets them, and the initial state omits both. The model keeps them as `Option` fields that stay `None` from the initial state.
- The older engine's phase constant has no `activeRoads`, although its declared type asks for them. It is modelled as written, with id, name, duration and colour.

## Model

| member | source | states |
|---|---|---|
| Records.GetFound | src/services/qLearningService.ts:20 | A lookup is defined exactly when some entry has the key, and it then returns that entry's value (an undefined read otherwise). |
| Records.Put | src/services/trafficUtils.ts:17 | Writing a key makes it read back the new value and leaves every other key's lookup unchanged. |
| Records.PutKeys | src/services/trafficUtils.ts:17 | Every key after a write is the written key or a key that was already there. |
| Records.PutDistinct | src/services/trafficUtils.ts:17 | A write never adds a second entry for a key, so an object stays an object. |
| Records.SumAtMissing | src/services/qLearningService.ts:20 | The sum over a list of road ids is undefined (NaN) exactly when one of the ids is missing from the record. |
| Records.TotalSplit | src/services/qLearningService.ts:21 | The sum of all values is one present key's value plus the sum of the rest. |
| Records.GetRemoveFirst | src/services/qLearningService.ts:21 | Removing one key does not change the lookup of any other key. |
| Records.RemoveFirstNonNegative | src/services/qLearningService.ts:21 | Removing a key keeps all values non-negative. |
| Records.TotalNonNegative | src/services/qLearningService.ts:21 | Non-negative counts have a non-negative total. |
| Records.SumAtAgree | src/services/qLearningService.ts:20 | Two records that agree on the listed ids give the same active sum. |
| Records.SumAtBounded | src/services/qLearningService.ts:20-21 | With non-negative counts and distinct ids, the active sum lies between 0 and the total. |
| QTable.Digits | src/services/qLearningService.ts:67 | The decimal rendering of an action index is non-empty, and a single digit for indices below 10. |
| QTable.ActionKeyInjective | src/services/qLearningService.ts:67 | For one-digit actions, two state-action keys are equal exactly when their states and their actions are equal. |
| QTable.ValueOr0 | src/services/qLearningService.ts:67 | A present key reads its value; a missing key reads 0. |
| QTable.ActionValues | src/services/qLearningService.ts:66-67 | One value per phase index, each the `\|\| 0` lookup of that phase's key. |
| QTable.MaxOf | src/services/qLearningService.ts:90-96 | The result is at least every element and equal to one of them. |
| QTable.FirstArgMax | src/services/qLearningService.ts:63-72 | The result indexes a maximal element, and every earlier element is strictly smaller. |
| QTable.FirstMaxUnique | src/services/qLearningService.ts:68 | At most one index is the first maximum. |
| QTable.BlendContracts | src/services/qLearningService.ts:102-103 | The update's distance to its target is the old distance times (1 - learning rate). |
| QTable.BlendBetween | src/services/qLearningService.ts:102-103 | With a learning rate in [0, 1], the new value lies between the old value and the target. |
| TrafficData.PhaseIdsAreIndices | src/services/trafficData.ts:31-46 | There are exactly two phases, and each phase's id equals its index. |
| TrafficData.PhaseRoads | src/services/trafficData.ts:37-44 | Phase 0 serves road_west and road_east; phase 1 serves road_north and road_south. |
| TrafficData.IncomingRoadIds | src/services/trafficData.ts:16-21 | The incoming roads are exactly the four roads into the centre. |
| TrafficData.OutgoingRoadIds | src/services/trafficData.ts:24-27 | The outgoing roads are exactly the four `_out` roads. |
| TrafficData.IncomingAndOutgoing | src/services/trafficData.ts:14-28 | Incoming and outgoing roads are disjoint, and together they are all the edge ids. |
| TrafficData.EdgesMeetAtCenter | src/services/trafficData.ts:16-27 | Every incoming edge ends at the centre; every outgoing edge starts there. |
| TrafficData.PhasesPartitionIncoming | src/services/trafficData.ts:37-44 | The two phases' active-road sets are disjoint, and together they are exactly the incoming roads. |
| TrafficData.ActiveRoadsAreIncomingEdges | src/services/trafficData.ts:14-44 | Every active road names an edge, and no active road is an `_out` road. |
| TrafficData.ActiveRoadsDistinct | src/services/trafficData.ts:37-44 | No phase lists a road twice. |
| TrafficUtils.DetermineTrafficLevel | src/services/trafficUtils.ts:7-11 | Low exactly below 3, medium exactly in [3, 7), high exactly from 7; the level's rank counts the thresholds reached. |
| TrafficUtils.LevelMonotone | src/services/trafficUtils.ts:7-11 | A larger count never gets a lower level. |
| TrafficUtils.LevelOf | src/services/trafficUtils.ts:7-17 | A missing road (`undefined`) reads as high, because both comparisons with `undefined` are false; a present count gets its level by the three thresholds. |
| TrafficUtils.CreateStateKey | src/services/trafficUtils.ts:16-18 | Whatever the record holds, the key's "_0" and "_1" action keys are both in the initial table. |
| TrafficUtils.KeyRoadsAreIncoming | src/services/trafficUtils.ts:17 | The four roads the key reads are exactly the incoming roads. |
| TrafficUtils.StateKeyReadsIncomingOnly | src/services/trafficUtils.ts:16-18 | Records that agree on the four incoming roads give the same key. |
| TrafficUtils.StateKeyIgnoresOtherRoads | src/services/trafficUtils.ts:17 | Writing any other entry, such as an `_out` road, leaves the key unchanged. |
| TrafficUtils.NoSeparatorInLevelName | src/services/trafficUtils.ts:8-10 | No level word contains "_". |
| TrafficUtils.FirstSeparator | src/services/trafficUtils.ts:17 | The position of the first "_" is within the string. |
| TrafficUtils.FirstSeparatorAfterWord | src/services/trafficUtils.ts:17 | After a word without "_", the first separator is right after that word. |
| TrafficUtils.SeparatorSplit | src/services/trafficUtils.ts:17 | A word without "_", then "_", then a rest: this split is unique. |
| TrafficUtils.JoinInjective | src/services/trafficUtils.ts:17 | Four words joined by "_", the first three free of "_", determine each word. |
| TrafficUtils.LevelNameInjective | src/services/trafficUtils.ts:8-10 | Different levels have different names. |
| TrafficUtils.StateNameInjective | src/services/trafficUtils.ts:17 | Two state strings are equal exactly when all four levels are equal. |
| TrafficUtils.StateKeyEqualIffLevelsEqual | src/services/trafficUtils.ts:16-18 | Two traffic records give the same key exactly when their four west/east/north/south levels are equal. |
| TrafficUtils.LevelAt | src/services/trafficUtils.ts:23 | The i-th entry of the level list is the level of rank i. |
| TrafficUtils.TableZero | src/services/trafficUtils.ts:26-37 | After any number of loop passes, every value in the table is 0. |
| TrafficUtils.StateTextIsStateOf | src/services/trafficUtils.ts:30-33 | The string the loop body builds from the counters w, e, n, s, with "_0" or "_1" appended, is the key of phase 0 or 1 of the state whose levels have ranks w, e, n, s, in that order. |
| TrafficUtils.CountersUnique | src/services/trafficUtils.ts:26-29 | Loop counters below 3 are determined by their pass number 27w + 9e + 3n + s. |
| TrafficUtils.StateOfInjective | src/services/trafficUtils.ts:26-30 | Different loop counters build different state strings. |
| TrafficUtils.KeyNotBelow | src/services/trafficUtils.ts:32-33 | With keys that never collide, a key of a later pass is not yet in the table. |
| TrafficUtils.KeyBelow | src/services/trafficUtils.ts:32-33 | A key of an earlier iteration stays in the table. |
| TrafficUtils.KeysOfTable | src/services/trafficUtils.ts:32-33 | Every key of the table is some earlier state with phase 0 or 1. |
| TrafficUtils.FinalTable | src/services/trafficUtils.ts:26-39 | Once all four loops have finished, the table they built is the table of all 81 passes. |
| TrafficUtils.TableSize | src/services/trafficUtils.ts:26-37 | When the keys of different passes and phases never collide, the table after j passes has 2j keys. |
| TrafficUtils.CountersOf | src/services/trafficUtils.ts:26-30 | Every combination of four levels is the state of some pass within the loop bounds. |
| TrafficUtils.InitialQValuesShape | src/services/trafficUtils.ts:21-40 | The initial table has 162 keys, all 0: every four-level state with phase 0 and 1, and nothing else. |
| TrafficUtils.InitialQValuesCoverEveryState | src/services/trafficUtils.ts:17-33 | For any traffic record, `createStateKey(rt) + "_0"` and `createStateKey(rt) + "_1"` are both in the initial table. |
| TrafficUtils.SuffixIsActionKey | src/services/trafficUtils.ts:32-33 | The literal suffixes "_0" and "_1" are the action keys of phases 0 and 1. |
| TrafficUtils.SouthAgrees | src/services/trafficUtils.ts:29-33 | Inside the innermost loop, the table built so far is the table of every earlier pass, each pass adding its state's "_0" and "_1" keys with 0. |
| TrafficUtils.PassKeyInjective | src/services/trafficUtils.ts:30-33 | The keys the loop body writes never collide: different passes or different phases give different keys. |
| TrafficUtils.CreateInitialQValues | src/services/trafficUtils.ts:21-40 | The four nested loops build exactly the initial table. |
| QLearningService.TrafficEfficiency | src/services/qLearningService.ts:17-24 | Efficiency is NaN exactly when traffic exists and an active road is missing. It is 0 when the total is not positive; otherwise efficiency times total equals the active sum. |
| QLearningService.CalculateReward | src/services/qLearningService.ts:10-31 | The reward is NaN exactly when the efficiency is. |
| QLearningService.EfficiencyBounds | src/services/qLearningService.ts:20-24 | With non-negative counts, a defined efficiency lies in [0, 1]. |
| QLearningService.RewardBounds | src/services/qLearningService.ts:28 | A defined reward lies in [-w + 2s, -w + 2s + 10]. |
| QLearningService.RewardDefinedWhenServedRoadsPresent | src/services/qLearningService.ts:17-24 | If the phase's active roads are all present, the reward is a number. |
| QLearningService.RewardDecreasesWithWaiting | src/services/qLearningService.ts:28 | With traffic and phase fixed, more waiting gives a strictly smaller reward. |
| QLearningService.RewardIncreasesWithSpeed | src/services/qLearningService.ts:28 | With traffic and phase fixed, more speed gives a strictly larger reward. |
| QLearningService.DirectionTraffic | src/services/qLearningService.ts:51-52 | A direction's traffic is a number exactly when both of its roads are present. |
| QLearningService.EastWestHeavier | src/services/qLearningService.ts:50-55 | East-west is heavier exactly when all four roads are present and west + east > north + south; a comparison with NaN is false. |
| QLearningService.ChooseAction | src/services/qLearningService.ts:37-75 | Always a valid phase. Exploring gives floor(pick * 2). In adaptive mode it is 0 exactly when east-west is strictly heavier. Otherwise it is the first phase of maximal Q-value. |
| QLearningService.ExplorationInterval | src/services/qLearningService.ts:45-47 | Exploring picks phase k exactly when the second draw lies in [k/2, (k+1)/2). |
| QLearningService.AdaptiveChoice | src/services/qLearningService.ts:50-59 | With the four roads present, adaptive mode picks 0 exactly when west+east > north+south; ties go to 1. |
| QLearningService.ExploitationPicksStrictBest | src/services/qLearningService.ts:63-74 | A phase whose value beats every other phase's is chosen. |
| QLearningService.SelectAction | src/services/qLearningService.ts:37-75 | The loop method returns exactly the action the specification chooses. |
| QLearningService.MaxNextQ | src/services/qLearningService.ts:90-96 | The maximum over both phases of the next state's values, missing keys counting 0. |
| QLearningService.UpdatedQValues | src/services/qLearningService.ts:99-105 | The key set grows by at most the updated key, and every other key keeps its value. |
| QLearningService.UpdateRule | src/services/qLearningService.ts:99-103 | The new value is old + rate * (reward + discount * maxNextQ - old), with a missing old value counting 0. |
| QLearningService.UpdateRateExtremes | src/services/qLearningService.ts:102-103 | Rate 0 keeps the old value; rate 1 sets it to reward + discount * maxNextQ. |
| QLearningService.UpdateMovesTowardTarget | src/services/qLearningService.ts:102-103 | With a rate in [0, 1], the new value lies between the old value and the target. |
| QLearningService.UpdateExample | src/services/qLearningService.ts:99-103 | On an empty table, reward 5, rate 0.1 and discount 0.9 give 0.5. |
| QLearningService.UpdateQValue | src/services/qLearningService.ts:80-106 | The loop method returns exactly the specified updated table. |
| SimulationService.Built | src/services/simulationService.ts:17-21 | Every value the nested loops have written so far is 0. |
| SimulationService.KeyOfInjective | src/services/simulationService.ts:13-19 | Different iterations of the nested loops write different keys. |
| SimulationService.KeyNotBelow | src/services/simulationService.ts:17-21 | A key of a later iteration is not yet in the table. |
| SimulationService.KeyBelow | src/services/simulationService.ts:17-21 | A key of an earlier iteration stays in the table. |
| SimulationService.KeysOfTable | src/services/simulationService.ts:17-21 | Every key is written by some earlier iteration. |
| SimulationService.TableSize | src/services/simulationService.ts:17-21 | After j iterations the table has j keys. |
| SimulationService.InitialKeyPresent | src/services/simulationService.ts:13-19 | Every state with every action 0..2 is a key of the initial table. |
| SimulationService.InitialKeyKnown | src/services/simulationService.ts:13-19 | Every key of the initial table is a state with an action 0..2. |
| SimulationService.InitialQValuesShape | src/services/simulationService.ts:11-21 | The initial table has exactly the 9 state-action keys, all 0. |

| SimulationService.BuildInitialQValues | src/services/simulationService.ts:16-21 | The nested forEach loops build exactly that table. |
| SimulationService.InitialSimulationState | src/services/simulationService.ts:23-36 | The initial state has step 0, phase 0, count 0, reward 0, and 9 Q-values that are all 0. |
| SimulationService.InitialStateFacts | src/services/simulationService.ts:23-36 | The initial state has step 0, phase 0, count 0 and 9 zero Q-values, and it satisfies the invariant. |
| SimulationService.DetermineTrafficState | src/services/simulationService.ts:41-45 | "low_traffic" exactly below 5, "medium_traffic" exactly in [5, 15), "high_traffic" exactly from 15. |
| SimulationService.RewardMonotone | src/services/simulationService.ts:50-53 | More waiting strictly lowers the reward; more speed strictly raises it. |
| SimulationService.CalculateReward | src/services/simulationService.ts:50-53 | With a non-negative waiting time and a speed in [0, 13.9], the reward lies in [-w, 27.8]. |
| SimulationService.ChooseAction | src/services/simulationService.ts:58-81 | Always one of the actions 0..2. Not exploring, it is the first action of maximal value. |
| SimulationService.ExplorationInterval | src/services/simulationService.ts:64-66 | Exploring picks action k exactly when the second draw lies in [k/3, (k+1)/3). |
| SimulationService.ExploitationChoosesFirstMaximum | src/services/simulationService.ts:69-80 | Not exploring, the chosen action's value is at least every action's, and strictly above every earlier action's. |
| SimulationService.SelectAction | src/services/simulationService.ts:58-81 | The loop method returns exactly the specified action. |
| SimulationService.MaxNextQ | src/services/simulationService.ts:96-100 | The maximum over the three actions' values of the next state. |
| SimulationService.UpdatedQValues | src/services/simulationService.ts:103-108 | The key set is unchanged, and every key other than state_action keeps its value. |
| SimulationService.UpdateRule | src/services/simulationService.ts:103-106 | The new value follows the Q-learning formula. |
| SimulationService.UpdateWithTarget | src/services/simulationService.ts:103-106 | The updated table is the old one with only the key of the state and action set to `Blend(old, target, rate)`, where target = reward + discount * maxNextQ. |
| SimulationService.UpdateQValue | src/services/simulationService.ts:86-109 | The loop method returns exactly the specified updated table. |
| SimulationService.NextVehicleCount | src/services/simulationService.ts:119-124 | The new count is never negative; it is 0 or the old count plus the arrival minus the departure. |
| SimulationService.NextWaitingTime | src/services/simulationService.ts:127-129 | Outside red the waiting time never grows and is never negative; in red it grows by 0 or 0.5. |
| SimulationService.NextSpeed | src/services/simulationService.ts:131-133 | In green the speed is at most 13.9 and rises by 0.2 below the cap; in the other phases it never rises and is never negative. |
| SimulationService.VehicleCountStep | src/services/simulationService.ts:119-124 | From a non-negative count the new count is non-negative and differs by at most one. |
| SimulationService.WaitingTimeStep | src/services/simulationService.ts:127-129 | Red adds 0.5 when vehicles remain and nothing otherwise. Green subtracts 0.3, floored at 0. Yellow keeps the value. The time stays non-negative. |
| SimulationService.SpeedStep | src/services/simulationService.ts:131-133 | Green gives min(13.9, s + 0.2), red max(0, s - 0.5), yellow max(0, s - 0.1); the speed stays in [0, 13.9]. |
| SimulationService.SimulateStep | src/services/simulationService.ts:114-168 | Step + 1; a valid phase; reward = -w' + 2s'; the new count, waiting time and speed are the per-tick rules applied to the old state; the Q key set unchanged; the learning parameters copied from the settings; the other fields carried over. |
| SimulationService.StepChoosesFromOldTable | src/services/simulationService.ts:136-142 | The next phase is chosen for the new traffic state from the Q-table before the update. |
| SimulationService.StepUpdatesOneKey | src/services/simulationService.ts:145-153 | The new table is exactly the update `updateQValue` makes for the tick's traffic state and the phase that was active, with the tick's reward and that same traffic state as the next state. Every other key keeps its value. With `UpdateWithTarget`, the rewritten value is old + rate * (target - old), where target = reward + discount * the best value of the same traffic state's actions. |
| SimulationService.StepMetrics | src/services/simulationService.ts:119-133 | On the tick's result, from a state within the bounds, the count stays non-negative and moves by at most one, the waiting time stays non-negative and the speed stays in [0, 13.9]. |
| SimulationService.InvariantMakesStepDefined | src/services/simulationService.ts:136-153 | Under the invariant, every key the tick reads is present. |
| SimulationService.StepPreservesInvariant | src/services/simulationService.ts:114-168 | A tick preserves the invariant: the exact 9 initial keys, a valid phase, a non-negative count and waiting time, and a speed in [0, 13.9]. |
| SimulationService.Run | src/services/simulationService.ts:114-168 | Any number of ticks keeps the invariant and advances the step by the number of ticks. |

## Left out

- Vehicle generation for drawing is not modelled: `generateVehicles` in `simulationService.ts:173-206` and `vehicleService.ts`. It only produces random positions and speeds for display.
- The React hook in `useSimulation.ts` is not modelled: its timer, its React state and its `maxSteps` stop check. `SimulationService.Run` only applies the tick once per draw record and never stops early.
- All UI components and pages are not modelled: canvas drawing, charts and sliders.
- The node coordinates of the topology and `nodeTrafficState` are not modelled. No modelled operation reads them.
- IEEE-754 behaviour is not modelled.
  - `-Infinity` seeds are replaced by folding from the first phase, which exists in both engines.
  - `NaN` is `None`, and `|| 0` is a missing key read as 0.
  - Float rounding is not modelled; values are exact reals.
- QLearningService.TrafficEfficiency: requires a valid phase index. The source throws a TypeError for any other index, and this model has no exception path.
- SimulationService.ChooseAction: requires the state's three action keys to be present. The source compares `undefined`, which is always false. Every state reached from the initial state has those keys (`SimulationService.InvariantMakesStepDefined`).
- SimulationService.UpdatedQValues: requires the updated key and the next state's keys to be present. In the source a missing key gives `NaN`. This holds under the same invariant.
- SimulationService.SimulateStep: requires the keys it reads to be present, which the invariant guarantees. The phase is a `nat`, not any JavaScript number.
- `SimulationState` omits `nodeTrafficState`: no modelled code reads or writes it.
- `createStateKey` is imported from `simulationService` by `QlearningInfo.tsx`, which does not export it. That component is not part of this model, and the model's `TrafficUtils.CreateStateKey` is the function from `trafficUtils.ts`.
