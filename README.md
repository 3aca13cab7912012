# Value stream simulator — a Dafny model

This project models the core of a value-stream simulator written as a
React application. Work items enter a Backlog and flow through Change
Definition (analysis), Development, Testing and Deployment into
Production. On every animation tick the engine spawns items, moves each
item through its per-stage state machine (queued, waiting, processing,
transferring, returning), applies the capacity, batch, silo, manual and
scheduled-deploy gates that the problem toggles switch on, records stage
exits and completions, evicts old finished items, and computes work in
progress, throughput, cycle time and per-stage averages. A settings form
edits the actor counts and hour ranges of the working stages. A second
screen compares asynchronous code review with pair programming. It draws
a team from a seeded Lehmer generator, lays out each developer's and each
pair's sprint timeline, and animates it.

The model is split by concern:

- `stages.dfy` (module `Stages`) holds the stage configuration, the
  copy of it the engine runs on, stage updates, the problem toggles and
  the deployment countdown.
- `flow.dfy` (module `Flow`) holds work items, counting filters, the
  timing targets and gates, and the per-item step relation with one
  transition function per state. It also holds the completion ring,
  eviction and the metrics.
- `engine.dfy` (module `Engine`) holds the mutable simulation state as a
  class with in-place methods. `Tick` is one call of `updateSimulation`.
  The module also holds the load snapshot and the per-stage counts.
- `settings.dfy` (module `Settings`) holds the settings form:
  `parseInt`/`parseFloat`, range repair, actor parsing and which stages
  are editable.
- `sprint.dfy` (module `Sprint`) holds the code-review comparison: the
  generator, the team, pairing, the feature loop and its timeline, the
  range sliders and the animation.

Randomness and the clock are parameters. `Math.random()` is an oracle
`rand: nat -> real`, indexed by a per-tick draw counter. Whether a moving
item has reached its target is an oracle `arrived: nat -> bool`, indexed
by item position. `Date.now()` is the `now` argument. The deployment
countdown and the schedule are arguments, as in the source's `tick`.

Three facts about the source, as written, are proved rather than assumed:

- A bug item is never cleared. Every arrival at Deployment sends it back
  to Development, so it never reaches Production (`Flow.BugNeverCompletes`).
- A Deployment item that was given the unbounded wait target while
  infrequent deploys were on never starts once they are switched off.
  Its wait gate then compares the ticks waited against an infinite
  target (`Flow.ForeverTargetStuck`).
- The deployment countdown runs with period n + 1. Exactly one pass in
  each period sees a value at or below zero (`Stages.CountdownPeriodic`,
  `Stages.ReleasePassOncePerPeriod`).

## Model

| member | source | states |
|---|---|---|
| Stages.StageIds | src/App.jsx:21-28 | In a configured pipeline, the ids dev, test, deploy and done, the sink kind and the queue kind each name exactly one position. |
| Stages.IdsDistinct | src/App.jsx:21-28 | No two positions of a configured pipeline share an id. |
| Stages.JsonCopyActors | src/App.jsx:241 | The JSON deep copy turns `Infinity` actors into null. It keeps every finite positive capacity, so it never changes whether a capacity gate applies. |
| Stages.FindIndex | src/App.jsx:242 | `find` by id returns the first stage with that id, or nothing when none has it. |
| Stages.DynamicStages | src/App.jsx:240-251 | The engine's copy keeps every stage's id, kind, name and ranges. Every stage but Testing keeps its capacity gate. Testing gets one actor under manual testing and no limit otherwise. |
| Stages.DynamicStagesWellFormed | src/App.jsx:240-251 | The engine's copy of a configured pipeline is itself a configured pipeline. |
| Stages.HandleUpdateStage | src/App.jsx:253-255 | Every stage with the id is replaced by the update. Every other stage is kept. |
| Stages.UpdateKeepsWellFormed | src/App.jsx:253-255 | An update that keeps the id and kind keeps the pipeline configured, and the update lands at the id's position. |
| Stages.ToggleProblem | src/App.jsx:257-259 | Toggling flips exactly one flag; a missing flag counts as off. |
| Stages.ToggleTwice | src/App.jsx:257-259 | Toggling the same problem twice restores every flag. |
| Stages.NextCountdown | src/App.jsx:614-623 | With infrequent deploys on, a positive countdown drops by one and one at or below zero re-arms to the schedule in ticks. With them off it is unchanged. |
| Stages.CountdownPeriodic | src/App.jsx:611-623 | Starting from n ticks, the k-th pass sees n - (k mod (n + 1)). |
| Stages.ReleasePassOncePerPeriod | src/App.jsx:611-623 | A pass sees a countdown at or below zero exactly when k mod (n + 1) = n, once per period. |
| Stages.ResetCountdown | src/App.jsx:269 | The reset countdown times the hours per tick is the schedule. |
| Stages.OnInfrequentDeployChange | src/App.jsx:633-637 | Switching infrequent deploys on changes only a countdown sitting at zero, and re-arms it to the schedule. |
| Flow.NewItem | src/App.jsx:283-300 | A spawned item is queued in the Backlog at `now`, with no flags, zero counters and zero progress. |
| Flow.SpawnInterval | src/App.jsx:279-282 | The spawn interval is 1800 ms, or 3000 ms once more than 30 items are before the last stage. |
| Flow.WaitBounds | src/App.jsx:363-370 | Under manual testing the Testing wait range is raised to at least 8 hours and stays ordered. Otherwise it is the configured range. |
| Flow.WaitTargetFor | src/App.jsx:358-376 | The wait target is unbounded exactly for Deployment under infrequent deploys. A drawn target is at least one tick and lies between the range's bounds in ticks, and is at least 16 ticks for manual Testing. With no range it is 0. |
| Flow.ProcessTargetFor | src/App.jsx:476-483 | The process target is at least one tick and lies between the range's bounds in ticks. It is 2 ticks when the stage has no range. |
| Flow.DrawTicks | src/App.jsx:372-373 | A duration drawn from an hour range is at least one tick and lies between the bounds converted to ticks. |
| Flow.ProgressIncrement | src/App.jsx:381-382 | The increment is positive. With a positive target, target-many increments make 100. |
| Flow.SpeedMultiplier | src/App.jsx:384-392 | The slow-down lies in (0, 1], and it is exactly 1 when none of manual testing, manual deploy or context switching is on. |
| Flow.UpdateKeepsCapacity | src/App.jsx:334-348 | Replacing one record keeps every stage within its actor limit, provided a record newly processing passed its stage's capacity gate. |
| Flow.QueuedStep | src/App.jsx:331-377 | A queued item's transition is a legal step. It starts transferring exactly from a queue stage whose gate allows it, and it never starts processing. |
| Flow.WaitingStep | src/App.jsx:415-485 | A waiting item's transition is a legal step. It starts processing exactly when the gates allow and it is not in the sink, and it takes the batch flag given. |
| Flow.ProcessingStep | src/App.jsx:378-414 | A processing item's transition is a legal step. In the sink it stays at 100. Elsewhere it gains progress below 100, starts transferring with progress reset, or, in Development under unclear requirements, returns to Analysis. |
| Flow.ProcessingProgress | src/App.jsx:378-414 | Outside the sink, unless it starts returning, an item starts transferring exactly when the progress reached is 100 or more. While it keeps processing it holds the progress reached. |
| Flow.TransferStep | src/App.jsx:486-529 | A transfer is a legal step. The item advances one stage exactly on arrival, that is exactly when it leaves its stage, and it is processing afterwards only in Production. |
| Flow.ReturnStep | src/App.jsx:530-542 | A return is a legal step. The item is queued again exactly on arrival, at an earlier stage. |
| Flow.ForeverTargetStuck | src/App.jsx:358-360 | A Deployment item that got the unbounded wait target while infrequent deploys were on stays waiting, with that target, through every later step while they are off: the gate at lines 428-430 compares against an infinite target. |
| Flow.StepIgnoresBatch | src/App.jsx:459-464 | The step relation does not depend on the batch flag, the one field the batch rule writes on other items. |
| Flow.StepKeepsItemOk | src/App.jsx:317-548 | Every legal step keeps an item inside the pipeline, keeps rework pointing backwards, keeps progress within 0..100 while processing and parks Production items as processing. |
| Flow.BugNeverCompletes | src/App.jsx:507-520 | A bug item stays before Deployment or is returning from it. It never reaches Production. |
| Flow.NoReworkWithoutProblems | src/App.jsx:396-403 | Without quality issues and unclear requirements, an item that is neither a bug nor unclear never starts returning and never becomes either. |
| Flow.KeepLast | src/App.jsx:523-524 | The completion ring holds at most 50 entries: all of them when there are few, else the last 50. |
| Flow.PushKeepsLast | src/App.jsx:523-524 | A push followed by a shift when over 50 keeps exactly the last 50 completions. |
| Flow.OldestAt | src/App.jsx:553 | The chosen item is in the stage and no item there is older. It is the first of the oldest, since the sort is stable. None is chosen only when the stage is empty. |
| Flow.Evict | src/App.jsx:550-556 | With more than 80 items and more than 20 in Production, exactly the oldest Production item is removed. Otherwise nothing is. |
| Flow.EvictionCounts | src/App.jsx:550-556 | Eviction removes one Production item and leaves work in progress unchanged. It never raises any count. |
| Flow.InitialHistory | src/App.jsx:236 | The history has a zeroed entry for every stage id and nothing else. |
| Flow.RecentCompletions | src/App.jsx:562-564 | At most as many recent completions as there are entries in the ring. All of them when every entry is less than 5000 ms old, none when every entry is at least that old. |
| Flow.RecentIsWindow | src/App.jsx:562-564 | The recent count is exactly the number of ring entries t with now - t < 5000. |
| Flow.CycleTime | src/App.jsx:565-567 | The cycle time is non-negative, 0 without recent completions, and otherwise satisfies Little's law: cycle time times completions = 5 times WIP. |
| Flow.CycleTimeScales | src/App.jsx:565-567 | At a fixed completion rate, cycle time is linear in WIP. |
| Flow.Average | src/App.jsx:569-576 | The averages are 0 before any exit. After that, average times count equals the total. |
| Flow.PopulationSplit | src/App.jsx:558-561 | Work in progress plus the Production count is the whole population. |
| Flow.StageMetrics | src/App.jsx:569-576 | There is one average per history key. |
| Engine.LoadSnapshot | src/App.jsx:310-315 | The load map has an entry exactly for the stages with non-returning items, holding how many there are. |
| Engine.StageStats | src/App.jsx:587-600 | The counts have an entry exactly for the stages holding items, with their queued, processing and waiting counts, and no other keys. |
| Engine.Simulation.constructor | src/App.jsx:231-238 | The simulation starts empty, with a zeroed history per stage. |
| Engine.Simulation.Reset | src/App.jsx:261-273 | Reset empties items and completions, zeroes the history and the headline metrics, clears the per-stage metrics, and re-arms the countdown to the schedule. |
| Engine.Simulation.StepQueued | src/App.jsx:331-377 | The queue gate lets an item into a capacity-limited next stage only below its actor limit. The item's step is legal, and only that item changes. |
| Engine.Simulation.StartGate | src/App.jsx:419-471 | Processing starts only when the wait has cleared and, outside the sink, the stage has a free actor. With silos, large batches and manual deploy off, it starts exactly then. Under large batches an ordinary item with fewer than five batch peers is held. Other items change at most in their batch flag, and no processing count changes. |
| Engine.Simulation.ReleaseBatch | src/App.jsx:461 | Releasing a batch clears the batch flag of exactly the waiting peers and changes no processing count. |
| Engine.Simulation.StepWaiting | src/App.jsx:415-485 | A waiting item's step is legal and keeps every stage within capacity. Other items change at most in their batch flag. |
| Engine.Simulation.StepProcessing | src/App.jsx:378-414 | A processing item's step is legal, uses the load snapshot for context switching, and changes only that item. Outside the sink it moves on exactly when the progress reached is 100 or more, and otherwise holds that progress. |
| Engine.Simulation.RecordExit | src/App.jsx:495-525 | The stage left gains the item's tick counters when it has a history entry. An arrival in Done pushes `now` onto the ring, keeping the last 50. Nothing else changes. |
| Engine.Simulation.StepTransferring | src/App.jsx:486-529 | An arriving item adds its counters to its old stage's history. Arriving in Production pushes `now` onto the ring of 50. Only that item changes. |
| Engine.Simulation.StepReturning | src/App.jsx:530-542 | A returning item is queued again at its return stage exactly on arrival. |
| Engine.Simulation.StepItem | src/App.jsx:317-548 | One item's update is a legal step and keeps capacities. Other items change at most in their batch flag. History and ring change exactly by its exit. |
| Engine.Simulation.Spawn | src/App.jsx:278-302 | An item is appended exactly when the spawn interval has passed since the last spawn, and then the last-spawn time is `now`. |
| Engine.Simulation.Pass | src/App.jsx:317-548 | Each item takes a legal step and capacities are kept. Each stage's history grows by exactly its exits. The ring is the last 50 of the old ring plus one entry per arrival in Production. |
| Engine.Simulation.EvictOldest | src/App.jsx:550-556 | The item list becomes its eviction and no processing count grows. |
| Engine.Simulation.Tick | src/App.jsx:275-585 | One tick spawns when due, steps every item legally within capacity, adds exits to history and Production arrivals to the ring, evicts, and reports the metrics of the new state. |
| Settings.ParseIntStops | src/components/SettingsMenu.jsx:30 | `parseInt` reads a run of digits up to the first non-digit. |
| Settings.ParseIntNegative | src/components/SettingsMenu.jsx:30 | A minus sign followed by digits reads as the negated value of the digits. |
| Settings.ParseIntRoundTrip | src/components/SettingsMenu.jsx:30 | Writing an integer in decimal and reading it back with `parseInt` gives the integer. |
| Settings.ParseFloatOfNat | src/components/SettingsMenu.jsx:11 | Reading a whole number with `parseFloat` gives that number. |
| Settings.NoDigitsReadsZero | src/components/SettingsMenu.jsx:11 | Text without digits reads as 0 in every field: NaN becomes 0. |
| Settings.SetMin | src/components/SettingsMenu.jsx:16-17 | A new minimum is taken as typed. The maximum is kept when the new minimum does not pass it, and otherwise is raised to the new minimum, so the range stays ordered. |
| Settings.SetMax | src/components/SettingsMenu.jsx:18-19 | A new maximum is taken as typed. The minimum is kept when the new maximum does not pass it, and otherwise is lowered to the new maximum, so the range stays ordered. |
| Settings.ParseActors | src/components/SettingsMenu.jsx:30 | The actor count is unlimited exactly for the text 'Infinity'. Otherwise it is the `parseInt` reading, with NaN as 0. |
| Settings.ActorsInput | src/components/SettingsMenu.jsx:57 | An empty actors box means unlimited, like the text 'Infinity'. |
| Settings.HandleInputChange | src/components/SettingsMenu.jsx:4-35 | An edit returns nothing exactly when no stage has the id. Otherwise it changes the first such stage. It keeps the id, name and kind, and every field outside the edited range. The actor count is read from the text. A range bound is set through SetMin or SetMax from the parsed number, which also repairs the other bound of that range when the range would come out inverted. |
| Settings.EditKeepsWellFormed | src/components/SettingsMenu.jsx:33 | Handing an edit to the stage update keeps the pipeline configured and changes only the edited stage. |
| Settings.EditableMembers | src/components/SettingsMenu.jsx:45 | The form offers every working stage and nothing else. |
| Settings.EditableInPipeline | src/components/SettingsMenu.jsx:45 | On a configured pipeline the form offers exactly analysis, development, testing and deployment, in order. |
| Sprint.Random | src/components/CodeReviewSimulator.jsx:328-331 | Each draw lies in [0, 1) and leaves a valid seed behind. |
| Sprint.NextSeedValid | src/components/CodeReviewSimulator.jsx:329 | The Lehmer step never takes a valid seed to 0, because the modulus does not divide 7^5 times a smaller seed. |
| Sprint.RandRangeWithin | src/components/CodeReviewSimulator.jsx:332 | `randRange` lands between its two bounds, in whichever order they are given. |
| Sprint.MemberFor | src/components/CodeReviewSimulator.jsx:336-339 | A draw below 0.2 gives a junior and one at or above 0.8 a senior; anything else gives a mid. Each member's efficiency is its role's. |
| Sprint.TeamAfter | src/components/CodeReviewSimulator.jsx:334-340 | Drawing n members gives exactly n members with role efficiencies and leaves a valid seed. |
| Sprint.BuildTeam | src/components/CodeReviewSimulator.jsx:334-340 | The construction loop builds exactly the drawn team of `teamSize` members. |
| Sprint.StatsCoverTeam | src/components/CodeReviewSimulator.jsx:596-600 | Juniors, mids and seniors add up to the team size. |
| Sprint.StreamCount | src/components/CodeReviewSimulator.jsx:593 | The stream count c is half the team rounded up: teamSize <= 2c <= teamSize + 1. |
| Sprint.PairEfficiencies | src/components/CodeReviewSimulator.jsx:530-536 | The pairing loop makes one pair per stream: members 2j and 2j+1, or 2j alone at the end. |
| Sprint.PairEffBetween | src/components/CodeReviewSimulator.jsx:532-534 | A pair's efficiency lies between its members'. The odd member out keeps its own. |
| Sprint.Emit | src/components/CodeReviewSimulator.jsx:398-405 | A segment is pushed exactly when the gate clock is inside the sprint. It has the given kind and lane and runs from the start to the end, each cut at the sprint's end. Earlier segments are kept, and the timeline stays ordered and in bounds. |
| Sprint.ReworkRound | src/components/CodeReviewSimulator.jsx:438-477 | A rework round advances the clock by two waits, the rework and a review, and keeps the timeline in bounds. |
| Sprint.RetryRound | src/components/CodeReviewSimulator.jsx:435-480 | One retry advances the clock by two waits, the rework and a review. The failure is complex exactly when the draw is below the complex-failure rate, and a simple failure passes. |
| Sprint.ReviewRounds | src/components/CodeReviewSimulator.jsx:431-481 | There are at most 3 rework rounds, and none exactly when the first check passes. It ends passed or after 3. All rounds but the last were complex failures, and a non-complex failure passes. |
| Sprint.HandOff | src/components/CodeReviewSimulator.jsx:399-429 | The work, the handoff wait and the first review move the clock forward by exactly their sum, with non-negative drawn times, and keep the timeline in bounds. |
| Sprint.AsyncChunk | src/components/CodeReviewSimulator.jsx:398-481 | A chunk's work, handoff wait, review and rework move the clock forward by at least the work, and keep the timeline in bounds. |
| Sprint.AsyncChunks | src/components/CodeReviewSimulator.jsx:395-482 | An asynchronous feature's chunks keep the timeline in bounds and never move the clock back. |
| Sprint.ChunkTime | src/components/CodeReviewSimulator.jsx:396 | Each of the chunks takes an equal share: the share times the number of chunks is the work. |
| Sprint.PairChunk | src/components/CodeReviewSimulator.jsx:371-386 | A pair chunk pushes both the pairing and the CI segment exactly when the chunk starts inside the sprint, and nothing otherwise. Pairing runs from the clock for the chunk's time, then CI for a quarter hour, each cut at the sprint's end. |
| Sprint.PairFeature | src/components/CodeReviewSimulator.jsx:367-387 | Each pair chunk adds its share of the work plus a quarter hour of CI, and the timeline stays in bounds. |
| Sprint.Feature | src/components/CodeReviewSimulator.jsx:358-509 | One feature, paired or asynchronous, keeps the timeline in bounds and moves the clock forward by at least its half-hour gap. |
| Sprint.RunSimulation | src/components/CodeReviewSimulator.jsx:342-511 | The loop ends past the three-sprint horizon. Every segment lies within the sprint and starts in order. At least one feature is done exactly when the horizon is positive. |
| Sprint.CompareModes | src/components/CodeReviewSimulator.jsx:326-600 | There are `teamSize` asynchronous runs and ceil(teamSize/2) paired runs, all timelines within the sprint, and the role counts sum to the team size. |
| Sprint.SliderMin | src/components/CodeReviewSimulator.jsx:83-87 | A new minimum is clamped to the maximum, taken as dragged when it does not pass it, and the range stays ordered. |
| Sprint.SliderMax | src/components/CodeReviewSimulator.jsx:89-93 | A new maximum is clamped to the minimum, taken as dragged when it does not pass it, and the range stays ordered. |
| Sprint.DragsKeepOrder | src/components/CodeReviewSimulator.jsx:83-93 | After any sequence of drags an ordered range stays ordered, and any drag at all leaves it ordered. |
| Sprint.AnimationStep | src/components/CodeReviewSimulator.jsx:631-639 | A frame advances by a three-hundredth of the sprint while below its end. At the end it stops there and playback ends. |
| Sprint.PlayFrom | src/components/CodeReviewSimulator.jsx:631-639 | From frame k, playback runs for exactly the remaining frames and ends at the sprint's end. |
| Sprint.PlaysWholeSprint | src/components/CodeReviewSimulator.jsx:631-639 | From 0, playback ends at the sprint's end after exactly 300 frames, and not before. |

## Left out

- Item positions and rendering (`x`, `targetX`, `yOffset`, the colours and the React components) are not modelled. Whether a moving item has reached its target is an oracle argument of `Engine.Simulation.Tick`.
- The random display id of an item is not modelled. `Math.random()` is an oracle of reals; the model does not assume its values lie in [0, 1), so every gate is proved for any draw.
- `Date.now()`, `requestAnimationFrame` and the 30-frames-per-second throttle are not modelled. The time is the `now` argument, and one `Tick` is one pass that the throttle let through.
- `startTime` and `deploymentReleased` in the simulation state are written but never read by the engine, so they are not modelled.
- `Flow.Measure`: the cycle time is kept as a real; the one-decimal `toFixed` formatting is not modelled.
- `Engine.StageStats` works on an item list it is given. React's copy of the items (`setItems`) is not modelled.
- Settings.ParseFloat: 'Infinity' text and non-ASCII whitespace (the no-break space, the byte-order mark, the line and paragraph separators and the other Unicode space separators) are not recognised; number inputs never produce them. All six ASCII whitespace characters are skipped, as `IsSpace` states. Hexadecimal and other `parseInt` prefixes are not modelled for the same reason.
- Settings.HandleInputChange: it requires the addressed range to exist. The form renders range inputs only for ranges a stage has, and the source would otherwise build a half-filled range object.
- The deployment schedule slider and the scenario presets are not part of this model.
- Sprint.RunSimulation: it does not model the lead-time, person-hour and per-category totals or their averages, the throughput figures or the chart data. These are floating-point divisions over accumulated totals. `Math.pow(x, 1.5)` is a parameter, assumed non-negative on non-negative inputs.
- Sprint.CompareModes: it returns the segment lists of all runs; the source shows only the first run's segments, and it ignores the unused `mode` argument.
- Sprint.AnimationStep: floating-point rounding of `maxDuration / 300` is not modelled. With exact reals the 300th frame lands exactly on the end of the sprint.
- Clearing of the animation frame by React's effect cleanup is not modelled; `Sprint.Play` stops at the first frame that ends playback.
