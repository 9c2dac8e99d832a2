# Sheep herding game: turn logic and agent contract

This Dafny project models the turn logic of a Unity grid game. In the game a
player herds sheep toward an exit, and an ML-Agents learning agent can drive
the player instead of a human. Three scripts are modelled:

- **Sheep** (`sheep.dfy`, module `SheepBehaviour`):
  - A sheep within distance 3 of the player sorts the four cardinal directions, farthest from the player first.
  - It then tries the first direction it can take.
  - Its `skipMove` toggle lets only every second move command through to the base move.
- **GameManager** (`game_manager.dfy`, module `Game`): the per-level bookkeeping.
  - Fields: the level counter, the roster of sheep, `score` against `endScore`, the setup and sheep-phase flags, and the move counter.
  - Operations: registering sheep, removing a sheep at the exit, the completion check, the `Update` gate, and the sweep that moves every sheep once.
- **PlayerAgent** (`player_agent.dfy`, module `Agent`):
  - the gate under which the player may act;
  - the decoding of a discrete action into a one-cell move, and the keyboard encoding that it inverts;
  - the two fixed-width observation layouts;
  - the completion reward.

`grid.dfy` (module `Grid`) holds the integer cells and the four directions.
An actor at rest stands on a whole cell. With every actor at rest,
`Vector3.Distance(a, b) > 3` is exactly "squared distance above 9", and a
sort key `sqrMagnitude` is an exact integer.

Some engine parts are replaced:

- The engine base class `MovingObject` is not part of this model. Its raycast test `CanMove` becomes a predicate `free` over cells: a direction can be taken when the cell one step away is free. Its `AttemptMove` moves one cell when that cell is free and stays put otherwise.
- `Player`, `BoardManager` and the ML-Agents runtime are not part of this model either. Their values arrive as parameters (the player's flags and position, the exit cell, the raw keyboard axes). The observation collectors take the positions of the roster's sheep, in roster order, as a sequence `sheepPos`, and the exit cell as `exit`; they stand for `GameManager.instance.sheep[i].transform.position` and `GameManager.instance.exit`. Their effects are returned as results (the move handed to `Player.AttemptMove`, the reward, and whether the level is complete).

Points where the code does less, or other, than one might expect:

- **Egocentric observation.** The PLAYER_RELATIVE observation starts with the exit's own position, not a player-to-exit vector (PlayerAgent.cs:119-120).
- **No sorting, sign normalisation or overflow error** in either observation layout. Sheep appear in roster order. With more than 11 sheep (more than 21 in PLAYER_RELATIVE) the code builds a vector longer than the fixed width of 44; the code itself neither cuts it off nor raises an error (PlayerAgent.cs:92-139).
- **Degenerate move counter.** The counter that gates the sheep phase is only ever set to 0, and the threshold it is compared with is the constant 0. So `Update` starts the sheep phase exactly when no sheep phase is running and no level is being set up (GameManager.cs:22-23, 136, 148, 155-162).
- **Tie order in the direction sort.** The comparator at Sheep.cs:78 never answers "equal", so the order of tied directions is whatever `Array.Sort` produces. The model sorts by a stable insertion sort, so tied directions keep the order up, down, left, right. Only what holds for any tie order is claimed: the result is a permutation, it is ordered farthest first, and the chosen direction is a farthest movable one.

## Model

| member | source | states |
|---|---|---|
| Grid.Delta | Assets/Scripts/Sheep.cs:74 | each direction is a one-cell step along one axis, with up as +y, down as -y, left as -x and right as +x |
| SheepBehaviour.Insert | Assets/Scripts/Sheep.cs:75-79 | inserting into a farthest-first list keeps it farthest first, holds exactly the old elements plus the new one, and is one longer |
| SheepBehaviour.InsertionSort | Assets/Scripts/Sheep.cs:75-79 | the sort returns the same elements, as many as it was given, in non-increasing key order |
| SheepBehaviour.InsertPermutes | Assets/Scripts/Sheep.cs:75-79 | insertion adds exactly one copy of the new element and keeps every other element with its multiplicity |
| SheepBehaviour.InsertionSortPermutes | Assets/Scripts/Sheep.cs:75-79 | the sort is a permutation of its input: each element occurs as often as before |
| SheepBehaviour.SortDirections | Assets/Scripts/Sheep.cs:74-79 | the sorted direction array has four entries, holds every direction, and is ordered by non-increasing squared distance from the candidate cell to the player |
| SheepBehaviour.FirstMovable | Assets/Scripts/Sheep.cs:83-91 | the loop stops at the first direction the sheep can take, after only blocked ones; it runs to the end when none can be taken |
| SheepBehaviour.ChooseDirection | Assets/Scripts/Sheep.cs:65-91 | a player more than 3 away yields no direction, and a chosen direction can always be taken |
| SheepBehaviour.ChooseDirectionNone | Assets/Scripts/Sheep.cs:65-91 | no direction is chosen if and only if the player is more than 3 away or every direction is blocked |
| SheepBehaviour.ChooseDirectionFarthest | Assets/Scripts/Sheep.cs:75-91 | the chosen direction leads at least as far from the player as every direction the sheep can take |
| SheepBehaviour.ChooseDirectionStrictFarthest | Assets/Scripts/Sheep.cs:67-91 | within range, a movable direction strictly farther from the player than all others is the one chosen |
| SheepBehaviour.FleesUpFromPlayerBelow | Assets/Scripts/Sheep.cs:67-91 | a sheep at (5,5) with the player at (5,4) flees up whenever (5,6) is free |
| SheepBehaviour.AttemptMoveEffect | Assets/Scripts/Sheep.cs:42-61 | every AttemptMove call flips skipMove |
| SheepBehaviour.MoveSheepIdle | Assets/Scripts/Sheep.cs:65-91 | out of range or boxed in, MoveSheep leaves position, skipMove and distToExit unchanged |
| SheepBehaviour.RunCadenceOneMore | Assets/Scripts/Sheep.cs:45-60 | one more AttemptMove call flips the final skipMove and passes its direction to the base move exactly when skipMove was clear |
| SheepBehaviour.CadenceHalfRate | Assets/Scripts/Sheep.cs:45-60 | from skipMove = false, N calls make ceil(N/2) base moves, on calls 1, 3, 5, ... with those calls' directions, and leave skipMove set exactly when N is odd |
| SheepBehaviour.Sheep.constructor | Assets/Scripts/Sheep.cs:18-19 | a new sheep is active, with skipMove clear and no calls recorded, so its record agrees with the cadence |
| SheepBehaviour.Sheep.AttemptMove | Assets/Scripts/Sheep.cs:42-61 | with skipMove set, only skipMove is cleared; otherwise exactly one base move, then skipMove set and distToExit recomputed from the new position; the record of calls and base moves keeps agreeing with the cadence |
| SheepBehaviour.Sheep.MoveSheep | Assets/Scripts/Sheep.cs:65-92 | out of range nothing changes; otherwise AttemptMove is called at most once, with the chosen direction, and the new state is that call's effect; a base move happens only for a chosen direction with skipMove clear; the record keeps agreeing with the cadence |
| SheepBehaviour.SheepHalfRate | Assets/Scripts/Sheep.cs:45-60 | a sheep object that has received N AttemptMove calls has made ceil(N/2) base moves, with the directions of calls 1, 3, 5, ..., and has skipMove set exactly when N is odd |
| Game.RemoveFirst | Assets/Scripts/GameManager.cs:173-177 | List.Remove drops only the first occurrence and keeps the rest in order; an absent element changes nothing |
| Game.RemoveFirstMultiset | Assets/Scripts/GameManager.cs:173-177 | removal takes exactly one copy of the element out of the roster |
| Game.RemoveFirstDistinct | Assets/Scripts/GameManager.cs:173-177 | removal keeps a duplicate-free roster duplicate-free and leaves no copy of the removed sheep |
| Game.RemoveFirstUndoesAppend | Assets/Scripts/GameManager.cs:166-177 | removing a sheep registered once, just after registering it, restores the roster |
| Game.SheepPhaseGate | Assets/Scripts/GameManager.cs:155-158 | while the move counter is not below the threshold, the gate opens exactly when no sheep phase is running and no setup is in progress |
| Game.GameManager.constructor | Assets/Scripts/GameManager.cs:64-99 | Awake yields level 1, an empty roster, zero scores, setup in progress and heuristic mode unset |
| Game.GameManager.InitGame | Assets/Scripts/GameManager.cs:102-137 | setup is in progress, the roster is empty, score, endScore and the move counter are 0, the exit is the board's, and the level is unchanged; the roster invariant holds |
| Game.GameManager.CreateNewLevel | Assets/Scripts/GameManager.cs:41-45 | the level goes up by exactly 1, then the InitGame reset applies |
| Game.GameManager.HandleHeuristicMode | Assets/Scripts/GameManager.cs:47-61 | afterwards heuristic mode is set; when it was already set, nothing changes |
| Game.GameManager.HideLevelImage | Assets/Scripts/GameManager.cs:141-149 | setup ends and the move counter is 0 |
| Game.GameManager.AddSheepToList | Assets/Scripts/GameManager.cs:166-171 | the sheep is appended, endScore goes up by 1, score is untouched, and the roster invariant is preserved |
| Game.GameManager.RemoveSheepFromList | Assets/Scripts/GameManager.cs:173-177 | the roster loses the first occurrence of the sheep; score and endScore are untouched; a duplicate-free roster stays duplicate-free and no longer holds the sheep |
| Game.GameManager.CheckIfGameOver | Assets/Scripts/GameManager.cs:224-234 | score goes up by 1, and the level is reported complete if and only if the new score reaches endScore |
| Game.GameManager.MoveSheep | Assets/Scripts/GameManager.cs:196-222 | every sheep on a duplicate-free roster makes exactly its own MoveSheep step, keeps its active flag, adds to its record of AttemptMove calls the direction it chose (if any) and to its base moves that direction when skipMove was clear, and keeps its record agreeing with the cadence; sheepMoving is clear at the end |
| Game.GameManager.Update | Assets/Scripts/GameManager.cs:152-163 | the sheep phase starts if and only if no sheep phase is running and no setup is in progress; if it does not start, no sheep changes at all; if it starts, each sheep of a duplicate-free roster makes its own MoveSheep step as in the sweep |
| Game.SheepStart | Assets/Scripts/Sheep.cs:22-26 | a newly spawned sheep starts at its cell, active, with skipMove clear, distToExit 0, an empty record and its record agreeing with the cadence; it is appended to the roster, keeps the roster free of duplicates, and preserves the roster invariant |
| Game.SheepOnTriggerEnter2D | Assets/Scripts/Sheep.cs:109-119 | touching the exit deactivates the sheep, removes it and scores it; for a rostered sheep the roster invariant is kept, and the level is complete exactly when the roster is empty; a duplicate-free roster stays duplicate-free |
| Agent.CanMove | Assets/Scripts/PlayerAgent.cs:141-144 | the player may act if and only if it is not moving, the level is not finished, the game is not over and no setup is in progress |
| Agent.DecodeAction | Assets/Scripts/PlayerAgent.cs:153-171 | lastAction 1 to 4 gives a move and every other value gives none; each move is a one-cell cardinal step |
| Agent.DecodeActionDirections | Assets/Scripts/PlayerAgent.cs:157-167 | actions 1 to 4 are the grid's left, right, down and up |
| Agent.KeyboardAction | Assets/Scripts/PlayerAgent.cs:246-267 | the emitted action lies in -1..3 and is -1 exactly when no key is pressed; decoding it (after the +1) gives the horizontal move when one is pressed, else the vertical one, else no move |
| Agent.KeyboardActionInvertsDecode | Assets/Scripts/PlayerAgent.cs:151-171 | pressing the keys of the move an action decodes to produces that action again |
| Agent.FinishLevelReward | Assets/Scripts/PlayerAgent.cs:56-62 | the completion reward 5 is given only when the level is not restarted; otherwise nothing |
| Agent.PlayerAgent.constructor | Assets/Scripts/PlayerAgent.cs:17-20 | the agent starts in PLAYER_TO_SHEEP_TO_EXIT mode with lastAction 0 |
| Agent.PlayerAgent.OnEpisodeBegin | Assets/Scripts/PlayerAgent.cs:31-34 | an episode starts the next level with the InitGame reset, at the board's exit, with sheepMoving and heuristic mode unchanged |
| Agent.PlayerAgent.OnActionReceived | Assets/Scripts/PlayerAgent.cs:146-172 | when the player may not act, nothing changes and nothing moves; otherwise lastAction becomes action + 1 and the move issued is its decoding |
| Agent.PlayerAgent.Heuristic | Assets/Scripts/PlayerAgent.cs:174-267 | heuristic mode is set; the action is lastAction while the player may not act, else the keyboard encoding of the axes |
| Agent.PlayerAgent.CollectObservationsPlayerSheepExit | Assets/Scripts/PlayerAgent.cs:92-115 | per sheep in roster order: sheep minus player, then sheep minus exit; then zeros; length max(44, 4n), so 44 for up to 11 sheep |
| Agent.PlayerAgent.CollectObservationsPlayerRelative | Assets/Scripts/PlayerAgent.cs:117-139 | the exit's position first, then sheep minus player per sheep; then zeros; length max(44, 2 + 2n), so 44 for up to 21 sheep |
| Agent.PlayerAgent.PadWithZeros | Assets/Scripts/PlayerAgent.cs:109-112 | the padding keeps the prefix and appends zeros up to width 44, none when the vector is already that long |
| Agent.PlayerAgent.CollectObservations | Assets/Scripts/PlayerAgent.cs:79-90 | the layout chosen by mode, with that layout's length, per-sheep entries and zero padding; 44 entries for up to 11 sheep in either mode |

## Left out

- SheepBehaviour.Sheep.AttemptMove: distToExit is the squared distance to the exit, not the float Euclidean distance. It is an integer on cells and orders positions the same way.
- SheepBehaviour.SortDirections: the tie order of `Array.Sort` under a comparator that never answers "equal" is not claimed. The model fixes a stable order.
- Game.GameManager.MoveSheep: the waits between sheep are not modelled. The sweep runs as one uninterrupted loop with the player and the free cells fixed. A sheep leaving through the exit during a wait is not modelled. Per-sheep effects are stated for a roster without duplicates, which `Game.SheepStart` and `Game.SheepOnTriggerEnter2D` keep.
- Game.GameManager.Update: the coroutine start is a direct call, so `sheepMoving` is clear again when `Update` returns.
- Integer width: `level`, `score`, `endScore` and `lastAction = action + 1` are unbounded integers. 32-bit wrap-around is far outside any level the game reaches.
- Agent.PlayerAgent.OnActionReceived: the float-to-int cast of the action is not modelled. The action arrives as an integer.
- `MovingObject` collisions: `OnCantMove` (animation, sound) and the move's animation timing are presentation. Moves are modelled as instant, so sheep decisions are modelled with every actor at rest. The gate at GameManager.cs:155 does not wait for the player's `isMoving`, so in the game a sheep can measure its distance to a player between two cells; the model does not capture that.
- `Player`: `Score`, `CheckIfGameOver(true)` and its flags are not part of this model. The flags are inputs, and level completion is returned.
- GameManager presentation and setup: `GameOver` (text, image, `TestResults`), the level text and image, the singleton set-up and `DontDestroyOnLoad` in `Awake`, and the float timing settings in `Awake` and `HandleHeuristicMode`.
- `BoardManager.SetupScene` spawns a level's sheep, which register through `Game.SheepStart`. Its `Exit` is passed in as a cell.
- Reward shaping with floats: `HandleSheepScore` sums Euclidean distances, and `HandleAttemptMove` applies the -0.01 move penalty. `HandleRestartTest` has an empty body.
- `HandleLevelRestart`: `EndEpisode` and the statistics recorder belong to the ML-Agents runtime, as do `AddReward`, `DecisionRequester` and the base `CollectObservations`.
- The mobile touch branch of `Heuristic`: it is platform input on floats and reads a field the class does not declare.
