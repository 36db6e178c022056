# learn-vim game core in Dafny

This project models the rule core of *learn-vim*, a terminal game that teaches
Vim keys. The player walks a character grid, yanks keys into registers, puts
them into locks, and fights enemies with `delete` and with `:s/.../.../g`
regex attacks. Five parts of the game are modelled, each with the properties
the code promises:

- **World engine** (`src/core/engine.py`, `GameEngine`). The class
  `CoreEngine.GameEngine` has the same fields, and its methods update them in
  place. It loads a level from a template, walks the player with clamped
  steps, and handles yank, put and regex attacks, melee attacks, the bounded
  message log and the render overlay. Each method is proved against a pure
  function in `CoreRules` (for example `Walk`, `Yank`, `Put`, `RegexAttack`,
  `Struck`, `GridSpawns`, `Paint`), and the lemmas beside those functions
  prove what the game promises.
- **Chord parser** (`src/core/vim_logic.py`, `VimParser`). The class
  `VimLogic.VimParser` keeps the six pending fields. `HandleKey` is proved
  against the transition function `Next`. The two callbacks become a returned
  list of events, in the order they fire.
- **Legacy engine** (`src/engine.py`). `LegacyEngine.GameEngine` models the
  first engine. Its steps are bounds-checked rather than clamped, it knows
  only the `@`, `G`, `>` and `R` markers, and its attack damage is random in
  the original. Here that damage is a parameter between 1 and 3.
- **First key handler** (`src/vim_handler.py`, `VimHandler.handle_key`). A
  buffer is re-read after every key as a leading count followed by a
  command.
- **Score bookkeeping** (`src/mechanics/engines.py`). This covers the
  keep-the-minimum update of `save_best` and the tiers of `get_rating`.

Shared pieces:

- `util.dfy`: an Option type, the ten-entry message log, and decimal digit
  strings (`str`/`int`).
- `models.dfy`: the value types of `src/data/models.py`.
- `grid.dfy`: the character grid, clamping and the painted overlay.

Quirks of the code that the model keeps:

- In the world engine, `char in "G B"` also holds for a space, so every space
  in a template spawns a Minion.
- Only `w` combines with a pending `d`. The parser never handles `x` or `b`.
  Its search branch can never fire.
- In the first key handler a `0` is always read as a count digit, so its `0`
  motion never runs. `$` ignores the count.
- Python's `list.remove` removes the first element that is *equal* to the
  struck entity. The model does the same, through `Util.RemoveFirst`.

## Model

| member | source | states |
|---|---|---|
| Util.Logged | src/core/engine.py:170-173 | one `add_message`: the new message is last; the log grows by one until it holds ten, then stays at ten |
| Util.LoggedAllSnoc | src/core/engine.py:170-173 | logging a list of messages and then one more is the same as logging the longer list |
| Util.LoggedAllKeepsNewest | src/core/engine.py:170-173 | from a log of at most ten, any run of `add_message` calls keeps exactly the last ten of old log plus new messages, so the bound of ten always holds |
| Util.RemoveFirst | src/core/engine.py:150 | `list.remove`: the list loses exactly one element |
| Util.RemoveFirstMultiset | src/core/engine.py:150 | `list.remove(v)` takes out exactly one copy of `v` and keeps everything else |
| Util.RemoveFirstAt | src/core/engine.py:111 | removing the first element equal to `s[i]`, when no earlier element equals it, removes exactly index `i` |
| Util.DecimalValue | src/vim_handler.py:25 | `int(s)` of a digit string is 0 exactly when every digit is `0` |
| Util.DecimalString | src/mechanics/engines.py:26 | `str(n)` is non-empty, all digits for `n >= 0`, and starts with `-` otherwise |
| Util.DecimalRoundTrip | src/mechanics/engines.py:26 | `int(str(n)) == n` for every `n >= 0` |
| Grid.Clamp | src/core/engine.py:74-75 | `max(lo, min(hi, v))` lies in `[lo, hi]`, equals `v` inside the range and never wraps |
| Grid.SetCell | src/core/engine.py:183 | writing one cell of the render copy changes that cell only, and the shape stays the same |
| Grid.Paint | src/core/engine.py:181-184 | drawing marks in order on a copy of the map keeps the map's shape |
| Grid.PaintAt | src/core/engine.py:181-184 | a painted cell shows the last mark drawn on it, or the map's own character when no mark was drawn there |
| CoreRules.ToLower | src/core/engine.py:62 | `char.lower()` of an upper-case letter is lower-case |
| CoreRules.ClearedCell | src/core/engine.py:44-63 | every marker cell becomes `.`, and every other character is kept |
| CoreRules.ClearedCellAt | src/core/engine.py:44-63 | a cell spawns something or places the player exactly when it is a marker |
| CoreRules.SpawnCell | src/core/engine.py:41-63 | one cell spawns at most one entity |
| CoreRules.RowSpawnsSound | src/core/engine.py:42-63 | every entity a row scan adds comes from one marker cell of that row, returned as its column |
| CoreRules.RowSpawnsComplete | src/core/engine.py:42-63 | every marker cell of a row adds its entity |
| CoreRules.GridSpawnsSound | src/core/engine.py:41-63 | every entity the scan adds comes from one marker cell of the template, returned as its row and column |
| CoreRules.GridSpawnsComplete | src/core/engine.py:41-63 | every marker cell of the template adds its entity |
| CoreRules.SpawnFacts | src/core/engine.py:47-62 | one marker's entity sits on its cell with that cell's symbol at full hit points: Boss 10 from `B`, Minion 5 from `G` or space, exits, rubble, keys and locks with their letter |
| CoreRules.SpawnedEntities | src/core/engine.py:41-63 | the loaded lists hold exactly the entities of the template's marker cells, each on its own cell, showing that cell's character, at full hit points, and every key and lock carries its letter |
| CoreRules.RowPlayerFound | src/core/engine.py:44-45 | after a row scan the player is on an `@` of the row with no `@` after it, or, only when the row has no `@`, where it was |
| CoreRules.GridPlayerFound | src/core/engine.py:41-46 | after the scan the player is on an `@` with no `@` after it in reading order (later in its row or in any later row), or, only when the template has no `@`, where it was |
| CoreRules.PlayerOnMarker | src/core/engine.py:44-46 | with an `@` in the template the player ends inside the grid on an `@` cell; without one the player does not move |
| CoreRules.FirstHit | src/core/engine.py:107-108 | the index found is the first one that passes the test, and there is none exactly when no element passes |
| CoreRules.FirstHitIs | src/core/engine.py:144-145 | a passing element with no passing element before it is the first hit |
| CoreRules.EntityAt | src/core/engine.py:154-158 | `get_entity_at` returns an entity of the list on that cell, and None exactly when no entity is there |
| CoreRules.RemoveAt | src/core/engine.py:111 | removing index `i` keeps the order of everything before and after it |
| CoreRules.Target | src/core/engine.py:74-76 | the clamped step target is always inside the grid |
| CoreRules.WalkMessages | src/core/engine.py:84-91 | a blocked or collided walk logs exactly one message; a finished walk or one that reaches the exit logs none |
| CoreRules.WalkStaysOnFloor | src/core/engine.py:73-91 | a walk that starts on a floor cell ends on a floor cell inside the grid |
| CoreRules.WalkNeverEntersBlockedCell | src/core/engine.py:78-85 | a walk never ends on an exit, enemy, Boss, rubble or lock unless it started there |
| CoreRules.WalkDistance | src/core/engine.py:73-88 | each clamped unit step moves at most one cell along each axis, in its own direction, and never along an axis it does not step on |
| CoreRules.Mismatches | src/core/engine.py:125-132 | at most one failure per scanned entity, and none exactly when no lock is within reach |
| CoreRules.MismatchPerLock | src/core/engine.py:125-132 | one failure is logged per lock within reach that is passed over, each naming the register and that lock's letter |
| CoreRules.YankOutcome | src/core/engine.py:102-113 | with a key within reach, the register takes that key's letter, exactly the first such key leaves the list, and no other register changes; the log gains one success message naming the key and the register; otherwise nothing changes except one "nothing to yank" message |
| CoreRules.PutOutcome | src/core/engine.py:115-132 | an empty register logs one error and changes nothing; otherwise exactly the first lock within reach that matches the letter is removed, or no entity is removed |
| CoreRules.PutWithoutLockIsSilent | src/core/engine.py:123-132 | a put from a filled register with no lock within reach changes nothing and logs nothing |
| CoreRules.YankThenPut | src/core/engine.py:102-132 | yanking a key and then putting from the same register opens the first lock within reach that carries the key's letter |
| CoreRules.SubstitutionAnywhere | src/core/engine.py:137 | the search is unanchored, so text before or after a match does not spoil it |
| CoreRules.WellFormedAttack | src/core/engine.py:137 | `s/foo/bar/g` matches the pattern |
| CoreRules.MalformedAttack | src/core/engine.py:137-140 | `s/badsyntax` and `s//bar/g` do not match |
| CoreRules.Purged | src/core/engine.py:144-151 | a successful attack touches only the first Boss: it loses 5 hit points and is removed at 0 or below; with no Boss the list is unchanged |
| CoreRules.PurgeMessages | src/core/engine.py:144-152 | "no eligible targets" is logged exactly when there is no Boss |
| CoreRules.SecondPurgeRemovesFreshBoss | src/core/engine.py:144-151 | a fresh 10-hit-point Boss survives the first attack with 5 and stays the first Boss; the second attack removes exactly it |
| CoreRules.AttackDamage | src/core/engine.py:162 | the damage is 5 exactly when the aura is active, and 2 exactly when it is not |
| CoreRules.StrikeMessages | src/core/engine.py:164-166 | an attack logs the damage first, and then an erasure exactly when the victim has no hit points left |
| CoreRules.StruckSurvivor | src/core/engine.py:163-165 | a surviving victim keeps its place with `damage` fewer hit points, and nothing else changes |
| CoreRules.StruckDownEnemy | src/core/engine.py:163-167 | an enemy struck down with no equal enemy before it is removed from exactly its own place |
| CoreRules.StruckCount | src/core/engine.py:165-168 | an attack removes at most one entity, and exactly one when the victim is struck down and is in one of the lists |
| CoreRules.MarksOf | src/core/engine.py:182-183 | each entity is drawn as its own symbol at its own cell, in list order |
| CoreEngine.RegisterParam | src/core/engine.py:104 | the `reg` parameter, or `"` when it is absent |
| CoreEngine.GameEngine.constructor | src/core/engine.py:11-23 | the initial state: Normal mode, the player at (1, 1) with 20/20 hit points, empty lists and registers, one welcome message, all flags off |
| CoreEngine.GameEngine.LoadLevel | src/core/engine.py:25-63 | the map is the template with every marker cell turned to `.`; the lists are exactly the spawned entities; the player moves to the last `@`; flags and counters are reset; registers and messages are untouched; with an `@` the level is playable |
| CoreEngine.GameEngine.GetEntityAt | src/core/engine.py:154-158 | the first enemy, else the first interactable, on the cell |
| CoreEngine.GameEngine.AddMessage | src/core/engine.py:170-173 | appends the message and keeps at most ten entries |
| CoreEngine.GameEngine.CompleteLevel | src/core/engine.py:175-177 | sets the completion flag |
| CoreEngine.GameEngine.MovePlayer | src/core/engine.py:65-91 | `aura_active == (count > 1)`; the player ends where the walk ends, on a floor cell; the level completes exactly at an exit; the map and the lists never change |
| CoreEngine.GameEngine.StopWalk | src/core/engine.py:79-91 | an exit completes the level, and an obstacle or a wall logs one message |
| CoreEngine.GameEngine.WalkPlayer | src/core/engine.py:73-91 | the step loop ends where the walk function says, on a floor cell |
| CoreEngine.GameEngine.Probe | src/core/engine.py:74-91 | one step: the clamped target cell, then an exit, an obstacle, a wall or a move onto floor |
| CoreEngine.GameEngine.HandleYank | src/core/engine.py:102-113 | registers, interactables and log become what `Yank` says, and keys and locks stay tagged |
| CoreEngine.GameEngine.HandlePut | src/core/engine.py:115-132 | interactables and log become what `Put` says, and registers never change |
| CoreEngine.GameEngine.ScanLocks | src/core/engine.py:125-132 | the scan stops at the first lock the letter opens, and logs one failure for each lock within reach before it |
| CoreEngine.GameEngine.HandleRegexAttack | src/core/engine.py:134-152 | a command without the pattern logs one syntax message and leaves the enemies alone; otherwise the purge runs |
| CoreEngine.GameEngine.Purge | src/core/engine.py:142-152 | enemies and log become `Purged` and `PurgeMessages` of the old enemies |
| CoreEngine.GameEngine.PerformAction | src/core/engine.py:93-100 | dispatches yank, put and regex attack; any other name, such as "delete", changes nothing |
| CoreEngine.GameEngine.Attack | src/core/engine.py:160-168 | the player, enemies and interactables become `Struck` with 5 or 2 damage, and the log gets the damage line and, at 0 or below, the erasure |
| CoreEngine.GameEngine.LogStrike | src/core/engine.py:164-166 | the damage message, then the erasure when the victim has no hit points left |
| CoreEngine.GameEngine.Wound | src/core/engine.py:163 | the victim's hit points drop where it sits |
| CoreEngine.GameEngine.RemoveFallen | src/core/engine.py:167-168 | the enemy list is searched first, then the interactables |
| CoreEngine.GameEngine.GetRenderData | src/core/engine.py:179-185 | a copy of the map with interactables, then enemies, then the player drawn on it, of the map's own height and width; nothing changes |
| CoreEngine.Overlay | src/core/engine.py:182-184 | the drawing order is every entity in list order, then the player |
| CoreEngine.DrawEntities | src/core/engine.py:182-183 | the entity loop paints each entity's symbol at its cell, in order |
| CoreEngine.RenderedCell | src/core/engine.py:179-185 | the player's cell shows the player's symbol, and a cell with no entity and no player shows the map |
| CoreEngine.ScanSettles | src/core/engine.py:41-63 | after the scan every key and lock carries its letter, and with an `@` the player is on floor with every entity inside the grid |
| CoreEngine.ScanGrid | src/core/engine.py:41-63 | the row-by-row scan clears every marker and collects exactly the spawned entities and the player's cell |
| CoreEngine.ScanRow | src/core/engine.py:42-63 | one row's scan clears its markers and collects its entities left to right |
| CoreEngine.ScanCell | src/core/engine.py:43-63 | one cell's entity, whether the player starts there, and the character left behind |
| CoreEngine.ScanLocksStep | src/core/engine.py:125-132 | one more scanned lock within reach adds exactly one failure to the log |
| CoreEngine.StruckKeepsTags | src/core/engine.py:160-168 | an attack keeps every key and lock tagged with its letter |
| CoreEngine.WellTaggedAfterRemoval | src/core/engine.py:107-130 | removing an interactable keeps every key and lock tagged |
| VimLogic.Format | src/core/vim_logic.py:93-98 | `format_buffer` is register prefix, count and operator; it is empty exactly when all three are empty |
| VimLogic.DropLast | src/core/vim_logic.py:23 | `buffer[:-1]` drops the last character and leaves an empty buffer empty |
| VimLogic.Next | src/core/vim_logic.py:10-83 | one key keeps the pending state valid: the count is digits, the operator is empty or `d`, and a register is awaited only while none is chosen |
| VimLogic.Dispatch | src/core/vim_logic.py:47-83 | the operator, motion and mode table keeps the pending state valid |
| VimLogic.VimParser.constructor | src/core/vim_logic.py:5-8 | starts in the reset state |
| VimLogic.VimParser.Reset | src/core/vim_logic.py:85-91 | every pending field is back to empty |
| VimLogic.VimParser.HandleKey | src/core/vim_logic.py:10-83 | the new state, the display and the events fired are those of `Next` |
| VimLogic.VimParser.Act | src/core/vim_logic.py:47-83 | the operator, motion and mode part of `handle_key` follows `Dispatch` |
| VimLogic.EscapeResets | src/core/vim_logic.py:11-14 | escape in any mode clears everything, asks for Normal and returns `""` |
| VimLogic.CommandLine | src/core/vim_logic.py:16-26 | in Command mode, enter fires the regex attack and then Normal; backspace drops the last character (nothing when empty); other keys append; the display is `:` plus the buffer |
| VimLogic.EventsCarryCount | src/core/vim_logic.py:47-73 | every fired action carries `int(count_str)`, or 1 when no count was typed |
| VimLogic.DispatchCarries | src/core/vim_logic.py:47-73 | the table's actions carry the typed count, and yank and put carry the chosen register |
| VimLogic.EventsCarryRegister | src/core/vim_logic.py:50-55 | yank and put name the active register, or `"` when none is chosen |
| VimLogic.RegisterThenYank | src/core/vim_logic.py:29-52 | `"`, then any key but `"` or escape, then `y` yanks into that key's register |
| VimLogic.Digits | src/core/vim_logic.py:43-73 | digits extend the count; `0` with no count is the `0` motion with count 1 |
| VimLogic.DeleteOperator | src/core/vim_logic.py:56-73 | a first `d` fires nothing and waits; then `d` deletes the line, `w` deletes a word, `0` with no pending count is a move to column 0, and another motion is a plain move |
| VimLogic.EmitResets | src/core/vim_logic.py:50-83 | after anything fires, the state is reset and the display is `""` |
| VimLogic.UnknownKey | src/core/vim_logic.py:83-98 | an unknown key (including `x` and `b`) fires nothing, changes nothing and shows the pending prefix |
| VimLogic.SearchNeverArmed | src/core/vim_logic.py:38-91 | no key ever arms the search, so a search jump never fires |
| LegacyEngine.ClearedCell | src/engine.py:47-58 | `@`, `G`, `>` and `R` cells become `.`, and every other character stays |
| LegacyEngine.RowSpawnOnMarker | src/engine.py:46-58 | an entity from a row sits on a cell of that row showing its symbol at full hit points (a Goblin 5/5, or an exit or rubble) and is what that cell adds |
| LegacyEngine.GridSpawnOnMarker | src/engine.py:45-58 | every loaded entity sits inside the template on a cell showing its own symbol and is what that cell adds: enemies are 5-hit-point Goblins, interactables are exits or rubble |
| LegacyEngine.PlayerOnMarker | src/engine.py:45-49 | the player ends on an `@` with no `@` after it in reading order, or, only when the template has no `@`, stays put |
| LegacyEngine.RowPlayerOnMarker | src/engine.py:46-49 | within a row, the player ends on an `@` with no `@` after it, or, only when the row has no `@`, stays put |
| LegacyEngine.RowSpawnsComplete | src/engine.py:46-58 | every `G`, `>` or `R` cell of a row adds its entity to the list it belongs to |
| LegacyEngine.GridSpawnsComplete | src/engine.py:45-58 | every `G`, `>` or `R` cell of the template adds its entity to the list it belongs to |
| LegacyEngine.SpawnedEntities | src/engine.py:45-58 | an entity is in a loaded list exactly when some cell of the template adds it |
| LegacyEngine.MarkerSpawns | src/engine.py:50-58 | each `G` cell loads a Goblin with 5 of 5 hit points, each `>` an exit and each `R` rubble, at that cell |
| LegacyEngine.LoadedOnMap | src/engine.py:35-58 | a rectangular template gives a map of its own width and height with every spawned entity on it, and the player on it when there is an `@` |
| LegacyEngine.EntityAt | src/engine.py:84-88 | the entity returned is in the list on the cell, and None means no entity of the list is there |
| LegacyEngine.EntityAtSkips | src/engine.py:85-87 | entities before the first one on the cell do not change the answer |
| LegacyEngine.StrideFrom | src/engine.py:61-82 | a step moves by exactly (dx, dy) onto a `.` cell inside the map, or stops the walk |
| LegacyEngine.WalkNotes | src/engine.py:67-74 | a walk logs one line when blocked by an enemy or rubble, and one when it reaches the exit |
| LegacyEngine.WalkEndsOnFloor | src/engine.py:60-82 | a walk ends where it started or on a `.` cell inside `[0,width)×[0,height)`; out-of-bounds and wall steps stop it in place |
| LegacyEngine.WalkDistance | src/engine.py:60-82 | the player ends exactly `k` steps of (dx, dy) from the start, for some `k` between 0 and `count` |
| LegacyEngine.DeleteTarget | src/engine.py:94-97 | the target is the first entity within reach that is not the player, and there is none exactly when nothing is within reach |
| LegacyEngine.StrikeNotes | src/engine.py:103-106 | the hit line first, then the cleared line exactly when the target has no hit points left |
| LegacyEngine.StruckOutcome | src/engine.py:100-110 | the target loses between 1 and 3 hit points and stays in place, or it is struck down and exactly one entity leaves the two lists; when no earlier element (and, for an interactable, no enemy) equals the struck target, that entity is removed from its own place and the other list is unchanged; a survivor leaves every other enemy and interactable unchanged |
| LegacyEngine.Overlay | src/engine.py:123-125 | the drawing order is the entities in list order, then the player |
| LegacyEngine.MarksOf | src/engine.py:123-124 | each entity is drawn as its own symbol at its own cell |
| LegacyEngine.DrawEntities | src/engine.py:123-124 | the entity loop paints each entity's symbol at its cell, in order |
| LegacyEngine.RenderShowsPlayer | src/engine.py:125 | the player's cell shows the player's symbol |
| LegacyEngine.GameEngine.constructor | src/engine.py:25-33 | the player at (1, 1) with 20/20 hit points, empty lists, the two welcome messages |
| LegacyEngine.GameEngine.LoadLevel | src/engine.py:35-58 | the map is the template with `@`, `G`, `>` and `R` turned to `.`; the lists are exactly the spawned entities; the player moves to the last `@`; the level is not complete; a rectangular template with an `@` leaves the map, the player and every entity drawable |
| LegacyEngine.GameEngine.GetEntityAt | src/engine.py:84-88 | the first enemy, else the first interactable, on the cell |
| LegacyEngine.GameEngine.AddMessage | src/engine.py:112-115 | appends the message and drops the oldest past ten |
| LegacyEngine.GameEngine.CompleteLevel | src/engine.py:117-119 | one message is logged and the level is complete |
| LegacyEngine.GameEngine.MovePlayer | src/engine.py:60-82 | the player ends where `Walk` says; the exit completes the level; an enemy or rubble logs one line; the map and the lists never change |
| LegacyEngine.GameEngine.WalkPlayer | src/engine.py:61-82 | the step loop ends where `Walk` says |
| LegacyEngine.GameEngine.Probe | src/engine.py:62-82 | one step: the bounds check, then an exit, an obstacle, floor or a wall |
| LegacyEngine.GameEngine.PerformAction | src/engine.py:90-98 | only `delete` acts: it attacks the first entity within reach (enemies before interactables); with none, or for any other action, nothing changes |
| LegacyEngine.GameEngine.FirstTarget | src/engine.py:95-97 | the index of the first entity within reach that is not the player |
| LegacyEngine.GameEngine.Attack | src/engine.py:100-110 | the lists become `Struck` with the given damage, and the log gets the hit line and, at 0 or below, the cleared line |
| LegacyEngine.GameEngine.GetRenderData | src/engine.py:121-126 | a copy of the map with interactables, enemies and then the player drawn on it; the player's symbol shows at the player's cell; nothing changes |
| LegacyEngine.ScanGrid | src/engine.py:45-58 | the row-by-row scan clears every marker and collects exactly the spawned entities and the player's cell |
| LegacyEngine.ScanRow | src/engine.py:46-58 | one row's scan clears its markers and appends its entities left to right |
| VimHandler.DigitPrefix | src/vim_handler.py:19-23 | the leading run of digits: every character before it is a digit, and the one after it is not |
| VimHandler.VimHandler.constructor | src/vim_handler.py:4-8 | an empty buffer in NORMAL |
| VimHandler.VimHandler.HandleKey | src/vim_handler.py:10-68 | the new buffer and the callbacks made are those of `Step`, and the buffer is returned |
| VimHandler.ParseCount | src/vim_handler.py:19-23 | the loop collects exactly the leading digits and stops where the command starts |
| VimHandler.CountAndCommand | src/vim_handler.py:19-26 | the buffer is its digit prefix followed by the command; the command never starts with a digit; the count is that prefix's value, or 1 |
| VimHandler.ZeroIsNeverACommand | src/vim_handler.py:19-51 | `0` is always read as a count digit, so the `0` motion never runs |
| VimHandler.DigitsAreKept | src/vim_handler.py:28-29 | an all-digit buffer makes no call and is kept whatever its length |
| VimHandler.Motions | src/vim_handler.py:32-64 | `h`, `j`, `k`, `l`, `w` and `b` move once by their step with the typed count; `$` moves by `len(map_row) - player_x - 2` with count 1; the buffer is cleared |
| VimHandler.Deletes | src/vim_handler.py:57-66 | `x`, `dw` and `dd` each call one delete and clear the buffer |
| VimHandler.UnknownCommand | src/vim_handler.py:63-64 | any other command makes no call; its buffer is kept up to four characters and dropped past four |
| VimHandler.ShownIsShort | src/vim_handler.py:63-68 | whenever there is a command, the returned buffer has at most four characters |
| VimHandler.BufferStaysShort | src/vim_handler.py:16-68 | between keys the buffer is a bare count or at most four characters long |
| Scoring.KeptBest | src/mechanics/engines.py:26-28 | an absent level gets the new count, a present one keeps the minimum, and no other level's entry appears, disappears or changes |
| Scoring.BestNeverIncreases | src/mechanics/engines.py:27-28 | a stored best never rises, and is at most the new count |
| Scoring.KeptBestOrderFree | src/mechanics/engines.py:26-28 | saving the same count twice is the same as once, and two counts may be saved in either order |
| Scoring.DistinctKeys | src/mechanics/engines.py:26 | distinct level numbers give distinct keys |
| Scoring.SaveLeavesOtherLevels | src/mechanics/engines.py:24-28 | saving a score for one level leaves every other level's best alone |
| Scoring.GetRating | src/mechanics/engines.py:35-40 | S exactly at or under par, A exactly up to 1.5 times par, B exactly up to 2.5 times par, C beyond |
| Scoring.RatingMonotone | src/mechanics/engines.py:37-40 | with par fixed, more keystrokes never earn a better tier |
| Scoring.ScoringEngine.constructor | src/mechanics/engines.py:9-11 | no keystrokes, and the scores passed in |
| Scoring.ScoringEngine.SaveBest | src/mechanics/engines.py:24-28 | the scores become `KeptBest` for the level's decimal key |

## Left out

- Entities are values held in sequences, not shared objects. Python's
  `target.hp -= damage` mutates an object that the lists may alias; the
  model replaces the element at the victim's place. Aliasing between the
  lists is not captured.
- `Entity` declares its coordinate field as `pos` in `src/data/models.py`,
  but the engine reads and writes `.position`. In Python, reading
  `.position` raises on an entity whose `position` was never assigned, such
  as every entity `load_level` creates. The model has a single `position`
  field and follows the engine's evident intent.
- Message texts are modelled as message kinds with their parameters (for
  example `PathBlocked(name)`), not as formatted strings.
- `str.isdigit`, `str.islower`, `str.isupper` and `str.lower` are restricted
  to ASCII. A key counts as a digit only when every character is one.
- The random damage of the legacy `attack` (`random.randint(1, 3)`) is a
  parameter that the caller guarantees to be between 1 and 3.
- Score file I/O is not modelled. `load_existing_scores` reads JSON from
  disk; its result is the constructor's parameter. The `json.dump` in
  `save_best`, with its error handling, is left out.
- `src/app.py`, the UI widgets, the configuration file, the level data and
  the narrative text are not part of this model.
- CoreEngine.GameEngine.LoadLevel requires a non-empty rectangular template.
  The source takes the width from row 0, and later indexing fails on shorter
  rows. The legacy `LoadLevel` requires only a non-empty template.
- The regular expression `s/(.+)/(.+)/g` is an index predicate over the
  command string. `.` excludes only the line feed; other line terminators
  are treated as ordinary characters. The captured pattern appears in the
  purge message text only, so it is not kept.
- CoreEngine.GameEngine.MovePlayer and LegacyEngine.GameEngine.MovePlayer
  compute the whole walk on a local position first. They then write the
  player's cell once and act on the reason the walk stopped. In Python the
  position is written after every step and read back by the next one. The
  local position holds the same value, so the final state is the same.
- CoreEngine.GameEngine.MovePlayer, CoreEngine.GameEngine.WalkPlayer and
  CoreEngine.GameEngine.GetRenderData require a loaded level whose player
  stands on floor (`Playable`). Before a level is loaded, the source's
  `width` is unset and movement would raise.
- LegacyEngine.GameEngine.MovePlayer requires a rectangular map whose
  recorded width and height match it. The legacy `LoadLevel` and
  `load_level` (src/engine.py:35-40) accept a ragged template and take the
  width from row 0. A step onto a column past the end of a shorter row then
  raises `IndexError` at `map_data[new_y][new_x]` (src/engine.py:76), and
  that failure is not modelled. Before `load_level` the width and height are
  not set at all.
- The legacy `GameEngine` drops the `levels` list and `current_level_idx`
  (src/engine.py:26-27). The legacy engine sets them in `__init__` and never
  reads or changes them again.
- CoreEngine.GameEngine.PerformAction requires a "command" entry in the
  parameters for "regex_attack". Without one the source raises `KeyError`
  at `params["command"]` (src/core/engine.py:99-100). The parameters are
  always a dictionary here. In the source `params` defaults to `None`
  (src/core/engine.py:93), and `params.get` then raises `AttributeError`
  for "yank" and "put" (src/core/engine.py:104, src/core/engine.py:117).
  Neither exception is modelled.
- The row scans in `ScanRow`/`ScanGrid` collect each row's spawns and append
  them after the row. Python appends cell by cell. The resulting lists are
  the same.
- CoreEngine.GameEngine.Attack logs its messages before removing a struck-down
  victim. Python removes it after the erasure message. The two steps touch
  disjoint state, so the final state is the same.
- CoreEngine.GameEngine.Attack takes its target as a place (the player, or an
  index into one of the two lists). `attack(attacker, target)` in the source
  accepts any entity object; `attacker` is unused there and left out.
- The `mode` field of `VimHandler` is set once and never read. It is kept but
  has no role.
- Keys are strings such as `"h"`, `"escape"` and `"enter"`, exactly as the key
  events deliver them.
- Scoring.GetRating compares over integers by doubling both sides. This
  matches Python's float comparison for every integer input, because
  `1.5 * p` and `2.5 * p` are exact at the magnitudes a keystroke count
  reaches.
- `ScoringEngine.keystrokes` is only initialised in the scoring file. Its
  increments live in `src/app.py`, which is not part of this model.
