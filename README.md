# Prison simulator core, modelled in Dafny

This project models the game logic of `prison_game.c`, a console prison simulator.
It covers:

- the escape-password check `is_valid_key`;
- the world clock advanced by `TimeThread`;
- the commands that change the player and the world (`eat`, `work`, `goto_room`,
  `lock_door`, `open_door`, `use_item`, `search_bed`, `write_document`, `fight`,
  `set_alarm`);
- the checks the main loop makes after every command;
- one pass of the NPC movement loop in `npc_main_thread`.

The game state is two classes over fixed-size arrays. `World.Player` holds the
inventory and documents. `World.GameState` holds the rooms, the NPCs and the clock.
Rooms, NPCs, items and documents are datatypes held in those arrays. A C pointer to a
room becomes an index into `GameState.rooms`. Each `rand()` value a routine consumes
is a parameter holding the raw, non-negative value. The model applies the C code's
`% 100` or `% room_count` to it in `Commands.SearchBed`, `Commands.Fight` and
`NpcActivity.NpcPass`.

Files:

- `wrappers.dfy`: `Option`.
- `key_check.dfy`: `is_valid_key`. The functions `CString`, `Clean` and the three
  checksum rules say what it accepts. `CheckKey` and its two passes are the C loops,
  proved to compute `IsValidKey`.
- `clock.dfy`: one `TimeThread` iteration (`Tick`) and its properties.
- `world.dfy`: constants, datatypes, the initial room table, and the `Player` and
  `GameState` classes with `eat`, `work`, `write_document`, the clock step,
  `lock_door`, `open_door` and `set_alarm`.
- `commands.dfy`: `goto_room`, `use_item`, `search_bed`, `fight` and the end-of-turn
  checks.
- `npc_activity.dfy`: one NPC's turn as a function and the whole pass as a loop.

Behaviour kept as the code has it:

- **No password is ever accepted.** Every cleaned character is a digit or an
  upper-case letter, so characters 0..3 add up to at least 4 × 48 = 192. The XOR of
  four ASCII codes is below 128, so rule (a) can never hold, and `is_valid_key`
  returns 0 for every input (`KeyCheck.NoKeyIsValid`).
- **The office is unreachable.** `room_count` is 8 while the office is `rooms[8]`.
  No search bounded by `room_count` finds it, and no NPC draws it.
- **Hour 24 lasts one step.** The clock shows hour 24 for one iteration, then resets
  the hour to 0 and advances the day, keeping the minute. A day is 1441 iterations.
- **Some stats are not clamped.** `fight` and the hunger thread do not clamp. Only
  `work` and the main loop floor hunger at 0.
- **`fight` ignores whether an NPC is alive.** It challenges the first inmate that is
  not busy.

## Model

| member | source | states |
|---|---|---|
| `KeyCheck.IsAlnum` | prison_game.c:191 | `isalnum` in the C locale: the ASCII digits and letters |
| `KeyCheck.IsDigit` | prison_game.c:214 | `isdigit` in the C locale; every digit is alphanumeric |
| `KeyCheck.ToUpper` | prison_game.c:192 | upper-casing keeps alphanumerics and other characters apart, and turns every alphanumeric into a digit or capital |
| `KeyCheck.CString` | prison_game.c:189 | the loop sees exactly the characters before the first NUL |
| `KeyCheck.Clean` | prison_game.c:189-194 | the cleaned key is no longer than the input and holds only digits and capitals |
| `KeyCheck.CleanClosedForm` | prison_game.c:186-197 | cleaning fails exactly when a character other than a hyphen or alphanumeric occurs; otherwise it is the input without hyphens, upper-cased |
| `KeyCheck.CleanIgnoresHyphens` | prison_game.c:190 | removing every hyphen leaves the cleaning result unchanged |
| `KeyCheck.CleanIgnoresHyphenAt` | prison_game.c:190 | a hyphen inserted anywhere leaves the cleaning result unchanged |
| `KeyCheck.CleanIgnoresCase` | prison_game.c:192 | two keys equal up to letter case clean alike |
| `KeyCheck.CleanRejectsForeign` | prison_game.c:191 | cleaning fails if and only if a foreign character occurs; on success the length is the hyphen-free length |
| `KeyCheck.CleanPrefix` | prison_game.c:189-194 | a failure in a prefix is a failure of the whole key, and a longer key never cleans shorter |
| `KeyCheck.Xor` | prison_game.c:205 | `^` of two ASCII codes is an ASCII code |
| `KeyCheck.XorOf` | prison_game.c:203-205 | the XOR of characters 4..7 stays below 128 |
| `KeyCheck.Sum` | prison_game.c:201-202 | the sum of a run of character codes, never negative |
| `KeyCheck.DigitCount` | prison_game.c:213-215 | the number of digits in a run, between 0 and the run's length |
| `KeyCheck.SumMatchesXor` | prison_game.c:199-205 | rule (a): the codes of characters 0..3 add up to the XOR of characters 4..7 |
| `KeyCheck.SumModSeven` | prison_game.c:207-210 | rule (b): the codes of characters 4..7 add up to 3 modulo 7 |
| `KeyCheck.OneDigitAtEnd` | prison_game.c:212-216 | rule (c): exactly one of characters 12..15 is a digit |
| `KeyCheck.IsValidKey` | prison_game.c:186-219 | the acceptance condition: the key cleans to 16 characters meeting rules (a), (b) and (c); an accepted buffer has at least 16 characters |
| `KeyCheck.SumAtLeast` | prison_game.c:201-202 | a run of key characters adds up to at least 48 per character |
| `KeyCheck.NoKeyIsValid` | prison_game.c:186-219 | `is_valid_key` returns 0 for every input |
| `KeyCheck.CleanOfPlainKey` | prison_game.c:189-196 | a key of alphanumerics alone cleans to its upper-case form |
| `KeyCheck.ExampleKeyCleans` | prison_game.c:189-196 | "aaaaaaacaaaaaaa1" cleans to "AAAAAAACAAAAAAA1" |
| `KeyCheck.ExampleKeyFailsOnlyRuleA` | prison_game.c:199-216 | that key meets the modulo-7 rule and the one-digit rule, and fails only the sum-equals-XOR rule |
| `KeyCheck.CleanPass` | prison_game.c:187-195 | the cleaning loop fills `clean` with the cleaned key and NUL-terminates it, or gives up on a foreign character or a seventeenth character |
| `KeyCheck.ChecksumPass` | prison_game.c:199-218 | the checksum loops return 1 exactly when all three rules hold |
| `KeyCheck.CheckKey` | prison_game.c:186-219 | the routine returns 1 exactly when the key cleans to 16 characters that meet all three rules |
| `Clock.Tick` | prison_game.c:877-891 | below hour 24 a step adds one minute, carrying into the hour; at hour 24 it starts the next day at hour 0 with the minute kept; ranges are preserved |
| `Clock.TickN` | prison_game.c:877-894 | that many iterations of the loop, which stops at day 365; the day never goes back and does not pass 365 |
| `Clock.TickNMonotone` | prison_game.c:877-891 | any number of steps keeps the clock in range and never moves the day or the time back |
| `Clock.ReachesHour24` | prison_game.c:879-885 | from any time before hour 24, the clock reaches hour 24 of the same day after the minutes left in the day |
| `Clock.DayLength` | prison_game.c:877-891 | a day from 00:00 to the next 00:00 takes 1441 steps |
| `World.Contains` | prison_game.c:379 | `strstr(..) != NULL`: a found needle is no longer than the description, and the empty needle is always found |
| `World.ContainsIffOccurs` | prison_game.c:379 | `Contains` holds exactly when the needle occurs at some position of the description |
| `World.FirstRoomMatching` | prison_game.c:377-391 | the room found is the first among the first `room_count` whose description contains the name, or none |
| `World.WithLock` | prison_game.c:931-951 | only the lock flag of the first matching room changes, and it takes the requested value |
| `World.WithLockIdempotent` | prison_game.c:931-940 | locking or unlocking the same room twice equals doing it once |
| `World.WithLockLastWins` | prison_game.c:931-951 | of a lock and an unlock by the same name, the later one decides |
| `World.InitialRooms` | prison_game.c:221-288 | the cell is locked; rooms 1..8 are open; the office is slot 8, outside the first `room_count` rooms |
| `World.Player.constructor` | prison_game.c:1017-1042 | a new player is a prisoner in the cell with full health and hunger, reputation 50, no money, a 365-day sentence and empty slots |
| `World.Player.Eat` | prison_game.c:606-613 | hunger rises to 100 when below it and is otherwise unchanged |
| `World.Player.Work` | prison_game.c:615-620 | money rises by exactly 5; hunger drops by 10, floored at 0 |
| `World.Player.HungerTick` | prison_game.c:899-906 | hunger drops by 10 with no floor |
| `World.Player.WriteDocument` | prison_game.c:988-997 | with fewer than 10 documents, the next slot gets the name and content and the count rises by one; otherwise nothing changes |
| `World.GameState.constructor` | prison_game.c:1044-1062 | the game starts on day 1 at 08:00, not over, with the initial room table and 8 reachable rooms |
| `World.GameState.TimeStep` | prison_game.c:877-891 | one iteration of the clock thread is `Clock.Tick` |
| `World.GameState.RunClock` | prison_game.c:873-898 | the clock thread runs until day 365, stays in range, and ends at `Clock.TickN` of the start time for some number of iterations |
| `World.GameState.LocateRoom` | prison_game.c:932-934 | the search loop returns `FirstRoomMatching` |
| `World.GameState.LockDoor` | prison_game.c:931-940 | the rooms become `WithLock(.., true)`, and the result says whether a room matched |
| `World.GameState.OpenDoor` | prison_game.c:942-951 | the rooms become `WithLock(.., false)`, and the result says whether a room matched |
| `World.GameState.SetAlarm` | prison_game.c:972-986 | "on" clears the busy flag of every inmate and nobody else; "off" changes nothing; other words are refused |
| `Commands.FirstItemNamed` | prison_game.c:720-721 | the item used is the first of the held items with that exact name, or none |
| `Commands.IsOpponent` | prison_game.c:625 | whom `fight` may challenge: an inmate that is not busy, alive or not |
| `Commands.FirstOpponent` | prison_game.c:624-625 | the opponent is the first inmate that is not busy, or none |
| `Commands.GotoRoom` | prison_game.c:377-391 | the player enters the first matching room only if it is unlocked; a locked or missing room leaves them where they were |
| `Commands.UseItem` | prison_game.c:719-733 | a held key in a locked room unlocks that room and nothing else; any other held item changes nothing; a missing item is reported |
| `Commands.SearchBed` | prison_game.c:688-704 | only in a cell and with `rand() % 100` below 30 is the note found; it is stored in the next slot if one is free and lost otherwise |
| `Commands.Fight` | prison_game.c:622-640 | `rand() % 100` below 50 gives the player +5 reputation and the opponent -20 relationship; otherwise the player loses 20 health and 5 reputation; with no opponent nothing changes |
| `Commands.EndTurn` | prison_game.c:1102-1111 | hunger is floored at 0; death is tested before the served sentence, and either ends the game |
| `NpcActivity.MayEnter` | prison_game.c:835-836 | the skip rules: no inmate enters an office, and neither the NPC's room nor the target is locked |
| `NpcActivity.NpcStep` | prison_game.c:828-865 | dead or busy NPCs stay put; an NPC moves only to the drawn room, and only if it is not an inmate entering an office and neither room is locked, and when all of that holds it does move; nothing but the room changes |
| `NpcActivity.OfficeNeverDrawn` | prison_game.c:832-835 | with `room_count` 8 the drawn room in the initial table is never the office |
| `NpcActivity.InitialTableStep` | prison_game.c:828-838 | on the initial table, a free NPC walks to the drawn room unless it stands in or drew the locked cell |
| `NpcActivity.NpcPass` | prison_game.c:828-865 | each of the first `npc_count` NPCs ends as `NpcStep` says, the rest are untouched, and every processed NPC ends the pass not busy |

## Left out

- Threads, the critical section, `Sleep` and thread creation. Only the sequential body of each thread is modelled: one clock step, one hunger step, one NPC pass.
- `rand()`: each draw is a parameter, and probabilities are not modelled.
- Console input and output: `printf`, `fgets`, and routines that only print state (`help`, `list_rooms`, `list_documents`, `read_document`, `print_status`, `show_inventory`, `look_around`, `check_door`, `view_logs`, `list_prisoners`, `talk_npc`, `talk_guard`). The NPC activity messages and their extra `rand()` draws are left out too, because they only print.
- The command tokenizer `handle_command` and its role checks. It is string plumbing; its branches for `lock_door`, `open_door`, `set_alarm` and `write` compare one space-free token with a prefix that contains a space, so they can never be taken. The operations themselves are modelled directly.
- The `sprintf` time strings and the process scan run at start-up (a Windows API call unrelated to the game logic).
- The event thread and `exit_prison`. They are not part of this model.
- The NPC table built by `initialize_npcs`. It claims 8 NPCs, fills 6, and leaves health, the alive flag and the busy flag uninitialised. `World.GameState.constructor` takes the table as a parameter instead.
- `World.Player.WriteDocument`: `is_secret` of a written slot keeps its previous value, because the C code never sets it. `strcpy` overflow of the fixed-size name and content buffers is not modelled.
- 32-bit `int` overflow of money, reputation, health and relationship. The model uses unbounded integers.
- `isalnum` and `toupper` outside ASCII. The model uses the C locale on 7-bit characters.
- `World.InitialRooms`: the C code leaves parts of the room table unwritten, and `state` is an uninitialised local of `main`. Room slot 9 is never written, and the model makes it a blank unlocked room. `initialize_items` never sets `item_count` for rooms 1, 3, 5, 6 and 8, and the model gives those rooms empty item lists.
- `Commands.UseItem`, `Commands.SearchBed` and `Commands.GotoRoom` take the player's room as an index that is valid by precondition. The C pointer always points into the room table.
