# Reactor escape room — a Dafny model of the game core

The game is a ten-minute countdown over six puzzle screens. A landing page and
a briefing lead to a hub. From the hub the player opens rooms in table order;
a room is open when it is the first or the room before it is solved. Each
puzzle screen answers the player's actions with one of three requests to the
controller: nothing, "solved", or "penalty of n seconds". Solving `room6`
wins. The clock reaching zero through the timer loses. A secret key sequence
grants bonus time and waives later penalties. A hint control on every room
screen charges seconds for revealing the room's hint, once per visit to the
room.

The model follows the source file by file:

| Dafny file | module | source |
|---|---|---|
| `types.dfy` | `Types` | `types.ts`, plus the request type (`Effect`) the rooms send through `onSolve`/`onPenalty` |
| `constants.dfy` | `Constants` | `constants.ts` |
| `strings.dfy` | `Strings` | the JavaScript built-ins the game relies on: `trim`, `toLowerCase`, `toString`, `padStart` |
| `game_layout.dfy` | `Layout` | `components/GameLayout.tsx` |
| `progression.dfy` | `Progression` | `App.tsx` |
| `rooms.dfy` | `Rooms` | `features/Rooms.tsx` |
| `hint_button.dfy` | `Hints` | `components/HintButton.tsx` |

Each component whose handlers update state becomes a class. Its fields are
the component's state, and each handler is one method, run as one atomic step.
The controller's transitions are also pure step functions on a `GameState`
value. `Progression.Controller`'s methods are proved to produce exactly those
steps and to keep `Progression.Invariant`. Properties of runs (many ticks, a
key sequence, playing every room) are lemmas over the step functions. A room
method returns the request it sends. Whether the room is already solved is a
parameter, as the controller passes it in (`isSolved`). A delayed
`setTimeout(onSolve, …)` is modelled as an immediate solve.

Three behaviours of the code are easy to misread:

- **`sudo`.** Room 3's `sudo` answer is neither solved nor penalised (`features/Rooms.tsx:229-232`).
- **Penalty to zero.** A penalty that takes the clock to zero does not end the game. The screen stays, `isActive` stays set, and no tick fires any more, because the timer is only armed while time is left (`App.tsx:23`). Only the tick body moves to `failure` (`App.tsx:29-33`). See `Progression.PenaltyToZeroDisarms`.
- **Terminal screens.** `success` and `failure` are not fully frozen. The key listener stays active on them, so completing the key sequence there still adds 300 seconds and sets bonus mode. What the model proves is weaker: the screen and the stopped clock stay as they are (`Progression.TerminalStays`).

## Model

| member | source | states |
|---|---|---|
| Types.ViewName | types.ts:1-12 | a screen is a room screen exactly when its name is `room` followed by a digit 1–6 |
| Constants.RoomIndex | constants.ts:5-66 | every room screen has a position in the table whose id is the screen's own name |
| Constants.RoomCount | constants.ts:5-66 | the table has exactly six entries |
| Constants.RoomEntry | constants.ts:6-65 | entry `i` has id `room<i+1>`, equal to its view's name; only the first entry is unlocked at the start; every entry has a non-empty hint |
| Constants.RoomOfView | constants.ts:7-8 | every room screen is the view of its own table entry |
| Constants.RoomsDistinct | constants.ts:5-66 | no id and no view appears twice in the table |
| Constants.TerminalIsLast | constants.ts:57 | the last entry is `room6`, and no earlier entry is |
| Strings.SkipForward | features/Rooms.tsx:217 | the forward scan stops at the first non-white-space character, having passed only white space |
| Strings.SkipBackward | features/Rooms.tsx:217 | the backward scan stops right after the last non-white-space character, having passed only white space |
| Strings.SkipForwardPadded | features/Rooms.tsx:217 | the forward scan over a white-space prefix stops exactly at the first character after it |
| Strings.SkipBackwardPadded | features/Rooms.tsx:217 | the backward scan over a white-space suffix stops exactly at its start |
| Strings.Trim | features/Rooms.tsx:217 | `trim` returns a piece of the input with only white space cut from either side, and the piece neither starts nor ends with white space |
| Strings.TrimPadded | features/Rooms.tsx:217 | any white space around a word is removed and the word is kept whole |
| Strings.TrimIdempotent | features/Rooms.tsx:217 | trimming twice is trimming once |
| Strings.LowerChar | features/Rooms.tsx:217 | an upper-case ASCII letter becomes its own lower-case counterpart; every other character is kept |
| Strings.ToLower | features/Rooms.tsx:217 | `toLowerCase` keeps the length, maps each character by itself, and leaves no upper-case ASCII letter |
| Strings.Decimal | components/GameLayout.tsx:19 | `toString` of a whole number is a non-empty string of digits without a leading zero, one digit below 10 and at most two below 100 |
| Strings.DigitChar | components/GameLayout.tsx:19 | the character written for a digit is a digit character that reads back as that digit |
| Strings.DigitValue | components/GameLayout.tsx:19 | a digit character reads as a value below ten |
| Strings.ValueOfDecimal | components/GameLayout.tsx:19 | reading the decimal string back gives the number |
| Strings.ValueOfLeadingZero | components/GameLayout.tsx:19 | a leading zero keeps a digit string a digit string and does not change its value |
| Strings.PadStart2 | components/GameLayout.tsx:19 | `padStart(2, '0')` leaves strings of two or more characters alone and left-fills shorter ones with zeros to width two |
| Strings.PadKeepsValue | components/GameLayout.tsx:19 | zero padding keeps the number a digit string denotes |
| Layout.FormatTime | components/GameLayout.tsx:16-20 | the display is digits, a colon, and exactly two digits; `FormatTimeRoundTrip` gives the two fields' values |
| Layout.ParseJoined | components/GameLayout.tsx:16-20 | a display of a non-empty minutes field, a colon and a two-digit seconds field parses to minutes times sixty plus seconds when the seconds field is below 60, and is rejected otherwise |
| Layout.FormatTimeRoundTrip | components/GameLayout.tsx:16-20 | the field before the colon reads as the whole minutes and the field after it as the remaining seconds, so the display parses back to the number of seconds, for every time |
| Layout.FormatTimeWidth | components/GameLayout.tsx:16-20 | the display is five characters exactly when the time is under 6000 seconds |
| Layout.MinutesZero | components/GameLayout.tsx:17-19 | the padded minutes start with `00` exactly when there are no whole minutes |
| Layout.IsCritical | components/GameLayout.tsx:22 | the low-time warning: under sixty seconds left; `CriticalIffZeroMinutes` ties it to the display |
| Layout.CriticalIffZeroMinutes | components/GameLayout.tsx:22 | the critical warning is on exactly when the display reads `00:SS` |
| Layout.IsActiveView | components/GameLayout.tsx:155-157 | play is under way on every screen but the landing page and the two end screens; `HeaderOnActiveViews` lists them |
| Layout.HeaderShown | components/GameLayout.tsx:61 | the header's own inline condition, the same three screens excluded; `HeaderOnActiveViews` lists where it holds |
| Layout.HeaderOnActiveViews | components/GameLayout.tsx:56-157 | the header and the active-play test (which gates the critical overlay) each hold on exactly the briefing, the hub and the six rooms |
| Layout.TitleStep | components/GameLayout.tsx:33-39 | one counted title click: the seventh resets the counter and opens the secret log; `TitleClicksModSeven` gives the effect of many |
| Layout.TitleClicksModSeven | components/GameLayout.tsx:30-40 | counted title clicks behave as a counter modulo 7: the secret log opens on every seventh click and the counter stays in 0..6 |
| Layout.GameLayout.constructor | components/GameLayout.tsx:12-14 | the sound flag starts as given, with no clicks counted and the secret log closed |
| Layout.GameLayout.HandleTitleClick | components/GameLayout.tsx:30-40 | ignored on the landing page; otherwise the counter advances modulo 7 and the seventh click opens the secret log |
| Layout.GameLayout.CloseSecret | components/GameLayout.tsx:112 | the secret log closes, and the counter stays in 0..6 |
| Layout.GameLayout.HandleMuteToggle | components/GameLayout.tsx:24-28 | the sound flag flips |
| Progression.FindIndex | App.tsx:194 | the first position holding the id, or -1 exactly when no entry holds it |
| Progression.FindByView | App.tsx:116 | the first entry shown as the view, or none exactly when no entry is |
| Progression.FindIndexOfDistinct | App.tsx:194 | in a table without repeated ids, looking up an entry's id finds that entry's position |
| Progression.FindByViewOfDistinct | App.tsx:116 | in a table without repeated views, looking up an entry's view finds that entry |
| Progression.IsUnlocked | App.tsx:194-195 | a tile is unlocked when its position is the first or the entry before it is solved; `UnlockedIff` restates it over the id list |
| Progression.UnlockedIff | App.tsx:194-195 | a hub tile is unlocked if and only if it is the first room or the room before it is solved |
| Progression.GetHint | App.tsx:115-118 | the hint of the table entry shown as the screen, else the empty string; `GetHintLookup` proves what it returns |
| Progression.GetHintLookup | App.tsx:115-118 | `getHint` gives a room screen its own entry's hint, which is non-empty, and every other screen the empty string |
| Progression.Initial | App.tsx:11-18 | the starting state: landing page, 600 seconds, nothing solved, clock stopped, key position 0, no bonus; `InitialInvariant` proves it satisfies the invariant |
| Progression.InitialInvariant | App.tsx:11-18 | the starting state satisfies the controller invariant |
| Progression.StartStep | App.tsx:66-70 | `startGame` keeps the invariant |
| Progression.EnterHubStep | App.tsx:72-76 | `enterHub` keeps the invariant |
| Progression.BackStep | App.tsx:241 | a room's back button keeps the invariant |
| Progression.SolveStep | App.tsx:88-101 | the room id is appended only if absent; the invariant is kept for every id in the room table |
| Progression.PenaltyStep | App.tsx:103-108 | a penalty keeps the invariant |
| Progression.OpenRoomStep | App.tsx:194-202 | a hub tile click keeps the invariant |
| Progression.OpenRoomOnlyWhenUnlocked | App.tsx:194-202 | a tile navigates to its room exactly when the room is unlocked, and otherwise changes nothing |
| Progression.TimerArmed | App.tsx:21-40 | the interval is armed exactly while `isActive && timeLeft > 0`; `Controller.Tick` requires it, and `TicksToFailure` and `PenaltyToZeroDisarms` state when it holds |
| Progression.TickStep | App.tsx:25-36 | the tick body keeps the invariant |
| Progression.KeyStep | App.tsx:44-59 | the key position stays in 0..9 and the invariant is kept |
| Progression.TickCountsDown | App.tsx:25-36 | above one second, a tick takes one second off and changes nothing else; at one second or less it ends the game lost with the clock at zero |
| Progression.PenaltyClamps | App.tsx:103-108 | outside bonus mode a penalty removes the amount, clamped at zero; in bonus mode nothing changes; only the clock is touched |
| Progression.PenaltyToZeroDisarms | App.tsx:103-108 | a penalty that empties the clock leaves the screen and the `isActive` flag as they were, and no tick is armed afterwards |
| Progression.SolveIdempotent | App.tsx:88-91 | solving twice equals solving once; the solved list gains no duplicate; the id is recorded |
| Progression.SolveOutcome | App.tsx:93-100 | solving `room6` wins and stops the clock; any other room returns to the hub with the clock flag unchanged; time is untouched |
| Progression.DelayedSolveStep | App.tsx:88-101 | a delayed solve, with the membership test on the solved list it saw when scheduled; with an up-to-date list it is `SolveStep` |
| Progression.DoubleSolveDuplicates | App.tsx:88-101 | two delayed solves of an unsolved room, both scheduled before either ran, record it twice and break the invariant |
| Progression.KeyAdvancesOrResets | App.tsx:44-59 | a matching key advances the position; any other key resets it to zero and changes nothing else |
| Progression.KeyRestartIsNotFirstKey | App.tsx:45-57 | after two up arrows a third resets the position to zero rather than counting as the first key again |
| Progression.TerminalStays | App.tsx:21-108 | on a finished game the clock is stopped and no penalty or key moves the game off its screen or restarts the clock |
| Progression.TicksToFailure | App.tsx:23-36 | from `n > 0` seconds, the first `n - 1` ticks only count down with the timer still armed, and the `n`-th tick ends the game lost at zero |
| Progression.ExpectedKey | App.tsx:44-55 | the expected key advances the sequence, and the last one grants bonus mode and 300 seconds |
| Progression.KonamiCompletes | App.tsx:44-55 | typing the rest of the key sequence from any position completes it: bonus mode on, 300 seconds added, position back at zero |
| Progression.BonusWaivesPenalties | App.tsx:44-108 | after the whole key sequence, every penalty is waived |
| Progression.OpenInOrder | App.tsx:194-202 | with the earlier rooms solved, the next room's tile opens it |
| Progression.SolveInOrder | App.tsx:88-101 | with the earlier rooms solved, solving the next records it next and returns to the hub, or wins when it is the last |
| Progression.RoundInOrder | App.tsx:88-202 | one round of opening the next room and solving it, from the hub |
| Progression.PlayInOrderWins | App.tsx:88-202 | playing the remaining rooms in table order wins, with all six ids recorded in order and the clock stopped |
| Progression.FreshGameWins | App.tsx:66-101 | a fresh game, started, entered and played room by room, is won with the full 600 seconds left |
| Progression.Controller.constructor | App.tsx:11-18 | the controller starts on the landing page with 600 seconds, nothing solved, the clock stopped, no bonus |
| Progression.Controller.StartGame | App.tsx:66-70 | performs `StartStep` and keeps the invariant |
| Progression.Controller.EnterHub | App.tsx:72-76 | performs `EnterHubStep` and keeps the invariant |
| Progression.Controller.ResetGame | App.tsx:78-86 | from any state, back to the starting state |
| Progression.Controller.HandleRoomSolve | App.tsx:88-101 | performs `SolveStep` and keeps the invariant |
| Progression.Controller.HandlePenalty | App.tsx:103-108 | performs `PenaltyStep` and keeps the invariant |
| Progression.Controller.OpenRoom | App.tsx:191-202 | performs `OpenRoomStep` and keeps the invariant |
| Progression.Controller.Back | App.tsx:241 | performs `BackStep` and keeps the invariant |
| Progression.Controller.Tick | App.tsx:23-36 | one firing of the armed timer performs `TickStep` and keeps the invariant |
| Progression.Controller.HandleKeyDown | App.tsx:44-59 | performs `KeyStep` and keeps the invariant |
| Rooms.LineClick | features/Rooms.tsx:42-53 | a click is ignored once solved; otherwise it selects the row and offers the fix exactly for the faulty row |
| Rooms.FixOnlyForBugLine | features/Rooms.tsx:30-53 | the fix is only ever offered with the faulty row selected, and that row is the un-awaited `systemCheck()` call |
| Rooms.Room1.constructor | features/Rooms.tsx:21-28 | no row selected, no fix offered, and the four opening log lines |
| Rooms.Room1.HandleLineClick | features/Rooms.tsx:42-53 | performs `LineClick`, keeps the log, and keeps the fix tied to the faulty row |
| Rooms.Room1.HandleFix | features/Rooms.tsx:55-61 | appends the three fix lines, withdraws the offer, and solves |
| Rooms.Apply | features/Rooms.tsx:111-116 | the truth table of each offered gate; `GateSolvesIffAny` singles out OR |
| Rooms.GateEffect | features/Rooms.tsx:118-129 | a gate click is ignored once solved and otherwise always solves or penalises |
| Rooms.GateSolvesIffAny | features/Rooms.tsx:111-129 | a gate solves if and only if it computes "either signal" on every input; every other gate costs 10 seconds |
| Rooms.Room2.constructor | features/Rooms.tsx:109 | no gate selected |
| Rooms.Room2.SelectGate | features/Rooms.tsx:118-129 | ignored once solved; otherwise marks the gate and sends `GateEffect` |
| Rooms.Classify | features/Rooms.tsx:219-241 | `4` solves; `coffee`, `sudo` and `42` do nothing; every other answer costs exactly 15 seconds |
| Rooms.Messages | features/Rooms.tsx:219-241 | two messages per answer, ending in "ACCESS GRANTED." exactly when the answer solves |
| Rooms.Normalize | features/Rooms.tsx:217 | the answer as compared: trimmed, then lower-cased; `VerdictIgnoresPaddingAndCase` states what that ignores |
| Rooms.Room3Verdict | features/Rooms.tsx:217-241 | the request a submission sends: the normalised answer classified; the three example lemmas below evaluate it |
| Rooms.Room3Reply | features/Rooms.tsx:221-240 | a submission adds three log lines, the first echoing the raw input, the last "ACCESS GRANTED." exactly when it solves |
| Rooms.PermissionArithmetic | features/Rooms.tsx:207-223 | read and write with the write bit toggled by exclusive or leaves 4, and that number written out is the answer that solves Room 3 |
| Rooms.VerdictIgnoresPaddingAndCase | features/Rooms.tsx:217 | white space around an answer is ignored, and the answer is judged in lower case |
| Rooms.ShoutedSudoIsHarmless | features/Rooms.tsx:217-232 | `" SUDO\n"` neither solves nor costs time |
| Rooms.PaddedAnswerSolves | features/Rooms.tsx:217-223 | `"4 "` solves |
| Rooms.LongerAnswerPenalised | features/Rooms.tsx:217-241 | `"sudo rm"` costs 15 seconds |
| Rooms.AppendKeepsShape | features/Rooms.tsx:221-240 | appending a three-line reply keeps every earlier line and the log's shape |
| Rooms.Room3.constructor | features/Rooms.tsx:204-205 | an empty field and the two opening log lines |
| Rooms.Room3.Type | features/Rooms.tsx:284 | the field holds the typed text |
| Rooms.Room3.HandleSubmit | features/Rooms.tsx:214-242 | sends the answer's verdict and appends its three-line reply, keeping every earlier line |
| Rooms.OptionEffect | features/Rooms.tsx:308-320 | an option click is ignored once solved and otherwise always solves or penalises |
| Rooms.OnlyLinearSolves | features/Rooms.tsx:302-320 | of the three offered algorithms, exactly the linear one solves; the others cost 20 seconds |
| Rooms.Room4.constructor | features/Rooms.tsx:299-300 | no option selected and no feedback |
| Rooms.Room4.Select | features/Rooms.tsx:308-320 | ignored once solved; otherwise marks the option, shows the matching feedback and sends `OptionEffect` |
| Rooms.Room5.constructor | features/Rooms.tsx:380 | the overlay starts in place |
| Rooms.Room5.HandleOverride | features/Rooms.tsx:382-387 | always solves, never penalises, and clears the overlay |
| Rooms.Room5.OverlayClick | features/Rooms.tsx:446-451 | a click on the overlay sends nothing |
| Rooms.StepClick | features/Rooms.tsx:479-495 | the expected button advances the counter by one, and only the last one solves; any other button costs 10 seconds and leaves the counter |
| Rooms.Requests | features/Rooms.tsx:479-495 | one request per click |
| Rooms.Remaining | features/Rooms.tsx:479-495 | the buttons still to press, in order |
| Rooms.SubsequenceTail | features/Rooms.tsx:479-495 | dropping the head of an in-order pattern keeps it in order |
| Rooms.CompletesIffInOrder | features/Rooms.tsx:479-495 | the release sequence completes if and only if the remaining buttons occur in the clicks in order; the counter never passes 3 |
| Rooms.RequestsCount | features/Rooms.tsx:479-495 | every click either advances the counter or costs 10 seconds; the room is solved at most once, and exactly once when the sequence completes |
| Rooms.InOrderPlay | features/Rooms.tsx:479-495 | the buttons in order 0, 1, 2 solve once and cost nothing |
| Rooms.Room6.constructor | features/Rooms.tsx:469 | the counter starts at zero |
| Rooms.Room6.HandleStep | features/Rooms.tsx:479-495 | performs `StepClick` and keeps the counter in 0..3 |
| Hints.Rendered | components/HintButton.tsx:30-66 | which control is drawn: the hint button while nothing is revealed or asked, cancel and confirm while the prompt is up, none once the hint is shown |
| Hints.HintStep | components/HintButton.tsx:14-35 | only drawn controls act: the hint button opens the prompt, cancel closes it free of charge, confirm reveals the hint, closes the prompt and charges exactly the cost; only confirming charges or reveals; a revealed hint never changes; never revealed and asking at once |
| Hints.ChargedOnce | components/HintButton.tsx:14-66 | over any presses the total charged is the cost if the hint got revealed during them and zero otherwise; a revealed hint stays revealed |
| Hints.FreshHintCharge | components/HintButton.tsx:14-66 | from a fresh control the total charged is at most the cost, and equals it exactly when the hint ends up shown |
| Hints.AskThenConfirm | components/HintButton.tsx:14-26 | ask then confirm charges the cost once, and later presses charge nothing |
| Hints.HintButton.constructor | components/HintButton.tsx:10-12 | cost 30 unless given; nothing revealed or asked |
| Hints.HintButton.HandleClick | components/HintButton.tsx:21-26 | opens the prompt only when nothing is revealed or asked yet |
| Hints.HintButton.HandleCancel | components/HintButton.tsx:35 | closes the prompt, free of charge |
| Hints.HintButton.HandleReveal | components/HintButton.tsx:14-19 | charges exactly the cost, shows the hint and closes the prompt |

## Left out

- Sound (`utils/sound.ts`): every `playSound`/`initAudio` call, the alarm in the last ten seconds, and the mute flag kept there. `GameLayout`'s mute toggle only flips its own copy of the flag.
- `components/RoomLoader.tsx` and the rooms' loading delay: a timed, randomised cosmetic screen that holds no game state.
- `components/TerminalOutput.tsx`: it only renders a log.
- All markup, styling and animation. This includes the hub tiles' texts, the secret log's content, the success screen's time display, Room 6's shake effect, and the bonus-mode colour filter.
- The room table's display texts (`name`, `description`, `icon`) are not part of `RoomConfig` here. No logic reads them.
- Room 4's option labels and code snippets are not modelled; only each option's id and advertised complexity are kept.
- The interval and listener lifecycle (`App.tsx:21-40`, `43-63`). Registration and cleanup are not modelled. A tick is a step that can only happen while the timer is armed, and a key press is a step that can happen at any time.
- The delays before `onSolve` (`setTimeout`, `features/Rooms.tsx:60`, `124`, `314`, `386`, `485`) are modelled as an immediate solve, and `Progression.Controller` and the run lemmas use that model. A pending solve runs `handleRoomSolve` whatever happened in between. Effects of the delay that the controller therefore does not capture include:
  - A solve still pending when the clock runs out moves `failure` to the hub, or to `success` for `room6` (`App.tsx:93-99`).
  - A solve still pending after the player has pressed BACK_TO_HUB (`features/Rooms.tsx:70`, `138`, `251`, `329`, `396`) and opened another unlocked room pulls the player out of that room to the hub.
  - A solve still pending after a reset (`App.tsx:78-86`) appends its id to the fresh game's empty list through `prev`. It then moves the landing page to the hub (to `success` for `room6`), skipping the briefing, and the clock never starts.
  - Two clicks on a solving control within the delay can both pass the stale `isSolved` guard (`features/Rooms.tsx:170`, `351`, `417`) and schedule two calls. Room 1's APPLY control (`features/Rooms.tsx:92`) is also guarded by `isSolved`, but its own handler hides it, so there both clicks must land before the next render. Both calls test the stale solved list (`App.tsx:89`) and append to the current one (`App.tsx:90`). So the room is recorded twice, and the player is sent to the hub a second time. The no-duplicates part of `Progression.Invariant` holds only because solves are immediate. This case is modelled separately under "## Findings".
- `Progression.OpenRoomStep`: models the hub tile click (`isUnlocked && navigateToRoom(room.view)`). `navigateToRoom` is called from nowhere else.
- `Strings.ToLower`: lower-cases ASCII letters only. No other character lowercases to a letter of `coffee`, `sudo` or `4`/`42`, except U+212A KELVIN SIGN, which lowercases to `k` and occurs in none of them. So Room 3's verdicts are unaffected.
- `Layout.FormatTime`: defined for whole numbers of seconds of zero or more, which is every value the controller holds. JavaScript's result for negative or fractional input is not modelled.
- `Hints.HintButton`: models one mount of the control. A room, and its hint control with it, is mounted only while its screen is shown (`App.tsx:240-251`), and the control's state is its own (`components/HintButton.tsx:11-12`). Leaving a room and coming back gives a fresh control, so the same hint can be bought again. `Hints.ChargedOnce` and `Hints.FreshHintCharge` bound the charge per visit, not per game.
- `Progression.Controller.HandlePenalty` and `Hints.HintButton.constructor`: amounts and costs are whole numbers, as every caller passes.
- `Rooms.Room1.HandleFix`, `Rooms.Room3.HandleSubmit`, `Rooms.Room5.HandleOverride`: these controls are drawn only while the room is unsolved (`features/Rooms.tsx:92`, `275`, `417`). The handlers themselves do not check `isSolved`, so the methods take no such argument.
- `Rooms.Room6.HandleStep`: in the running game only the expected button is enabled (`features/Rooms.tsx:512-539`), so the penalty branch is unreachable from the screen. The handler's branch is still modelled as written.

## Findings

| source | as written | input that shows it | evidently intended | confidence | as-written member | corrected member |
|---|---|---|---|---|---|---|
| App.tsx:88-91 | `handleRoomSolve` tests the solved list captured when the delayed call was scheduled, and appends to the current list | in Room 2, click OR twice within one second (`features/Rooms.tsx:124`, `170`) | a room is recorded at most once, as the membership test intends | high, by reading; not executed | Progression.DoubleSolveDuplicates | Progression.SolveIdempotent |
