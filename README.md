# mind-glance games and trackers, modelled in Dafny

mind-glance is a React Native wellbeing app. This project models the parts of it
that follow fixed rules:

- **Sudoku.** The level menu and the level page. The page generates a solved
  grid from a pattern, band-wise row and column shuffles and a relabelling of the
  digits, then clears cells. It also handles cell selection and digit entry, the
  solution check with its XP reward and level unlock, and hints.
- **The word game.** A five-letter target from a fixed list and up to six
  guesses typed on an on-screen keyboard. It gives feedback per letter, keeps a
  list of eliminated letters, and pays out XP and letter hints.
- **The memory-match game.** A Fisher–Yates shuffle of eight emoji pairs and a
  turn-two-cards machine that keeps matched pairs up and turns unequal ones back.
  Hints turn up a hidden pair.
- **The to-do list.** Add, toggle, delete and edit tasks, with the displayed
  order putting open tasks first.
- **The frame store.** The frame catalogue and the purchase of a frame with mana.
- **The home screen.** XP turning into levels and mana, the in-level XP shown,
  and the mood check-in.

How the code is written follows the source.

- **Stateful screens are classes.** `SudokuLevel.LevelPage`, `Wordle.WordleGame`
  and `Memory.MemoryMatch` are classes whose methods update fields.
- **Boards and decks are arrays.** The Sudoku boards are `array2<int>` and the
  memory deck is an `array<Card>`. They are updated in place, as the source
  updates its shared row arrays and card objects.
- **Each method is proved against a specification function.** Examples are
  `SolvedGrid`/`Puzzle`, `Candidates`, `OpenCells`, `FisherYates`, `HintPair`,
  `Unrevealed` and `NotInWord`. The properties are proved about those functions
  as lemmas.
- **Pure handlers are functions on values.** The to-do list, store and home
  handlers are written this way.

Storage, randomness and the clock become parameters.

- **Stored values come in as `Option`.** Anything read from `AsyncStorage`
  arrives as an `Option` value. `None` means nothing was stored.
- **Random choices are supplied or left open.** Every `Math.random` choice is
  one of two kinds:
  - a caller-supplied permutation or list of draws. These are the shuffles, each
    with a precondition saying it is one;
  - a free choice among the allowed values (`:|`). These are the random picks
    of the hint functions.
- **`Date.now()` is a parameter.** Its string becomes the `now` parameter of
  `Todo.AddTask`.

A pair turned up by a memory hint stays face up and unmatched. `HandlePress`
ignores face-up cards. The last `ensures` of `HandlePress`, `ResolveMismatch` and
`UseHint` each keep a face-up, unmatched, unselected card as it is. So once a hint
has been used, that pair is never matched in the game, and the win reward
(+50 XP when every card is matched) cannot be paid.

## Model

| member | source | states |
|---|---|---|
| SudokuGrid.Pattern | app/games/sudokulevels.tsx:41-42 | `pattern(r, c)` is always a digit index 0..8 |
| SudokuGrid.PatternRowInjective | app/games/sudokulevels.tsx:41-42 | along any row the pattern takes nine different values |
| SudokuGrid.PatternColInjective | app/games/sudokulevels.tsx:41-42 | down any column the pattern takes nine different values |
| SudokuGrid.PatternBoxInjective | app/games/sudokulevels.tsx:41-42 | inside one 3x3 box two cells with the same pattern value are the same cell |
| SudokuGrid.BandShuffleFacts | app/games/sudokulevels.tsx:38 | a shuffle of `rBase` holds 0, 1 and 2 once each |
| SudokuGrid.BandOrder | app/games/sudokulevels.tsx:44-46 | the `flatMap` over the three bands gives nine line indices, band g contributing `3g` plus its own shuffle of 0..2 |
| SudokuGrid.BandOrderIsBandPermutation | app/games/sudokulevels.tsx:44-46 | `rows` and `cols` are permutations of 0..8 that keep every index inside its own band |
| SudokuGrid.BandOrderAt | app/games/sudokulevels.tsx:44-46 | entry i is `3*(i/3)` plus the band shuffle's entry, so it stays in band i/3 |
| SudokuGrid.DigitShuffleIsRelabelling | app/games/sudokulevels.tsx:47 | a shuffle of 1..9 is nine distinct digits |
| SudokuGrid.SolvedGrid | app/games/sudokulevels.tsx:49-51 | the `Array.from` grid is 9x9, cell (r, c) holding `nums[pattern(rows[r], cols[c])]` |
| SudokuGrid.IsValidUnit | app/games/sudokulevels.tsx:89-90 | `isValid`: the `Set` of the nine values has size 9 and every value is in 1..9, so a valid unit holds only digits |
| SudokuGrid.IsSolved | app/games/sudokulevels.tsx:92-101 | the loop runs to its end: a 9x9 grid whose row, column and box i pass `isValid` for every i, so every row holds only digits |
| SudokuGrid.ValidUnitIff | app/games/sudokulevels.tsx:89-90 | `isValid` (Set size 9, all values in 1..9) holds exactly when the nine values are distinct digits |
| SudokuGrid.RelabelledPatternIsSolved | app/games/sudokulevels.tsx:41-51 | for any band-preserving row/column permutations and any relabelling by distinct digits, every row, column and box passes `isValid` |
| SudokuGrid.RowIsUnit | app/games/sudokulevels.tsx:41-51 | each row of the generated grid is a valid unit |
| SudokuGrid.ColIsUnit | app/games/sudokulevels.tsx:41-51 | each column of the generated grid is a valid unit |
| SudokuGrid.BoxIsUnit | app/games/sudokulevels.tsx:41-51 | each box of the generated grid is a valid unit |
| SudokuGrid.BoxCellsDiffer | app/games/sudokulevels.tsx:41-51 | two different positions of a box of the generated grid hold different digits |
| SudokuGrid.BandCellsDiffer | app/games/sudokulevels.tsx:41-46 | band-preserving permutations keep the pattern injective inside a box |
| SudokuGrid.GeneratedGridIsSolved | app/games/sudokulevels.tsx:38-51 | before clearing, with shuffled bands and a shuffle of 1..9, the grid contains each of 1..9 exactly once in every row, column and box |
| SudokuGrid.AllCoordsCoverBoard | app/games/sudokulevels.tsx:54-60 | `allCoords` names every cell of the board exactly once and nothing else |
| SudokuGrid.Clues | app/games/sudokulevels.tsx:53 | `81 - Math.floor((difficulty / 20) * 40)` is `81 - 2·difficulty` for an integer difficulty |
| SudokuGrid.ClearCount | app/games/sudokulevels.tsx:53 | `81 - clues` is exactly twice the difficulty |
| SudokuGrid.SolvedCellsAreDigits | app/games/sudokulevels.tsx:89-90 | every cell of a grid that passes the check holds a digit 1..9 |
| SudokuGrid.Puzzle | app/games/sudokulevels.tsx:62-66 | the board after clearing: 0 on the cleared cells and the solution on every other cell, still 9x9 |
| SudokuGrid.PuzzleClearsExactly | app/games/sudokulevels.tsx:53-66 | clearing a shuffle of `allCoords` empties exactly the first `81 - clues` shuffled cells, 2·difficulty distinct cells, and every other cell keeps its solved value |
| SudokuGrid.Nonzero | app/games/sudokulevels.tsx:169-176 | `.filter(v => v !== 0)` keeps exactly the non-zero values |
| SudokuGrid.Possible | app/games/sudokulevels.tsx:178-180 | the filter of 1..9 keeps exactly the digits in none of row, column and box |
| SudokuGrid.Candidates | app/games/sudokulevels.tsx:168-180 | the digits `generateSolution` picks from are exactly the digits 1..9 absent from the cell's row, column and box |
| SudokuGrid.OpenCells | app/games/sudokulevels.tsx:142-148 | a cell is open exactly when it is on the board and is 0 in both `original` and `board` |
| SudokuLevel.AdvanceProgress | app/games/sudokulevels.tsx:107-115 | the stored frontier changes only when the level is the frontier (1 when none is stored) and below 20, and then it becomes level + 1 |
| SudokuLevel.AdvanceKeepsFrontierInRange | app/games/sudokulevels.tsx:107-115 | a frontier in 1..20 stays in 1..20 and rises by at most one |
| SudokuLevel.CollectCoords | app/games/sudokulevels.tsx:54-60 | the nested loops build exactly `allCoords` |
| SudokuLevel.FillSolved | app/games/sudokulevels.tsx:49-51 | the new board holds the solved grid |
| SudokuLevel.ShuffledCoordsOnBoard | app/games/sudokulevels.tsx:62 | a shuffle of `allCoords` has 81 entries, all on the board |
| SudokuLevel.ClearFirst | app/games/sudokulevels.tsx:63-66 | the loop sets exactly the first n shuffled cells to 0 and leaves every other cell as it was |
| SudokuLevel.GenerateBoard | app/games/sudokulevels.tsx:40-66 | the generated board is the solved grid with exactly the cleared cells set to 0 |
| SudokuLevel.CopyGrid | app/games/sudokulevels.tsx:68-69 | the deep copy is a new array with the same cells |
| SudokuLevel.GenerateBoards | app/games/sudokulevels.tsx:40-69 | `board` and `original` are two separate new arrays, both equal to the generated puzzle |
| SudokuLevel.ScanSolution | app/games/sudokulevels.tsx:88-101 | the early-return loop succeeds exactly when every row, column and box has nine distinct values in 1..9 |
| SudokuLevel.UnitsOfGridIff | app/games/sudokulevels.tsx:89-90 | `isValid` on each row, column and box means distinct digits there |
| SudokuLevel.CollectOpenCells | app/games/sudokulevels.tsx:142-150 | `empties` holds exactly the cells where both `original` and `board` are 0 |
| SudokuLevel.PickOpenCell | app/games/sudokulevels.tsx:142-157 | no cell exactly when none is open; otherwise the cell picked is open, i.e. 0 in both boards |
| SudokuLevel.GenerateSolution | app/games/sudokulevels.tsx:168-181 | the digit returned is absent from the cell's row, column and box; `undefined` exactly when every digit 1..9 already appears there |
| SudokuLevel.LevelPage.constructor | app/games/sudokulevels.tsx:16-69 | stored XP and hints with defaults 0 and 3; `board` and `original` both equal the generated puzzle; nothing selected; the page invariant (given cells never change, a selected cell is never a given) holds |
| SudokuLevel.LevelPage.HandleSelect | app/games/sudokulevels.tsx:72-76 | a cell is selected only when it was empty after generation; otherwise the selection stays |
| SudokuLevel.LevelPage.HandleInput | app/games/sudokulevels.tsx:78-84 | with no selection nothing changes; otherwise n is written into exactly the selected cell; `original` never changes |
| SudokuLevel.LevelPage.CheckSolution | app/games/sudokulevels.tsx:88-115 | success exactly when the board is solved; then +100 XP and the frontier advances by `AdvanceProgress`; on failure XP and frontier are unchanged |
| SudokuLevel.LevelPage.UseHint | app/games/sudokulevels.tsx:137-182 | nothing changes with no hints or no open cell; otherwise exactly one open cell is filled, with a digit absent from its row, column and box (or `undefined` when there is none), and one hint is spent |
| SudokuMenu.UnlockedLevel | app/games/sudoku.tsx:7-13 | the frontier is 1 when no progress is stored, the stored value otherwise |
| SudokuMenu.Levels | app/games/sudoku.tsx:32 | the list has twenty entries, entry i being i + 1 |
| SudokuMenu.LevelsAreOneToTwenty | app/games/sudoku.tsx:32 | the selectable levels are exactly 1..20, in increasing order |
| SudokuMenu.IsUnlocked | app/games/sudoku.tsx:37 | a level button is drawn unlocked when `item <= unlockedLevel`; level 1 is open whenever the frontier is at least 1 |
| SudokuMenu.GoToLevel | app/games/sudoku.tsx:18-25 | navigation to a level happens exactly when the level is shown unlocked (`level <= unlockedLevel`) |
| SudokuMenu.SolvingFrontierUnlocksNext | app/games/sudoku.tsx:18-37 | solving the frontier level below 20 makes the next level reachable, open levels stay open, and level 21 never opens |
| Wordle.ToLowerChar | app/games/wordle.tsx:67 | an upper-case ASCII letter becomes its lower-case letter; any other character is unchanged |
| Wordle.ToUpperChar | app/games/wordle.tsx:118 | a lower-case ASCII letter becomes its upper-case letter; any other character is unchanged |
| Wordle.ToLower | app/games/wordle.tsx:67 | `toLowerCase()` maps every character through `ToLowerChar` and keeps the length |
| Wordle.ToLowerNormalises | app/games/wordle.tsx:67 | lower-casing leaves no upper-case letter, does nothing to a text without one, and is idempotent |
| Wordle.WordListWellFormed | app/games/wordle.tsx:12-14 | every word of the list has five lower-case letters |
| Wordle.TargetFor | app/games/wordle.tsx:24-26 | the lower-cased word drawn from the list is the list word itself, of length 5 |
| Wordle.Feedback | app/games/wordle.tsx:121-129 | one mark per guess letter: exact iff it equals the target's letter there, present iff not exact and in the target, absent iff not in the target |
| Wordle.AllExactIffCorrect | app/games/wordle.tsx:121-129 | a guess of the target's length is all exact exactly when it is the target |
| Wordle.RepeatedLetterAllMarked | app/games/wordle.tsx:121-129 | there is no duplicate-letter counting: "eeeee" against "melon" gets one exact and four present marks |
| Wordle.NotInWord | app/games/wordle.tsx:72-74 | the letters it collects are exactly the guess letters absent from the target and not yet eliminated |
| Wordle.NotInWordKeepsRepeats | app/games/wordle.tsx:72-75 | a newly absent letter is added once for every time it occurs in the guess |
| Wordle.Unrevealed | app/games/wordle.tsx:105-107 | the positions are exactly those where no guess has the target's letter |
| Wordle.CorrectGuessRevealsAll | app/games/wordle.tsx:105-112 | once the target has been guessed, no position is left to hint |
| Wordle.GuessingShrinksUnrevealed | app/games/wordle.tsx:105-107 | a further guess never makes a revealed position unrevealed again |
| Wordle.PickUnrevealed | app/games/wordle.tsx:109-114 | no index exactly when nothing is unrevealed; otherwise the index picked is unrevealed |
| Wordle.WordleGame.constructor | app/games/wordle.tsx:24-33 | a target from the list, empty guesses and buffer, game on, nothing eliminated, hints not loaded yet |
| Wordle.WordleGame.LoadData | app/games/wordle.tsx:35-43 | XP becomes the stored value when there is one; the hint count becomes the stored one or 3 |
| Wordle.WordleGame.AddXp | app/games/wordle.tsx:45-49 | XP rises by the amount |
| Wordle.WordleGame.ResetGame | app/games/wordle.tsx:51-61 | a new list target; guesses, buffer, eliminated letters, hint and game-over flag cleared; exactly 10 XP added; the invariant that no eliminated letter is in the target is kept |
| Wordle.WordleGame.HandleGuess | app/games/wordle.tsx:63-85 | a guess not of length 5 changes nothing; otherwise the lower-cased guess is appended, the buffer emptied, the new absent letters appended, and the game ends with +50 XP on a win or when the sixth guess is used; eliminated letters stay absent from the target |
| Wordle.WordleGame.HandleKeyPress | app/games/wordle.tsx:87-96 | nothing once the game is over; backspace drops the last letter (nothing on an empty buffer); enter submits; any other key is appended lower-cased only while the buffer holds fewer than 5, so it never exceeds 5 |
| Wordle.WordleGame.GetHint | app/games/wordle.tsx:98-119 | nothing before the count is loaded; with no hints or nothing unrevealed the count stays and the refusal is shown; otherwise the count drops by exactly 1 and the position shown (from 1) is one no guess matched, with its letter in upper case |
| Memory.PairsCount | app/games/memory.tsx:44 | `[...EMOJIS, ...EMOJIS]` holds each emoji exactly twice and nothing else |
| Memory.Swap | app/games/memory.tsx:18 | the destructuring swap exchanges positions i and j and changes nothing else |
| Memory.SwapsDownPermutes | app/games/memory.tsx:16-19 | any sequence of such swaps is a permutation |
| Memory.FisherYates | app/games/memory.tsx:14-21 | `shuffleArray` with its draws given: the swaps from the last index down to 1, keeping the length |
| Memory.FisherYatesPermutes | app/games/memory.tsx:14-21 | the shuffle is a permutation of its input of the same length |
| Memory.ShuffleArray | app/games/memory.tsx:14-21 | the loop over a copy, swapping i with a draw j in 0..i from the last index down to 1, returns the Fisher–Yates shuffle, a permutation of the input; the input is a value and is not changed |
| Memory.Unmatched | app/games/memory.tsx:95 | `cards.filter(card => !card.matched && !card.flipped)`, in deck order, never longer than the deck |
| Memory.FirstSeen | app/games/memory.tsx:98-101 | the keys of `seen` in insertion order are distinct and are exactly the emojis with recorded ids |
| Memory.FirstPairIn | app/games/memory.tsx:103 | no pair exactly when no key has two ids; otherwise the pair is the two ids of the first key that has two |
| Memory.CollectSeen | app/games/memory.tsx:96-101 | the `forEach` fills `seen` with exactly the ids of the hidden cards per emoji, keys in insertion order |
| Memory.FindPair | app/games/memory.tsx:103 | the `find` over `Object.values(seen)` returns the specified first pair |
| Memory.HintPair | app/games/memory.tsx:95-104 | the pair `useHint` turns up: the first emoji of `seen` with two ids among the face-down unmatched cards; it needs at least two such cards |
| Memory.FindHintPair | app/games/memory.tsx:95-104 | the search of `useHint` returns `HintPair` |
| Memory.HiddenPositions | app/games/memory.tsx:95-101 | the ids recorded for an emoji come from hidden cards showing it, at increasing positions |
| Memory.HintPairSound | app/games/memory.tsx:95-104 | a hint pair is two different face-down unmatched cards, in deck order, showing the same emoji |
| Memory.HintPairComplete | app/games/memory.tsx:95-104 | with no emoji on more than two cards, a hint pair is found exactly when two face-down unmatched cards show the same emoji |
| Memory.Deal | app/games/memory.tsx:44-49 | card i has id i, the i-th shuffled emoji, and is face down and unmatched |
| Memory.DealtDeckIsPairs | app/games/memory.tsx:43-49 | a dealt deck has 16 cards, each emoji on exactly two, and always offers a hint pair |
| Memory.NewDeck | app/games/memory.tsx:43-50 | the dealt deck is a new array that satisfies the board invariant with nothing selected |
| Memory.WithFlipped | app/games/memory.tsx:58-59 | only card i has its face changed |
| Memory.WithMatched | app/games/memory.tsx:68-69 | only card i is marked matched |
| Memory.FlipKeepsEmojis | app/games/memory.tsx:77-80 | turning a card moves no emoji |
| Memory.MatchKeepsEmojis | app/games/memory.tsx:68-69 | marking a card matched moves no emoji |
| Memory.Consistent | app/games/memory.tsx:43-85 | the board invariant every handler keeps: 16 cards with id equal to position, each emoji on two cards, matched cards face up, at most two selected, all face up and unmatched, and two selected ones unequal |
| Memory.DealtDeckConsistent | app/games/memory.tsx:43-53 | a fresh deal with nothing selected is a consistent board |
| Memory.PressFirstConsistent | app/games/memory.tsx:56-62 | turning up the first card of a turn keeps the board consistent |
| Memory.PressMismatchConsistent | app/games/memory.tsx:64-83 | a second, unequal card leaves a consistent board with a pending pair |
| Memory.PressMatchConsistent | app/games/memory.tsx:64-71 | a second, equal card is a different card, and matching both leaves a consistent board with nothing selected |
| Memory.ResolveConsistent | app/games/memory.tsx:77-82 | turning a pending pair back leaves a consistent board with nothing selected |
| Memory.HintConsistent | app/games/memory.tsx:106-108 | turning up two hidden cards keeps the board and the turn consistent |
| Memory.MemoryMatch.constructor | app/games/memory.tsx:24-41 | stored XP and hints with defaults 0 and 3, then a freshly dealt deck, no moves, nothing selected |
| Memory.MemoryMatch.ResetGame | app/games/memory.tsx:43-53 | 16 cards dealt from the shuffle, each emoji twice, all face down and unmatched, id equal to position; moves 0 and nothing selected |
| Memory.MemoryMatch.AddXp | app/games/memory.tsx:87-91 | XP rises by the amount |
| Memory.MemoryMatch.HandlePress | app/games/memory.tsx:55-85 | a face-up or matched card, or a press with two selected, changes nothing, so at most two are ever selected; otherwise the card turns up; as the second of a turn it adds exactly one move and either matches both (selection cleared, +50 XP when every card is matched) or leaves the pair pending |
| Memory.MemoryMatch.ResolveMismatch | app/games/memory.tsx:77-82 | the deferred step turns exactly the two pending cards face down and clears the selection; no matched flag changes |
| Memory.MemoryMatch.UseHint | app/games/memory.tsx:93-114 | nothing changes with no hints or no hint pair; otherwise exactly the hint pair (two hidden cards with the same emoji) is turned up and one hint spent; moves, matches and selection unchanged; face-up unmatched cards outside the turn, the hinted ones among them, stay as they are |
| Todo.TrimStart | app/todo.tsx:39 | the leading white space, and only it, is dropped |
| Todo.TrimEnd | app/todo.tsx:39 | the trailing white space, and only it, is dropped |
| Todo.Trim | app/todo.tsx:39 | `trim()` returns a contiguous slice of the text; which characters it drops is stated by `TrimStart`, `TrimEnd` and `TrimEmptyIffBlank` |
| Todo.TrimEmptyIffBlank | app/todo.tsx:39 | a text trims to "" exactly when it is all white space |
| Todo.TrimIdempotent | app/todo.tsx:39 | a trimmed text has no white space at either end, and trimming again changes nothing |
| Todo.AddTask | app/todo.tsx:38-47 | a blank text changes nothing; otherwise one open task with the given text, due date and priority is appended after the earlier ones, and the form resets with priority Medium |
| Todo.ToggleTask | app/todo.tsx:49-55 | exactly the tasks with the id have their done flag flipped |
| Todo.ToggleTwiceRestores | app/todo.tsx:49-55 | toggling the same id twice restores the list |
| Todo.ToggleKeepsEverythingElse | app/todo.tsx:49-55 | only done flags change, and only on tasks with the id |
| Todo.DeleteTask | app/todo.tsx:64-66 | the result holds exactly the tasks without the id |
| Todo.DeleteIsOrderPreserving | app/todo.tsx:64-66 | deleting distributes over concatenation, so the survivors keep their order |
| Todo.DeleteAbsentIsIdentity | app/todo.tsx:64-66 | deleting an id no task has changes nothing |
| Todo.StartEditTask | app/todo.tsx:68-78 | the dialog opens on the task's id, text, due date and priority; tasks and form unchanged |
| Todo.CloseModal | app/todo.tsx:92-103 | the dialog closes, its fields reset, tasks and form unchanged |
| Todo.ApplyEdit | app/todo.tsx:82-88 | exactly the tasks with the id get the edited text, due date and priority |
| Todo.SaveEditTask | app/todo.tsx:80-90 | with no edited id nothing changes; otherwise the matching tasks get the edits and keep id and done, the others stay, and the dialog closes |
| Todo.OpenTasks | app/todo.tsx:105 | the open tasks in list order: a task is in it exactly when it is in the list and not done |
| Todo.DoneTasks | app/todo.tsx:105 | the done tasks in list order: a task is in it exactly when it is in the list and done |
| Todo.SortedTasks | app/todo.tsx:105 | `[...tasks].sort(...)` with the stable comparator `Number(a.done) - Number(b.done)`: the open tasks, then the done ones; it shows exactly the tasks of the list |
| Todo.SortedIsPermutation | app/todo.tsx:105 | the displayed list holds exactly the tasks, each as often |
| Todo.SortedOpenFirst | app/todo.tsx:105 | in the displayed list no done task comes before an open one |
| Todo.SortedIsStable | app/todo.tsx:105 | open tasks keep their relative order, and so do done tasks |
| Todo.SortedIsStableSort | app/todo.tsx:105 | the displayed list is exactly what a stable insertion sort by the key `Number(done)` gives, ties in input order |
| Store.CatalogueWellFormed | app/store.tsx:14-33 | the constant `Frames`, the source's `frames` catalogue, has three frames with distinct ids and positive costs |
| Store.Purchase | app/store.tsx:50-68 | an owned frame is refused, then an unaffordable one, each with nothing changed; otherwise the id is appended and exactly the cost is paid |
| Store.PurchaseKeepsDistinct | app/store.tsx:51-61 | the owned list never gets a duplicate id |
| Store.PurchaseKeepsManaNonNegative | app/store.tsx:56-62 | non-negative mana stays non-negative |
| Store.PurchaseOnlyAdds | app/store.tsx:51-64 | a purchase never removes a frame and adds only the one bought |
| Home.TargetLevel | app/home.tsx:50 | the target level is the one whose XP band of 100 contains xp |
| Home.LevelUp | app/home.tsx:49-60 | the level becomes the target only when that is higher, and mana rises by exactly the levels gained |
| Home.LevelUpMonotoneAndIdempotent | app/home.tsx:49-60 | the level and mana never drop, the level reaches at least the target, and running the effect again changes nothing |
| Home.TargetLevelMonotone | app/home.tsx:50 | more XP never gives a lower target level |
| Home.ManaTracksLevels | app/home.tsx:49-60 | starting from level 1, mana gained is exactly xp / 100 |
| Home.InLevelXp | app/home.tsx:143 | `xp % xpPerLevel` with JavaScript's sign rule: in 0..99 for non-negative xp and differing from xp by a multiple of 100 |
| Home.InLevelXpIsRemainder | app/home.tsx:143 | for non-negative xp the shown value is what the current level has not consumed |
| Home.HandleMoodResponse | app/home.tsx:88-96 | the dialog always closes, and the message is the one for the answer |
| Home.MoodMessagesDistinct | app/home.tsx:88-96 | "great", "okay" and "bad" get three different non-empty messages; anything else gets the empty one |

## Left out

- Persistence: `AsyncStorage` reads and writes, and `parseInt` of stored strings, in every screen. A stored value arrives as an `Option<int>`. A stored frontier that `CheckSolution` advances goes back out as its result.
- Randomness: no claim is made about the distribution of any `Math.random` choice. The Sudoku `shuffle` is a sort with a random comparator. It is modelled only as "some permutation", a precondition on the supplied `rowShuffles`, `colShuffles`, `nums` and `shuffleCoords`.
- The one-second `setTimeout` before an unequal pair turns back is modelled as the explicit step `Memory.MemoryMatch.ResolveMismatch`, with no timing.
- React state timing is left out. Each handler is one atomic sequential update, so there is no batching of `setState`. There are no stale closures either, so the `moves + 1` shown in the win alert is not modelled.
- Todo.CloseModal: the source resets the edit fields only in the callback of the 200 ms fade-out (app/todo.tsx:92-103), and the dialog stays up until then. The model closes the dialog and resets the fields at once.
- Memory.MemoryMatch.ResetGame: a turn-back still pending at a reset is dropped in the model. In the source the one-second timer of app/games/memory.tsx:77-82 still fires after a restart. It turns the two cards face down in the old deck's array and then calls `setCards([...updated])` and `setSelected([])` with that array. So a restart less than a second after a mismatch puts the old deck back on screen, with those two cards face down, while `moves` stays 0. The model does not capture this stale closure.
- Rendering, styles, alerts, keyboard layout, colours and router navigation. Feedback is the classification `LetterFeedback`, not colours, and alerts are the `Outcome` and `HintNote` values.
- The disabling of eliminated keys on the keyboard is rendering only; `HandleKeyPress` accepts any key, as the handler does.
- `isComplete` in app/games/sudokulevels.tsx:86 is declared but never called, so it is not modelled.
- Letter case: `toLowerCase` and `toUpperCase` are modelled on ASCII letters only. Every word of the list and every letter key is ASCII.
- Wordle.WordleGame.HandleGuess requires `!gameOver`. The handler does not check the flag itself, but its only caller, `handleKeyPress`, returns first when the game is over.
- The Sudoku clue count `81 - Math.floor((difficulty / 20) * 40)` is computed on integers. For an integer difficulty it is exact: 2·difficulty cells are cleared.
- `GenerateBoard` and the page constructor require at most 81 cells cleared, i.e. difficulty at most 40. The menu lists only levels 1..20, but the "Next Level" button of the success alert (app/games/sudokulevels.tsx:126-131) opens `parsedLevel + 1` with no upper bound, so levels 21 and up are reachable. From level 41 on, `81 - clues` exceeds 81 and the clearing loop of `generateBoard` destructures `shuffleCoords[81]`, which is `undefined`, and throws. The model excludes that error path by the precondition and does not model the "Next Level" navigation.
- The `undefined` a Sudoku hint writes when no digit fits is modelled by the sentinel `SudokuLevel.Undefined` = −1. Like `undefined`, it is neither 0 nor a digit.
- The optional `dueDate` and `priority` of a task are plain fields, because `addTask`, the only place tasks are created, always sets both. The id comes from `Date.now()` as the parameter `now`.
- `saveEditTask`'s `!editingTaskId` test is treated as "no task" for both a missing id and the empty string, as in JavaScript.
- The home screen's image picker, permission request and the floating-point XP-bar width.
- The rest of the app is not part of this model, because these files hold no rule-based state:
  - the journal and its backend (network calls);
  - the mood statistics (clock and floating-point dates);
  - options, sign-in, sign-up and the emotion scan (form guards and navigation);
  - music playback;
  - the presentation-only components.
