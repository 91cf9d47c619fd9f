# Tic-tac-toe game state, modelled in Dafny

This project models the game-state core of the console tic-tac-toe game in
`Py-Project/tic_tac_toe_realtime_optimized.py`: the `TicTacToeGame` object
with its nine-cell `board`, its `players` dictionary (name -> mark) and its
`winner` / `is_tie` fields, the queries `is_valid_move`, `check_winner` and
`is_board_full`, the in-place operations `make_move`, `reset_board`,
`clear_remaining_numbers` and `assign_symbols_randomly`, and the turn loop of
`play_single_game`.

Modules, one file each (`Wrappers` shares `board.dfy`):

- `Board` (`board.dfy`). A cell is `Label(n)`, `Blank` or `Mark(X|O)`. It
  holds the pure board queries, the clearing of labels as a function on
  values, and the eight winning lines in the order the source checks them.
- `Registry` (`registry.dfy`). The Python dict is a list of entries in
  insertion order, because that order decides both the turn order
  (`list(self.players.keys())`) and which player `check_winner` reports.
  This module also holds the symbol choice, the assignment of marks and the
  turn swap.
- `Rules` (`rules.dfy`). `check_winner`: the first filled line, in line
  order, whose mark some player holds, reported as the first such player in
  dictionary order.
- `Session` (`session.dfy`). `Turns` is the specification of the turn loop
  as a function on values, and `TurnStep` is one accepted move. This module
  also holds the loop's invariants and two complete games worked through.
- `Game` (`game.dfy`). The class `TicTacToeGame`, with its `board` array and
  its fields, and methods that update them in place. The loop methods are
  proved equal to `Turns` and `TurnStep`.

Inputs are parameters:

- Each move answer is the result of `int(...)` as an `Option<int>`.
- The symbol answers are a sequence of strings.
- The two `random.choice` calls become the `firstChooses` and `starter`
  parameters.
- Running out of answers stands for reading input failing.
  - During symbol choice, this takes the fallback branch.
  - In the turn loop, it ends the game without a record.

Each game is meant to register exactly its two players, with one X and
one O. The code keeps one dictionary for the whole session, and a repeated
name shares a single entry. `Registry.AssignMarks` follows the code (see
`Registry.DuplicateNameLosesChoice` and the finding below); the class runs
the corrected assignment into an emptied registry (see Left out).

## Model

| member | source | states |
|---|---|---|
| Board.FreshBoard | Py-Project/tic_tac_toe_realtime_optimized.py:12 | a new board has nine cells, cell i showing the label i + 1 |
| Board.IsValidMove | Py-Project/tic_tac_toe_realtime_optimized.py:130-135 | no contract; defined as: the parsed answer p exists, 1 <= p <= 9, and cell p - 1 holds no mark (unparsable input is simply not valid) |
| Board.IsBoardFull | Py-Project/tic_tac_toe_realtime_optimized.py:162-163 | no contract; defined as: every cell holds X or O |
| Board.ClearRemaining | Py-Project/tic_tac_toe_realtime_optimized.py:82-85 | the cleared board has the same length, and each cell is kept when it holds a mark and blank otherwise |
| Board.FreshBoardAllValid | Py-Project/tic_tac_toe_realtime_optimized.py:130-135 | on a fresh board every position 1..9 is a valid move |
| Board.FreshBoardNoLine | Py-Project/tic_tac_toe_realtime_optimized.py:146-155 | no winning line is filled on a fresh board, for either mark |
| Board.PlaceInvalidates | Py-Project/tic_tac_toe_realtime_optimized.py:130-141 | after a mark is placed at a valid position, that position is no longer valid and every other position keeps its validity, so no mark is overwritten through the validated path |
| Board.FullIffNoUnmarked | Py-Project/tic_tac_toe_realtime_optimized.py:162-163 | the board is full exactly when no cell is left without a mark |
| Board.MarkingCountsDown | Py-Project/tic_tac_toe_realtime_optimized.py:133-140 | marking an unmarked cell lowers the number of unmarked cells by exactly one |
| Board.ClearIdempotent | Py-Project/tic_tac_toe_realtime_optimized.py:82-85 | clearing the labels twice is the same as clearing them once |
| Board.ClearKeepsMarks | Py-Project/tic_tac_toe_realtime_optimized.py:82-85 | clearing keeps every X/O cell and leaves no label behind |
| Board.ClearKeepsFull | Py-Project/tic_tac_toe_realtime_optimized.py:82-85 | clearing does not change whether the board is full |
| Board.ClearKeepsLines | Py-Project/tic_tac_toe_realtime_optimized.py:82-85 | clearing does not change what any of the eight lines holds |
| Registry.Get | Py-Project/tic_tac_toe_realtime_optimized.py:140 | no contract; defined as: the mark of the first entry with the key, None where Python raises KeyError (properties in `Registry.GetFinds`) |
| Registry.Put | Py-Project/tic_tac_toe_realtime_optimized.py:114-118 | the registry grows by one entry exactly when the key was absent (key order in `Registry.PutKeysOrder`) |
| Registry.PutKeysOrder | Py-Project/tic_tac_toe_realtime_optimized.py:114-123 | a write keeps the key order: an existing key stays where it was, a new key is appended at the end |
| Registry.Upper | Py-Project/tic_tac_toe_realtime_optimized.py:108 | the model's upper-casing keeps the length; defined as: a..z map to A..Z, every other character stays |
| Registry.ParseSymbol | Py-Project/tic_tac_toe_realtime_optimized.py:108-109 | no contract; defined as: the upper-cased answer "X" gives X, "O" gives O, anything else is rejected (properties in `Registry.ParseSymbolAccepts`) |
| Registry.AssignMarks | Py-Project/tic_tac_toe_realtime_optimized.py:113-128 | no contract; defined as: the writes of the chooser branch or the fallback branch into the registry it is given, with `list(keys)` or `[name1, name2]` as the name list (properties in the lemmas below) |
| Registry.AssignMarksOrder | Py-Project/tic_tac_toe_realtime_optimized.py:113-123 | into any registry holding neither of two different names, an accepted choice returns every earlier name first, then the chooser, then the other name |
| Registry.Keys | Py-Project/tic_tac_toe_realtime_optimized.py:123 | the key list has one name per entry, in insertion order |
| Registry.Other | Py-Project/tic_tac_toe_realtime_optimized.py:115 | the complementary mark differs from the mark |
| Registry.FirstSymbol | Py-Project/tic_tac_toe_realtime_optimized.py:107-111 | the symbol prompt accepts an answer exactly when some answer in the sequence is X or O in either case |
| Registry.FirstSymbolIsFirst | Py-Project/tic_tac_toe_realtime_optimized.py:107-111 | the symbol kept is the parse of the first accepted answer: every answer before it is rejected |
| Registry.NextPlayer | Py-Project/tic_tac_toe_realtime_optimized.py:256 | the swap hands the turn to a name of the list; it fails (IndexError) exactly when the list holds one name and that name is current |
| Registry.GetFinds | Py-Project/tic_tac_toe_realtime_optimized.py:140 | a dictionary lookup succeeds exactly when some entry has the key, and the value found is that entry's mark |
| Registry.GetPutSame | Py-Project/tic_tac_toe_realtime_optimized.py:114-118 | reading the key just written gives the mark written |
| Registry.GetPutOther | Py-Project/tic_tac_toe_realtime_optimized.py:114-118 | writing one key leaves every other key's mark unchanged |
| Registry.PutKeepsDistinct | Py-Project/tic_tac_toe_realtime_optimized.py:114-118 | writing a key keeps the names distinct and adds no name other than the key |
| Registry.ParseSymbolAccepts | Py-Project/tic_tac_toe_realtime_optimized.py:108-109 | after upper-casing, an answer passes the X/O test as X exactly when it is "X" or "x", and as O exactly when it is "O" or "o" |
| Registry.OtherCovers | Py-Project/tic_tac_toe_realtime_optimized.py:115-118 | the complement is an involution and a mark with its complement covers exactly {X, O} |
| Registry.FreshAssignmentComplementary | Py-Project/tic_tac_toe_realtime_optimized.py:102-128 | into an empty registry with two different names: both registered with complementary marks, the chooser keeps the accepted symbol, the name list is the chooser then the other name, and the fallback gives name1 X and name2 O |
| Registry.DuplicateNameLosesChoice | Py-Project/tic_tac_toe_realtime_optimized.py:113-123 | with two equal names, one entry remains holding the complement of the choice; the name list has one name and the turn swap from it fails |
| Registry.SwapAlternates | Py-Project/tic_tac_toe_realtime_optimized.py:256 | with two different names the swap always hands the turn to the other one |
| Rules.CheckWinner | Py-Project/tic_tac_toe_realtime_optimized.py:146-160 | no contract; defined as: the scan of the eight line results in source order, reporting the first player in dictionary order holding the mark of the first filled line that some player holds (properties in `Rules.CheckWinnerSound`) |
| Rules.FirstWithMarkFinds | Py-Project/tic_tac_toe_realtime_optimized.py:157-159 | the player search finds someone exactly when some entry holds the mark, and the one found is the first entry in dictionary order that holds it |
| Rules.ScanLinesFinds | Py-Project/tic_tac_toe_realtime_optimized.py:153-160 | the scan reports a player only for a filled line holding that player's mark, and nobody exactly when no filled line holds a registered mark |
| Rules.ScanNothing | Py-Project/tic_tac_toe_realtime_optimized.py:153-160 | a scan over lines none of which is filled reports nobody |
| Rules.NoLinesNoWinner | Py-Project/tic_tac_toe_realtime_optimized.py:146-160 | with no filled line, `check_winner` reports nobody |
| Rules.CheckWinnerSound | Py-Project/tic_tac_toe_realtime_optimized.py:146-160 | `check_winner` reports a registered player only if a line holds three of that player's mark, and reports nobody exactly when no line is filled with a registered player's mark |
| Rules.NoWinnerOnFreshBoard | Py-Project/tic_tac_toe_realtime_optimized.py:146-168 | on a freshly reset board nobody has won, whoever is registered |
| Rules.ClearKeepsWinner | Py-Project/tic_tac_toe_realtime_optimized.py:82-85 | clearing the labels does not change the result of `check_winner` |
| Rules.WinnerWithBothMarks | Py-Project/tic_tac_toe_realtime_optimized.py:146-160 | with both marks registered, a winner is reported exactly when X or O fills a line |
| Rules.TieBoardExample | Py-Project/tic_tac_toe_realtime_optimized.py:146-163 | the board X,O,X / X,O,O / O,X,X is full and has no winner |
| Session.Turns | Py-Project/tic_tac_toe_realtime_optimized.py:221-256 | no contract; defined as: invalid answers are dropped, each valid one is played with `TurnStep`, running out of answers ends the game without a result (properties in the `Turns*` lemmas) |
| Session.TurnStep | Py-Project/tic_tac_toe_realtime_optimized.py:236-256 | after one accepted move the board still has nine cells; when the turn passes, it passes to a name of the list and the board has one unmarked cell fewer |
| Session.SkipInvalid | Py-Project/tic_tac_toe_realtime_optimized.py:224-230 | an answer that is not a valid move is dropped and the loop goes on with the same player and board |
| Session.SkipInvalidAnswers | Py-Project/tic_tac_toe_realtime_optimized.py:224-230 | any run of invalid answers is dropped with no effect |
| Session.StepWins | Py-Project/tic_tac_toe_realtime_optimized.py:236-246 | a valid move whose mark fills a line ends the game with that winner, the labels cleared and the tie flag untouched |
| Session.StepTies | Py-Project/tic_tac_toe_realtime_optimized.py:236-254 | a valid move that fills the board with no winner ends the game as a tie, labels cleared |
| Session.StepPasses | Py-Project/tic_tac_toe_realtime_optimized.py:236-256 | otherwise the turn passes to the other name on the new board, or the game ends without a result when there is no other name |
| Session.TurnsAcceptedBound | Py-Project/tic_tac_toe_realtime_optimized.py:221-256 | the loop accepts at most as many moves as there are unmarked cells, so at most nine |
| Session.TurnsKeepsMarks | Py-Project/tic_tac_toe_realtime_optimized.py:221-256 | a mark on the board is never overwritten or cleared by the loop |
| Session.TurnsResultSound | Py-Project/tic_tac_toe_realtime_optimized.py:240-254 | a completed game either names a winner who holds a filled line, or is a full board with no winner; the tie flag is raised when no winner is named and otherwise left as it was (winner checked first); no label remains |
| Session.MarkingCounts | Py-Project/tic_tac_toe_realtime_optimized.py:140 | placing a mark adds one of that mark and none of the other |
| Session.ClearKeepsCounts | Py-Project/tic_tac_toe_realtime_optimized.py:82-85 | clearing the labels changes no mark count |
| Session.BalanceAfterMove | Py-Project/tic_tac_toe_realtime_optimized.py:236-256 | a move by the holder of m on a board balanced for m leaves it balanced for the other mark, before and after clearing |
| Session.StepKeepsBalance | Py-Project/tic_tac_toe_realtime_optimized.py:236-256 | one accepted move by two different names with complementary marks: an ended game has counts at most one apart, a passed turn goes to the other name on a board balanced for its mark |
| Session.TurnsKeepBalance | Py-Project/tic_tac_toe_realtime_optimized.py:221-256 | two different names with complementary marks alternate, so the X and O counts never differ by more than one |
| Session.FreshBoardBalanced | Py-Project/tic_tac_toe_realtime_optimized.py:165-166 | a fresh board is balanced for whichever mark moves first |
| Session.ResultTextInjective | Py-Project/tic_tac_toe_realtime_optimized.py:260 | the result line of the record determines the result |
| Session.AnnBenStep | Py-Project/tic_tac_toe_realtime_optimized.py:236-256 | a move by Ann or Ben that fills no line and leaves a cell free passes the turn to the other |
| Session.AnnBenRound | Py-Project/tic_tac_toe_realtime_optimized.py:236-256 | two such moves in a row return the turn to the first mover with two more accepted moves |
| Session.AnnWinsTopRow | Py-Project/tic_tac_toe_realtime_optimized.py:221-246 | Ann (X) plays 1, Ben 4, Ann 2, Ben 5, Ann 3: Ann wins after five moves on X,X,X,O,O with the rest blank |
| Session.AnnSecondRound | Py-Project/tic_tac_toe_realtime_optimized.py:221-246 | the same game from its third move on |
| Session.AnnFinalMove | Py-Project/tic_tac_toe_realtime_optimized.py:236-246 | the same game's last move fills the top row and names Ann |
| Session.TieAfterNineMoves | Py-Project/tic_tac_toe_realtime_optimized.py:221-254 | X1, O2, X3, O5, X4, O6, X8, O7, X9 ends in a tie after nine moves on the board X,O,X / X,O,O / O,X,X |
| Session.TieFromSecondRound | Py-Project/tic_tac_toe_realtime_optimized.py:221-254 | the same game from its third move on |
| Session.TieSecondHalf | Py-Project/tic_tac_toe_realtime_optimized.py:221-254 | the same game from its fifth move on |
| Session.TieLastThree | Py-Project/tic_tac_toe_realtime_optimized.py:221-254 | the same game from its seventh move on |
| Session.LastTieMove | Py-Project/tic_tac_toe_realtime_optimized.py:248-254 | the ninth mark fills the board with no line: a tie |
| Game.PyIndex | Py-Project/tic_tac_toe_realtime_optimized.py:139-140 | Python list indexing maps -n..n-1 into 0..n-1 and leaves a non-negative index alone |
| Game.TicTacToeGame.constructor | Py-Project/tic_tac_toe_realtime_optimized.py:11-17 | a new game has the fresh board, an empty registry, no winner and no tie |
| Game.TicTacToeGame.ResetBoard | Py-Project/tic_tac_toe_realtime_optimized.py:165-168 | the board becomes the fresh board, winner and tie are cleared, the registry is kept |
| Game.TicTacToeGame.ClearRemainingNumbers | Py-Project/tic_tac_toe_realtime_optimized.py:82-85 | the board becomes the cleared board: marks kept, every other cell blank |
| Game.TicTacToeGame.MakeMove | Py-Project/tic_tac_toe_realtime_optimized.py:137-144 | it succeeds exactly when the answer is an integer in -8..9 and the name is registered; then only the cell at the Python index becomes the mover's mark, otherwise the board is untouched |
| Game.TicTacToeGame.AssignSymbols | Py-Project/tic_tac_toe_realtime_optimized.py:102-128 | the registry and name list are those of assigning the first accepted symbol (or the fallback) into an emptied registry |
| Game.TicTacToeGame.NextValidAnswer | Py-Project/tic_tac_toe_realtime_optimized.py:224-230 | the inner loop stops at the first valid answer, every answer before it being invalid, or at the end of the answers |
| Game.TicTacToeGame.PlayTurn | Py-Project/tic_tac_toe_realtime_optimized.py:236-256 | one accepted move updates the board, winner and tie flag as `TurnStep` says and reports whether the game ended or to whom the turn passed |
| Game.TicTacToeGame.ReadAndPlay | Py-Project/tic_tac_toe_realtime_optimized.py:221-256 | one pass of the loop reads to the next valid answer and plays it, agreeing with `Turns` on the remaining answers |
| Game.TicTacToeGame.RunTurns | Py-Project/tic_tac_toe_realtime_optimized.py:221-256 | the loop leaves the board, winner, tie flag, accepted count and completion exactly as `Turns` specifies |
| Game.TicTacToeGame.PlaySingleGame | Py-Project/tic_tac_toe_realtime_optimized.py:211-268 | marks are assigned, the starter is one of the returned names, the loop runs as `Turns` says, and a record with both names, their marks, the result and the final board exists exactly when the game completed |
| Game.AssignMarksRegisters | Py-Project/tic_tac_toe_realtime_optimized.py:102-128 | after any assignment both names are registered, the names stay distinct, and every name in the returned list is registered |
| Game.StaleRegistryNextGame | Py-Project/tic_tac_toe_realtime_optimized.py:114-123 | with the previous game's registry still present, a new game lists four names, passes the turn after Cat to Ann, and credits Cat's row of X to Ann |
| Game.KeysRegistered | Py-Project/tic_tac_toe_realtime_optimized.py:123 | every listed key can be looked up |
| Game.PutTwice | Py-Project/tic_tac_toe_realtime_optimized.py:114-118 | two writes leave both keys registered and the names distinct |

## Left out

- The matplotlib board display (`initialize_matplotlib`, `display_board_matplotlib`, `close_matplotlib`) is left out. It is GUI output with no game logic.
- `save_game_history` and `display_all_game_history` are left out. They are file I/O with `datetime.now()`. The model stops at the record handed over (`Session.GameRecord`) and its result line (`Session.ResultText`).
- The console output (the `print` calls at lines 105, 111, 120-121, 125, 143 and 217-252, such as "Invalid move!", "... wins!" and "It's a tie!") is left out; it changes no state.
- `get_player_names` is left out because it is console input. The two names are parameters, and they must be non-empty: the source replaces a blank name by a default. That is why a reported winner is always truthy in `if self.winner`.
- The two `random.choice` calls are not modelled as randomness. They are the `firstChooses` and `starter` parameters.
- Parsing with `int(...)` is abstracted as `Option<int>`. Whitespace and signs are left out.
- `KeyboardInterrupt` and `sys.exit` are left out because they are process control.
- The catch-all `except Exception` of `play_single_game` is modelled only as "no record". When the answers run out, or the turn swap indexes past a one-name list, `PlaySingleGame` returns `None`.
- The `play_game` replay loop is left out. Its y/n prompt is console input, and its game count is a counter. Each game in it is `ResetBoard` followed by `PlaySingleGame`.
- The fields `current_player` and `game_history` are left out. They are initialised and never read.
- Registry.Upper: upper-cases only the letters a..z and always keeps the length. Python's `str.upper` also upper-cases other letters (é to É), sometimes into longer strings (ß to SS). None of those reach the one-letter strings X or O, so the set of accepted answers is the same.
- Game.TicTacToeGame.PlaySingleGame: runs the corrected assignment into an emptied registry, so it matches the source only on the first game of a session; from the second game on the source writes into the previous game's dictionary (see Findings).
- Game.TicTacToeGame.AssignSymbols: empties the registry before assigning. The source does not; `Registry.AssignMarks` with a non-empty prior registry models the source as written (see Findings).

## Findings

| source | as written | input that shows it | evidently intended | confidence | as-written member | corrected member |
|---|---|---|---|---|---|---|
| Py-Project/tic_tac_toe_realtime_optimized.py:114-123, 165-168, 277-278 | `self.players` is never cleared: `reset_board` keeps it, and `assign_symbols_randomly` adds the new names to it and returns all of its keys | Ann (X) and Ben (O) play a game; then Cat and Dan play, and Cat chooses X | each game registers exactly its two players with complementary marks, and the turn alternates between them | not executed | Game.StaleRegistryNextGame | Game.TicTacToeGame.AssignSymbols |

In the source as written, the name list is `[Ann, Ben, Cat, Dan]` and the turn after Cat's move goes to Ann. A row of X completed by Cat is credited to Ann. `Registry.AssignMarksOrder` proves the order in general: for every earlier registry holding neither new name, an accepted choice lists the earlier names first, then the chooser, then the other name. `Registry.FreshAssignmentComplementary` proves the intended property for the corrected assignment: two names, complementary marks, chooser first.
