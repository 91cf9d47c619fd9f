/**
 * The turn loop of a single game, as a function of the board, the registry,
 * the player whose turn it is and the move answers still to be read.
 *
 * Each answer is the result of parsing one line of input as an integer.
 * An invalid answer is read and dropped (the re-prompt). A valid one is
 * placed for the active player. Then the winner check comes first and the
 * fullness check second; only when neither ends the game does the turn pass
 * to the other name. Running out of answers stands for the input failing,
 * which ends the game without a result.
 */
module Session {
  import opened Wrappers
  import opened Board
  import opened Registry
  import opened Rules

  /**
   * Where the loop leaves the game: the board and the `winner` and `is_tie`
   * fields, the number of moves it accepted, and whether it reached a result.
   */
  datatype Outcome = Outcome(board: seq<Cell>, winner: Option<string>, isTie: bool,
                             accepted: nat, completed: bool)

  /** Every name in the list is registered. */
  predicate Registered(players: Dict, names: seq<string>) {
    forall n :: n in names ==> Get(players, n).Some?
  }

  /** How one accepted move ends: the game is over, or the turn passes to `next`. */
  datatype Step =
    | Ended(board: seq<Cell>, winner: Option<string>, isTie: bool, completed: bool)
    | Passed(board: seq<Cell>, next: string)

  /**
   * One pass of the loop after a valid answer p: the mark of `current` goes
   * to cell p; a winner ends the game first, a full board second (both clear
   * the remaining labels); otherwise the turn passes, or the game ends
   * without a result when the name list has no other name.
   */
  function TurnStep(b: seq<Cell>, players: Dict, names: seq<string>, current: string,
                    p: int, isTie: bool): (r: Step)
    requires |b| == 9 && |names| >= 1 && Registered(players, names) && current in names
    requires IsValidMove(b, Some(p))
    ensures |r.board| == 9
    ensures r.Passed? ==> r.next in names && UnmarkedCount(r.board) == UnmarkedCount(b) - 1
  {
    var after := b[p - 1 := Mark(Get(players, current).value)];
    var w := CheckWinner(after, players);
    if w.Some? then Ended(ClearRemaining(after), w, isTie, true)
    else if IsBoardFull(after) then Ended(ClearRemaining(after), w, true, true)
    else match NextPlayer(names, current)
      case None => Ended(after, w, isTie, false)
      case Some(next) =>
        MarkingCountsDown(b, p - 1, Get(players, current).value);
        Passed(after, next)
  }

  /**
   * The loop on the answers `moves`: invalid answers are dropped, each valid
   * one is played with TurnStep, and running out of answers ends the game
   * without a result.
   */
  function Turns(b: seq<Cell>, players: Dict, names: seq<string>, current: string,
                 moves: seq<Option<int>>, winner: Option<string>, isTie: bool): (o: Outcome)
    requires |b| == 9 && |names| >= 1 && Registered(players, names) && current in names
    decreases |moves|
  {
    if moves == [] then Outcome(b, winner, isTie, 0, false)
    else if !IsValidMove(b, moves[0]) then
      Turns(b, players, names, current, moves[1..], winner, isTie)
    else match TurnStep(b, players, names, current, moves[0].value, isTie)
      case Ended(after, w, t, done) => Outcome(after, w, t, 1, done)
      case Passed(after, next) =>
        var o := Turns(after, players, names, next, moves[1..], None, isTie);
        o.(accepted := o.accepted + 1)
  }

  /** An answer that is not a valid move is read and dropped. */
  lemma SkipInvalid(b: seq<Cell>, players: Dict, names: seq<string>, current: string,
                    moves: seq<Option<int>>, winner: Option<string>, isTie: bool)
    requires |b| == 9 && |names| >= 1 && Registered(players, names) && current in names
    requires moves != [] && !IsValidMove(b, moves[0])
    ensures Turns(b, players, names, current, moves, winner, isTie)
         == Turns(b, players, names, current, moves[1..], winner, isTie)
  {
  }

  /** Answers that are not valid moves are read and dropped one after the other. */
  lemma {:induction false} SkipInvalidAnswers(b: seq<Cell>, players: Dict, names: seq<string>,
      current: string, moves: seq<Option<int>>, i: int, j: int, winner: Option<string>, isTie: bool)
    requires |b| == 9 && |names| >= 1 && Registered(players, names) && current in names
    requires 0 <= i <= j <= |moves|
    requires forall k :: i <= k < j ==> !IsValidMove(b, moves[k])
    ensures Turns(b, players, names, current, moves[i..], winner, isTie)
         == Turns(b, players, names, current, moves[j..], winner, isTie)
    decreases j - i
  {
    if i < j {
      assert moves[i..][1..] == moves[i + 1..];
      SkipInvalid(b, players, names, current, moves[i..], winner, isTie);
      SkipInvalidAnswers(b, players, names, current, moves, i + 1, j, winner, isTie);
    }
  }

  /** A valid answer whose mark fills a line ends the game with that winner. */
  lemma StepWins(b: seq<Cell>, players: Dict, names: seq<string>, current: string,
                 moves: seq<Option<int>>, winner: Option<string>, isTie: bool, after: seq<Cell>)
    requires |b| == 9 && |names| >= 1 && Registered(players, names) && current in names
    requires moves != [] && IsValidMove(b, moves[0])
    requires after == b[moves[0].value - 1 := Mark(Get(players, current).value)]
    requires CheckWinner(after, players).Some?
    ensures Turns(b, players, names, current, moves, winner, isTie)
         == Outcome(ClearRemaining(after), CheckWinner(after, players), isTie, 1, true)
  {
  }

  /** A valid answer that fills the board without a line ends the game in a tie. */
  lemma StepTies(b: seq<Cell>, players: Dict, names: seq<string>, current: string,
                 moves: seq<Option<int>>, winner: Option<string>, isTie: bool, after: seq<Cell>)
    requires |b| == 9 && |names| >= 1 && Registered(players, names) && current in names
    requires moves != [] && IsValidMove(b, moves[0])
    requires after == b[moves[0].value - 1 := Mark(Get(players, current).value)]
    requires CheckWinner(after, players).None? && IsBoardFull(after)
    ensures Turns(b, players, names, current, moves, winner, isTie)
         == Outcome(ClearRemaining(after), None, true, 1, true)
  {
  }

  /** Otherwise the turn passes, or the game stops when there is no other name. */
  lemma StepPasses(b: seq<Cell>, players: Dict, names: seq<string>, current: string,
                   moves: seq<Option<int>>, winner: Option<string>, isTie: bool, after: seq<Cell>)
    requires |b| == 9 && |names| >= 1 && Registered(players, names) && current in names
    requires moves != [] && IsValidMove(b, moves[0])
    requires after == b[moves[0].value - 1 := Mark(Get(players, current).value)]
    requires CheckWinner(after, players).None? && !IsBoardFull(after)
    ensures NextPlayer(names, current).None? ==>
      Turns(b, players, names, current, moves, winner, isTie) == Outcome(after, None, isTie, 1, false)
    ensures NextPlayer(names, current).Some? ==>
      var o := Turns(after, players, names, NextPlayer(names, current).value, moves[1..], None, isTie);
      Turns(b, players, names, current, moves, winner, isTie) == o.(accepted := o.accepted + 1)
  {
  }

  // ---------------------------------------------------------------------
  // Lemmas about the loop

  /**
   * Each accepted move fills a cell that had no mark, so the loop accepts
   * at most as many moves as there are unmarked cells: at most nine.
   */
  lemma {:induction false} TurnsAcceptedBound(b: seq<Cell>, players: Dict, names: seq<string>,
      current: string, moves: seq<Option<int>>, winner: Option<string>, isTie: bool)
    requires |b| == 9 && |names| >= 1 && Registered(players, names) && current in names
    ensures Turns(b, players, names, current, moves, winner, isTie).accepted <= UnmarkedCount(b) <= 9
    decreases |moves|
  {
    if moves != [] {
      if !IsValidMove(b, moves[0]) {
        TurnsAcceptedBound(b, players, names, current, moves[1..], winner, isTie);
      } else {
        var p := moves[0].value;
        var after := b[p - 1 := Mark(Get(players, current).value)];
        MarkingCountsDown(b, p - 1, Get(players, current).value);
        var w := CheckWinner(after, players);
        if w.None? && !IsBoardFull(after) {
          var next := NextPlayer(names, current);
          if next.Some? {
            TurnsAcceptedBound(after, players, names, next.value, moves[1..], w, isTie);
          }
        }
      }
    }
  }

  /** A mark already on the board is never overwritten or cleared by the loop. */
  lemma {:induction false} TurnsKeepsMarks(b: seq<Cell>, players: Dict, names: seq<string>,
      current: string, moves: seq<Option<int>>, winner: Option<string>, isTie: bool)
    requires |b| == 9 && |names| >= 1 && Registered(players, names) && current in names
    ensures var o := Turns(b, players, names, current, moves, winner, isTie);
      |o.board| == 9 && forall i :: 0 <= i < 9 && IsMark(b[i]) ==> o.board[i] == b[i]
    decreases |moves|
  {
    if moves != [] {
      if !IsValidMove(b, moves[0]) {
        TurnsKeepsMarks(b, players, names, current, moves[1..], winner, isTie);
      } else {
        var after := b[moves[0].value - 1 := Mark(Get(players, current).value)];
        var w := CheckWinner(after, players);
        if w.None? && !IsBoardFull(after) {
          var next := NextPlayer(names, current);
          if next.Some? {
            TurnsKeepsMarks(after, players, names, next.value, moves[1..], w, isTie);
          }
        }
      }
    }
  }

  /**
   * When the loop reaches a result: a reported winner holds a filled line;
   * otherwise the game is a tie on a full board where nobody has won; the
   * tie flag is raised exactly when no winner is reported (winner first);
   * and no positional label is left on the board.
   */
  lemma {:induction false} TurnsResultSound(b: seq<Cell>, players: Dict, names: seq<string>,
      current: string, moves: seq<Option<int>>, winner: Option<string>, isTie: bool)
    requires |b| == 9 && |names| >= 1 && Registered(players, names) && current in names
    ensures var o := Turns(b, players, names, current, moves, winner, isTie);
      o.completed ==>
        && |o.board| == 9
        && (o.winner.Some? ==>
              exists e :: e in players && e.name == o.winner.value && HasLine(o.board, e.mark))
        && (o.winner.None? ==>
              IsBoardFull(o.board) && CheckWinner(o.board, players).None?)
        && o.isTie == (isTie || o.winner.None?)
        && (forall i :: 0 <= i < 9 ==> !o.board[i].Label?)
    decreases |moves|
  {
    if moves != [] {
      if !IsValidMove(b, moves[0]) {
        TurnsResultSound(b, players, names, current, moves[1..], winner, isTie);
      } else {
        var after := b[moves[0].value - 1 := Mark(Get(players, current).value)];
        var w := CheckWinner(after, players);
        ClearKeepsMarks(after);
        if w.Some? {
          CheckWinnerSound(after, players);
          var e :| e in players && e.name == w.value && HasLine(after, e.mark);
          ClearKeepsLines(after);
        } else if IsBoardFull(after) {
          ClearKeepsFull(after);
          ClearKeepsWinner(after, players);
        } else {
          var next := NextPlayer(names, current);
          if next.Some? {
            TurnsResultSound(after, players, names, next.value, moves[1..], w, isTie);
          }
        }
      }
    }
  }

  // ---------------------------------------------------------------------
  // Alternation: the marks on the board stay balanced

  /** The number of cells holding mark s. */
  function CountMark(b: seq<Cell>, s: Symbol): (n: nat)
    ensures n <= |b|
  {
    if b == [] then 0
    else (if b[0] == Mark(s) then 1 else 0) + CountMark(b[1..], s)
  }

  /** Marking an unmarked cell with s adds one s and no other mark. */
  lemma {:induction false} MarkingCounts(b: seq<Cell>, i: int, s: Symbol, t: Symbol)
    requires 0 <= i < |b| && !IsMark(b[i])
    ensures CountMark(b[i := Mark(s)], t) == CountMark(b, t) + (if s == t then 1 else 0)
  {
    if i == 0 {
      assert b[i := Mark(s)][1..] == b[1..];
    } else {
      assert b[i := Mark(s)][1..] == b[1..][i - 1 := Mark(s)];
      MarkingCounts(b[1..], i - 1, s, t);
    }
  }

  /** Clearing the labels changes no count of marks. */
  lemma {:induction false} ClearKeepsCounts(b: seq<Cell>, t: Symbol)
    ensures CountMark(ClearRemaining(b), t) == CountMark(b, t)
  {
    if b != [] {
      assert ClearRemaining(b)[1..] == ClearRemaining(b[1..]);
      ClearKeepsCounts(b[1..], t);
    }
  }

  /**
   * Before a move by the holder of mark m, the other mark is ahead by at
   * most one and never behind.
   */
  predicate BalancedFor(b: seq<Cell>, m: Symbol) {
    var d := CountMark(b, Other(m)) - CountMark(b, m);
    0 <= d <= 1
  }

  /**
   * A move by the holder of m on a board balanced for m leaves the board
   * balanced for the other mark, with the two counts at most one apart,
   * before and after the remaining labels are cleared.
   */
  lemma BalanceAfterMove(b: seq<Cell>, i: int, m: Symbol)
    requires 0 <= i < |b| && !IsMark(b[i]) && BalancedFor(b, m)
    ensures BalancedFor(b[i := Mark(m)], Other(m))
    ensures -1 <= CountMark(b[i := Mark(m)], X) - CountMark(b[i := Mark(m)], O) <= 1
    ensures -1 <= CountMark(ClearRemaining(b[i := Mark(m)]), X)
                  - CountMark(ClearRemaining(b[i := Mark(m)]), O) <= 1
  {
    MarkingCounts(b, i, m, m);
    MarkingCounts(b, i, m, Other(m));
    ClearKeepsCounts(b[i := Mark(m)], X);
    ClearKeepsCounts(b[i := Mark(m)], O);
  }

  /**
   * One accepted move between two different names with complementary marks:
   * a game that ends leaves the counts at most one apart, and a turn that
   * passes goes to the other name on a board balanced for its mark.
   */
  lemma StepKeepsBalance(b: seq<Cell>, players: Dict, a: string, c: string,
                         current: string, p: int, isTie: bool)
    requires |b| == 9 && a != c && current in [a, c]
    requires Registered(players, [a, c])
    requires Get(players, c) == Some(Other(Get(players, a).value))
    requires BalancedFor(b, Get(players, current).value)
    requires IsValidMove(b, Some(p))
    ensures var st := TurnStep(b, players, [a, c], current, p, isTie);
      && (st.Ended? ==> -1 <= CountMark(st.board, X) - CountMark(st.board, O) <= 1)
      && (st.Passed? ==>
            st.next == (if current == a then c else a) && BalancedFor(st.board, Get(players, st.next).value))
  {
    var m := Get(players, current).value;
    BalanceAfterMove(b, p - 1, m);
  }

  /**
   * Two different names with complementary marks take turns, so the
   * numbers of X and O on the board differ by at most one throughout a game
   * that starts balanced (a fresh board is), whoever moves first.
   */
  lemma {:induction false} TurnsKeepBalance(b: seq<Cell>, players: Dict, a: string, c: string,
      current: string, moves: seq<Option<int>>, winner: Option<string>, isTie: bool)
    requires |b| == 9 && a != c && current in [a, c]
    requires Registered(players, [a, c])
    requires Get(players, c) == Some(Other(Get(players, a).value))
    requires BalancedFor(b, Get(players, current).value)
    ensures var o := Turns(b, players, [a, c], current, moves, winner, isTie);
      -1 <= CountMark(o.board, X) - CountMark(o.board, O) <= 1
    decreases |moves|
  {
    if moves == [] {
      assert BalancedFor(b, Get(players, current).value);
    } else if !IsValidMove(b, moves[0]) {
      TurnsKeepBalance(b, players, a, c, current, moves[1..], winner, isTie);
    } else {
      var p := moves[0].value;
      StepKeepsBalance(b, players, a, c, current, p, isTie);
      match TurnStep(b, players, [a, c], current, p, isTie)
      case Ended(_, _, _, _) =>
      case Passed(after, next) =>
        TurnsKeepBalance(after, players, a, c, next, moves[1..], None, isTie);
    }
  }

  /** A fresh board is balanced for either mark to move. */
  lemma FreshBoardBalanced(m: Symbol)
    ensures BalancedFor(FreshBoard(), m)
  {
    assert CountMark(FreshBoard(), X) == 0 && CountMark(FreshBoard(), O) == 0;
  }

  // ---------------------------------------------------------------------
  // The record handed to the history sink

  datatype GameResult = Win(player: string) | Tie

  datatype GameRecord = GameRecord(name1: string, mark1: Symbol, name2: string, mark2: Symbol,
                                   result: GameResult, board: seq<Cell>)

  /** The result line of the history record: `"<winner> wins!"` or `"Tie"`. */
  function ResultText(r: GameResult): string {
    match r
    case Win(p) => p + " wins!"
    case Tie => "Tie"
  }

  /** The result line names the result unambiguously. */
  lemma ResultTextInjective(r1: GameResult, r2: GameResult)
    requires ResultText(r1) == ResultText(r2)
    ensures r1 == r2
  {
    if r1.Win? && r2.Win? {
      assert |r1.player| == |r2.player|;
      assert r1.player == ResultText(r1)[..|r1.player|];
      assert r2.player == ResultText(r2)[..|r2.player|];
    }
  }

  // ---------------------------------------------------------------------
  // Two whole games between Ann (X) and Ben (O)

  /** The registry of both games: Ann chose X, Ben got O. */
  const AnnBen: Dict := [Entry("Ann", X), Entry("Ben", O)]

  /**
   * One accepted move by Ann or Ben that fills no line and leaves the last
   * cell free: the loop goes on with the other name on the new board.
   */
  lemma AnnBenStep(b: seq<Cell>, current: string, p: int, rest: seq<Option<int>>, after: seq<Cell>)
    requires |b| == 9 && current in ["Ann", "Ben"] && IsValidMove(b, Some(p))
    requires after == b[p - 1 := Mark(if current == "Ann" then X else O)]
    requires LineResults(after) == NoLines && !IsMark(after[8])
    ensures var o := Turns(after, AnnBen, ["Ann", "Ben"], if current == "Ann" then "Ben" else "Ann",
                           rest, None, false);
      Turns(b, AnnBen, ["Ann", "Ben"], current, [Some(p)] + rest, None, false)
        == o.(accepted := o.accepted + 1)
  {
    var moves := [Some(p)] + rest;
    assert moves[1..] == rest;
    NoLinesNoWinner(after, AnnBen);
    StepPasses(b, AnnBen, ["Ann", "Ben"], current, moves, None, false, after);
  }

  /** Two accepted moves in a row, the first by `current` and the second by the other name. */
  lemma AnnBenRound(b: seq<Cell>, current: string, p: int, q: int, rest: seq<Option<int>>,
                    mid: seq<Cell>, after: seq<Cell>)
    requires |b| == 9 && current in ["Ann", "Ben"] && IsValidMove(b, Some(p))
    requires mid == b[p - 1 := Mark(if current == "Ann" then X else O)]
    requires LineResults(mid) == NoLines && !IsMark(mid[8]) && IsValidMove(mid, Some(q))
    requires after == mid[q - 1 := Mark(if current == "Ann" then O else X)]
    requires LineResults(after) == NoLines && !IsMark(after[8])
    ensures var o := Turns(after, AnnBen, ["Ann", "Ben"], current, rest, None, false);
      Turns(b, AnnBen, ["Ann", "Ben"], current, [Some(p), Some(q)] + rest, None, false)
        == o.(accepted := o.accepted + 2)
  {
    var other := if current == "Ann" then "Ben" else "Ann";
    assert [Some(p), Some(q)] + rest == [Some(p)] + ([Some(q)] + rest);
    AnnBenStep(mid, other, q, rest, after);
    AnnBenStep(b, current, p, [Some(q)] + rest, mid);
  }

  /** Ann plays 1, Ben 4, Ann 2, Ben 5, and Ann's 3 fills the top row. */
  lemma AnnWinsTopRow(moves: seq<Option<int>>)
    requires moves == [Some(1), Some(4), Some(2), Some(5), Some(3)]
    ensures Turns(FreshBoard(), AnnBen, ["Ann", "Ben"], "Ann", moves, None, false)
      == Outcome([Mark(X), Mark(X), Mark(X), Mark(O), Mark(O), Blank, Blank, Blank, Blank],
                 Some("Ann"), false, 5, true)
  {
    var b0 := FreshBoard();
    var b1 := [Mark(X), Label(2), Label(3), Label(4), Label(5), Label(6), Label(7), Label(8), Label(9)];
    var b2 := [Mark(X), Label(2), Label(3), Mark(O), Label(5), Label(6), Label(7), Label(8), Label(9)];
    var r2 := [Some(2), Some(5), Some(3)];
    assert [Some(1), Some(4)] + r2 == moves;
    assert LineResults(b1) == NoLines && LineResults(b2) == NoLines;
    assert b1 == b0[0 := Mark(X)] && b2 == b1[3 := Mark(O)];
    AnnSecondRound(b2, r2);
    AnnBenRound(b0, "Ann", 1, 4, r2, b1, b2);
  }

  /** From X1, O4: Ann plays 2, Ben 5, and Ann's 3 wins. */
  lemma AnnSecondRound(b2: seq<Cell>, moves: seq<Option<int>>)
    requires b2 == [Mark(X), Label(2), Label(3), Mark(O), Label(5), Label(6), Label(7), Label(8), Label(9)]
    requires moves == [Some(2), Some(5), Some(3)]
    ensures Turns(b2, AnnBen, ["Ann", "Ben"], "Ann", moves, None, false)
      == Outcome([Mark(X), Mark(X), Mark(X), Mark(O), Mark(O), Blank, Blank, Blank, Blank],
                 Some("Ann"), false, 3, true)
  {
    var b3 := [Mark(X), Mark(X), Label(3), Mark(O), Label(5), Label(6), Label(7), Label(8), Label(9)];
    var b4 := [Mark(X), Mark(X), Label(3), Mark(O), Mark(O), Label(6), Label(7), Label(8), Label(9)];
    var r4 := [Some(3)];
    assert [Some(2), Some(5)] + r4 == moves;
    assert LineResults(b3) == NoLines && LineResults(b4) == NoLines;
    assert b3 == b2[1 := Mark(X)] && b4 == b3[4 := Mark(O)];
    AnnFinalMove(b4, r4);
    AnnBenRound(b2, "Ann", 2, 5, r4, b3, b4);
  }

  /** Ann's third mark completes the top row and the game ends with Ann as winner. */
  lemma AnnFinalMove(b4: seq<Cell>, moves: seq<Option<int>>)
    requires b4 == [Mark(X), Mark(X), Label(3), Mark(O), Mark(O), Label(6), Label(7), Label(8), Label(9)]
    requires moves == [Some(3)]
    ensures Turns(b4, AnnBen, ["Ann", "Ben"], "Ann", moves, None, false)
      == Outcome([Mark(X), Mark(X), Mark(X), Mark(O), Mark(O), Blank, Blank, Blank, Blank],
                 Some("Ann"), false, 1, true)
  {
    var b5 := [Mark(X), Mark(X), Mark(X), Mark(O), Mark(O), Label(6), Label(7), Label(8), Label(9)];
    assert ClearRemaining(b5) == [Mark(X), Mark(X), Mark(X), Mark(O), Mark(O), Blank, Blank, Blank, Blank];
    assert LineResults(b5)[0] == Some(X);
    assert CheckWinner(b5, AnnBen) == Some("Ann");
    assert Get(AnnBen, "Ann") == Some(X);
    assert b5 == b4[2 := Mark(X)];
    StepWins(b4, AnnBen, ["Ann", "Ben"], "Ann", moves, None, false, b5);
  }

  /** The answers of the tie game: X1, O2, X3, O5, X4, O6, X8, O7, X9. */
  function TieMoves(): seq<Option<int>> {
    [Some(1), Some(2), Some(3), Some(5), Some(4), Some(6), Some(8), Some(7), Some(9)]
  }

  /**
   * Ann (X) and Ben (O) fill the board X1, O2, X3, O5, X4, O6, X8, O7, X9
   * without a line: the game ends in a tie after nine accepted moves.
   */
  lemma TieAfterNineMoves(moves: seq<Option<int>>)
    requires moves == TieMoves()
    ensures Turns(FreshBoard(), AnnBen, ["Ann", "Ben"], "Ann", moves, None, false)
      == Outcome(TieBoard(), None, true, 9, true)
  {
    var b0 := FreshBoard();
    var b1 := [Mark(X), Label(2), Label(3), Label(4), Label(5), Label(6), Label(7), Label(8), Label(9)];
    var b2 := [Mark(X), Mark(O), Label(3), Label(4), Label(5), Label(6), Label(7), Label(8), Label(9)];
    var r2 := moves[2..];
    assert [Some(1), Some(2)] + r2 == moves;
    assert LineResults(b1) == NoLines && LineResults(b2) == NoLines;
    assert b1 == b0[0 := Mark(X)] && b2 == b1[1 := Mark(O)];
    TieFromSecondRound(b2, r2);
    AnnBenRound(b0, "Ann", 1, 2, r2, b1, b2);
  }

  /** The tie game from X1, O2 on. */
  lemma TieFromSecondRound(b2: seq<Cell>, moves: seq<Option<int>>)
    requires b2 == [Mark(X), Mark(O), Label(3), Label(4), Label(5), Label(6), Label(7), Label(8), Label(9)]
    requires moves == TieMoves()[2..]
    ensures Turns(b2, AnnBen, ["Ann", "Ben"], "Ann", moves, None, false)
      == Outcome(TieBoard(), None, true, 7, true)
  {
    var b3 := [Mark(X), Mark(O), Mark(X), Label(4), Label(5), Label(6), Label(7), Label(8), Label(9)];
    var b4 := [Mark(X), Mark(O), Mark(X), Label(4), Mark(O), Label(6), Label(7), Label(8), Label(9)];
    var r4 := moves[2..];
    assert [Some(3), Some(5)] + r4 == moves;
    assert r4 == TieMoves()[4..];
    assert LineResults(b3) == NoLines && LineResults(b4) == NoLines;
    assert b3 == b2[2 := Mark(X)] && b4 == b3[4 := Mark(O)];
    TieSecondHalf(b4, r4);
    AnnBenRound(b2, "Ann", 3, 5, r4, b3, b4);
  }

  /** The last five moves of the tie game, from X4 on. */
  lemma TieSecondHalf(b4: seq<Cell>, moves: seq<Option<int>>)
    requires b4 == [Mark(X), Mark(O), Mark(X), Label(4), Mark(O), Label(6), Label(7), Label(8), Label(9)]
    requires moves == TieMoves()[4..]
    ensures Turns(b4, AnnBen, ["Ann", "Ben"], "Ann", moves, None, false)
      == Outcome(TieBoard(), None, true, 5, true)
  {
    var b5 := [Mark(X), Mark(O), Mark(X), Mark(X), Mark(O), Label(6), Label(7), Label(8), Label(9)];
    var b6 := [Mark(X), Mark(O), Mark(X), Mark(X), Mark(O), Mark(O), Label(7), Label(8), Label(9)];
    var r6 := [Some(8), Some(7), Some(9)];
    assert [Some(4), Some(6)] + r6 == moves;
    assert LineResults(b5) == NoLines && LineResults(b6) == NoLines;
    assert b5 == b4[3 := Mark(X)] && b6 == b5[5 := Mark(O)];
    TieLastThree(b6, r6);
    AnnBenRound(b4, "Ann", 4, 6, r6, b5, b6);
  }

  /** The last three moves of the tie game: X8, O7, X9. */
  lemma TieLastThree(b6: seq<Cell>, moves: seq<Option<int>>)
    requires b6 == [Mark(X), Mark(O), Mark(X), Mark(X), Mark(O), Mark(O), Label(7), Label(8), Label(9)]
    requires moves == [Some(8), Some(7), Some(9)]
    ensures Turns(b6, AnnBen, ["Ann", "Ben"], "Ann", moves, None, false)
      == Outcome(TieBoard(), None, true, 3, true)
  {
    var b7 := [Mark(X), Mark(O), Mark(X), Mark(X), Mark(O), Mark(O), Label(7), Mark(X), Label(9)];
    var b8 := [Mark(X), Mark(O), Mark(X), Mark(X), Mark(O), Mark(O), Mark(O), Mark(X), Label(9)];
    var r8 := [Some(9)];
    assert [Some(8), Some(7)] + r8 == moves;
    assert LineResults(b7) == NoLines && LineResults(b8) == NoLines;
    assert b7 == b6[7 := Mark(X)] && b8 == b7[6 := Mark(O)];
    LastTieMove(b8, r8);
    AnnBenRound(b6, "Ann", 8, 7, r8, b7, b8);
  }

  /** Ann's fifth mark fills the board without a line: a tie. */
  lemma LastTieMove(b8: seq<Cell>, moves: seq<Option<int>>)
    requires b8 == [Mark(X), Mark(O), Mark(X), Mark(X), Mark(O), Mark(O), Mark(O), Mark(X), Label(9)]
    requires moves == [Some(9)]
    ensures Turns(b8, AnnBen, ["Ann", "Ben"], "Ann", moves, None, false)
      == Outcome(TieBoard(), None, true, 1, true)
  {
    var b9 := TieBoard();
    assert ClearRemaining(b9) == b9;
    TieBoardExample(AnnBen);
    assert Get(AnnBen, "Ann") == Some(X);
    assert b9 == b8[8 := Mark(X)];
    StepTies(b8, AnnBen, ["Ann", "Ben"], "Ann", moves, None, false, b9);
  }
}
