/** The small Option type used for parsed input and for lookups that may fail. */
module Wrappers {
  datatype Option<+T> = None | Some(value: T)
}

/**
 * The nine cells of the game board and the queries that only read them.
 * A cell is a positional label before a mark is placed there, a mark, or
 * blank once the remaining labels are cleared at the end of a game.
 */
module Board {
  import opened Wrappers

  datatype Symbol = X | O

  datatype Cell = Label(n: int) | Blank | Mark(symbol: Symbol)

  /** The cell is one of the two marks (the source's `in ['X', 'O']`). */
  predicate IsMark(c: Cell) {
    c.Mark?
  }

  /** The board of a new game: cell i shows the label i + 1. */
  function FreshBoard(): (b: seq<Cell>)
    ensures |b| == 9
    ensures forall i :: 0 <= i < 9 ==> b[i] == Label(i + 1)
  {
    [Label(1), Label(2), Label(3), Label(4), Label(5), Label(6), Label(7), Label(8), Label(9)]
  }

  /**
   * `is_valid_move`: the input parses to a position in 1..9 whose cell does
   * not hold a mark yet. Unparsable input (None) is simply not valid.
   */
  predicate IsValidMove(b: seq<Cell>, position: Option<int>)
    requires |b| == 9
  {
    match position
    case None => false
    case Some(p) => 1 <= p <= 9 && !IsMark(b[p - 1])
  }

  /** `is_board_full`: every cell holds a mark. */
  predicate IsBoardFull(b: seq<Cell>) {
    forall i :: 0 <= i < |b| ==> IsMark(b[i])
  }

  /** The number of cells that do not hold a mark yet. */
  function UnmarkedCount(b: seq<Cell>): (n: nat)
    ensures n <= |b|
  {
    if b == [] then 0
    else (if IsMark(b[0]) then 0 else 1) + UnmarkedCount(b[1..])
  }

  /** What `clear_remaining_numbers` does to one cell. */
  function ClearCell(c: Cell): Cell {
    if IsMark(c) then c else Blank
  }

  /** `clear_remaining_numbers` on a board value: every non-mark cell becomes blank. */
  function ClearRemaining(b: seq<Cell>): (r: seq<Cell>)
    ensures |r| == |b|
    ensures forall i :: 0 <= i < |b| ==> r[i] == ClearCell(b[i])
  {
    seq(|b|, i requires 0 <= i < |b| => ClearCell(b[i]))
  }

  /** The symbol that fills the line of cells i, j, l, if they hold one mark. */
  function Line(b: seq<Cell>, i: nat, j: nat, l: nat): Option<Symbol>
    requires i < |b| && j < |b| && l < |b|
  {
    if b[i] == b[j] == b[l] && IsMark(b[i]) then Some(b[i].symbol) else None
  }

  /**
   * What each of the eight winning lines holds, in the order the source
   * checks them: the three rows, the three columns, the two diagonals.
   */
  function LineResults(b: seq<Cell>): (r: seq<Option<Symbol>>)
    requires |b| == 9
    ensures |r| == 8
  {
    [Line(b, 0, 1, 2), Line(b, 3, 4, 5), Line(b, 6, 7, 8),
     Line(b, 0, 3, 6), Line(b, 1, 4, 7), Line(b, 2, 5, 8),
     Line(b, 0, 4, 8), Line(b, 2, 4, 6)]
  }

  /** No line is filled yet. */
  const NoLines: seq<Option<Symbol>> := [None, None, None, None, None, None, None, None]

  /** Some winning line is filled with symbol s. */
  predicate HasLine(b: seq<Cell>, s: Symbol)
    requires |b| == 9
  {
    Some(s) in LineResults(b)
  }

  // ---------------------------------------------------------------------
  // Lemmas about the board queries

  /** On a fresh board every position 1..9 is a valid move. */
  lemma FreshBoardAllValid(p: int)
    requires 1 <= p <= 9
    ensures IsValidMove(FreshBoard(), Some(p))
  {
  }

  /** A fresh board holds no line, so nobody can have won yet. */
  lemma FreshBoardNoLine(s: Symbol)
    ensures !HasLine(FreshBoard(), s)
  {
    assert LineResults(FreshBoard()) == NoLines;
  }

  /**
   * Placing a mark on a valid position makes that position invalid and
   * leaves the validity of every other position as it was.
   */
  lemma PlaceInvalidates(b: seq<Cell>, p: int, s: Symbol, q: int)
    requires |b| == 9 && IsValidMove(b, Some(p))
    ensures !IsValidMove(b[p - 1 := Mark(s)], Some(p))
    ensures q != p ==> IsValidMove(b[p - 1 := Mark(s)], Some(q)) == IsValidMove(b, Some(q))
  {
  }

  /** The board is full exactly when no unmarked cell is left. */
  lemma {:induction false} FullIffNoUnmarked(b: seq<Cell>)
    ensures IsBoardFull(b) <==> UnmarkedCount(b) == 0
  {
    if b != [] {
      FullIffNoUnmarked(b[1..]);
      assert IsBoardFull(b) <==> IsMark(b[0]) && IsBoardFull(b[1..]) by {
        if IsBoardFull(b) {
          forall i | 0 <= i < |b[1..]| ensures IsMark(b[1..][i]) {
            assert b[1..][i] == b[i + 1];
          }
        }
        if IsMark(b[0]) && IsBoardFull(b[1..]) {
          forall i | 0 <= i < |b| ensures IsMark(b[i]) {
            if i > 0 { assert b[i] == b[1..][i - 1]; }
          }
        }
      }
    }
  }

  /** Marking an unmarked cell lowers the number of unmarked cells by one. */
  lemma {:induction false} MarkingCountsDown(b: seq<Cell>, i: int, s: Symbol)
    requires 0 <= i < |b| && !IsMark(b[i])
    ensures UnmarkedCount(b[i := Mark(s)]) == UnmarkedCount(b) - 1
  {
    if i == 0 {
      assert b[i := Mark(s)][1..] == b[1..];
    } else {
      assert b[i := Mark(s)][1..] == b[1..][i - 1 := Mark(s)];
      MarkingCountsDown(b[1..], i - 1, s);
    }
  }

  /** Clearing twice is clearing once. */
  lemma ClearIdempotent(b: seq<Cell>)
    ensures ClearRemaining(ClearRemaining(b)) == ClearRemaining(b)
  {
  }

  /** Clearing leaves every mark in place and leaves no label behind. */
  lemma ClearKeepsMarks(b: seq<Cell>)
    ensures forall i :: 0 <= i < |b| && IsMark(b[i]) ==> ClearRemaining(b)[i] == b[i]
    ensures forall i :: 0 <= i < |b| ==> !ClearRemaining(b)[i].Label?
  {
  }

  /** Clearing does not change whether the board is full. */
  lemma ClearKeepsFull(b: seq<Cell>)
    ensures IsBoardFull(ClearRemaining(b)) == IsBoardFull(b)
  {
  }

  /** Clearing does not change what any line holds. */
  lemma ClearKeepsLines(b: seq<Cell>)
    requires |b| == 9
    ensures LineResults(ClearRemaining(b)) == LineResults(b)
  {
    var c := ClearRemaining(b);
    forall i: nat, j: nat, l: nat | i < 9 && j < 9 && l < 9
      ensures Line(c, i, j, l) == Line(b, i, j, l)
    {
      if c[i] == c[j] == c[l] && IsMark(c[i]) {
        assert b[i] == c[i] && b[j] == c[j] && b[l] == c[l];
      }
    }
  }
}
