/**
 * The game object: the board array, the player registry and the result
 * fields, with the operations that change them in place.
 */
module Game {
  import opened Wrappers
  import opened Board
  import opened Registry
  import opened Rules
  import opened Session

  /** Python's index normalisation: -n <= i < 0 counts from the end. */
  function PyIndex(i: int, n: int): (r: int)
    requires -n <= i < n
    ensures 0 <= r < n
    ensures i >= 0 ==> r == i
  {
    if i < 0 then i + n else i
  }

  /** The record a completed game hands to the history sink. */
  function Record(players: Dict, name1: string, name2: string, o: Outcome): GameRecord
    requires Get(players, name1).Some? && Get(players, name2).Some?
  {
    GameRecord(name1, Get(players, name1).value, name2, Get(players, name2).value,
               if o.winner.Some? then Win(o.winner.value) else Tie, o.board)
  }

  class TicTacToeGame {
    var board: array<Cell>
    var players: Dict
    var winner: Option<string>
    var isTie: bool

    /** The board always has nine cells and the registry no repeated name. */
    ghost predicate Valid()
      reads this
    {
      board.Length == 9 && DistinctNames(players)
    }

    /** `__init__`: a fresh board, an empty registry, no result yet. */
    constructor ()
      ensures Valid() && fresh(board)
      ensures board[..] == FreshBoard() && players == [] && winner == None && !isTie
    {
      board := new Cell[9](i => Label(i + 1));
      players := [];
      winner := None;
      isTie := false;
      new;
      assert board[..] == FreshBoard();
    }

    /** `reset_board`: a new board of labels and no result; the registry stays. */
    method ResetBoard()
      requires Valid()
      modifies this
      ensures Valid() && fresh(board)
      ensures board[..] == FreshBoard() && winner == None && !isTie
      ensures players == old(players)
    {
      board := new Cell[9](i => Label(i + 1));
      winner := None;
      isTie := false;
      assert board[..] == FreshBoard();
    }

    /** `clear_remaining_numbers`: every cell without a mark becomes blank. */
    method ClearRemainingNumbers()
      requires Valid()
      modifies board
      ensures board[..] == ClearRemaining(old(board[..]))
    {
      for i := 0 to 9
        invariant forall j :: 0 <= j < i ==> board[j] == ClearCell(old(board[j]))
        invariant forall j :: i <= j < 9 ==> board[j] == old(board[j])
      {
        if !IsMark(board[i]) {
          board[i] := Blank;
        }
      }
    }

    /**
     * `make_move`: write the mover's mark at `position - 1`, with Python's
     * negative indexing. It fails (returns false, board untouched) when the
     * answer is not an integer, the index is outside the list or the name is
     * not registered. It does not look at what the cell holds.
     */
    method MakeMove(position: Option<int>, name: string) returns (ok: bool)
      requires Valid()
      modifies board
      ensures ok <==> position.Some? && -8 <= position.value <= 9 && Get(players, name).Some?
      ensures ok ==> board[..] == old(board[..])[PyIndex(position.value - 1, 9) := Mark(Get(players, name).value)]
      ensures !ok ==> board[..] == old(board[..])
    {
      if position.None? {
        return false;
      }
      var pos := position.value - 1;
      var mark := Get(players, name);
      if mark.None? || !(-9 <= pos < 9) {
        return false;
      }
      board[PyIndex(pos, 9)] := Mark(mark.value);
      return true;
    }

    /**
     * `assign_symbols_randomly`, with the registry emptied first (see the
     * findings): the chooser's answers are read until one is X or O in either
     * case; the chooser gets that mark and the other name its complement, and
     * the names come back in the order they were registered. When the answers
     * run out, the fallback gives name1 X and name2 O.
     */
    method AssignSymbols(name1: string, name2: string, firstChooses: bool, answers: seq<string>)
      returns (names: seq<string>)
      requires Valid()
      modifies this
      ensures Valid() && board == old(board) && winner == old(winner) && isTie == old(isTie)
      ensures (players, names) == AssignMarks([], name1, name2, firstChooses, FirstSymbol(answers))
    {
      var chooser := Chooser(name1, name2, firstChooses);
      var i := 0;
      while i < |answers| && ParseSymbol(answers[i]).None?
        invariant 0 <= i <= |answers|
        invariant FirstSymbol(answers[i..]) == FirstSymbol(answers)
      {
        assert answers[i..][1..] == answers[i + 1..];
        i := i + 1;
      }
      players := [];
      if i == |answers| {
        players := Put(players, name1, X);
        players := Put(players, name2, O);
        names := [name1, name2];
      } else {
        var symbol := ParseSymbol(answers[i]).value;
        if chooser == name1 {
          players := Put(players, name1, symbol);
          players := Put(players, name2, Other(symbol));
        } else {
          players := Put(players, name2, symbol);
          players := Put(players, name1, Other(symbol));
        }
        names := Keys(players);
      }
      AssignMarksRegisters([], name1, name2, firstChooses, FirstSymbol(answers));
    }

    /**
     * `play_single_game` after the names are read: assign the marks, let
     * `starter` pick the first mover among the returned names, then run the
     * turn loop on the move answers. The result is the record handed to the
     * history sink, or None when the game ends without one (the answers ran
     * out, or the turn swap found a single name).
     */
    method PlaySingleGame(name1: string, name2: string, firstChooses: bool, answers: seq<string>,
                          starter: nat, moves: seq<Option<int>>)
      returns (record: Option<GameRecord>, accepted: nat)
      requires Valid() && name1 != "" && name2 != ""
      modifies this, board
      ensures Valid() && board == old(board)
      ensures var r := AssignMarks([], name1, name2, firstChooses, FirstSymbol(answers));
        && players == r.0
        && |r.1| >= 1 && Registered(r.0, r.1)
        && Get(r.0, name1).Some? && Get(r.0, name2).Some?
        && var o := Turns(old(board[..]), r.0, r.1, r.1[starter % |r.1|], moves,
                          old(winner), old(isTie));
        && board[..] == o.board && winner == o.winner && isTie == o.isTie
        && accepted == o.accepted
        && record == if o.completed then Some(Record(r.0, name1, name2, o)) else None
    {
      var names := AssignSymbols(name1, name2, firstChooses, answers);
      AssignMarksRegisters([], name1, name2, firstChooses, FirstSymbol(answers));
      var current := names[starter % |names|];
      var completed;
      completed, accepted := RunTurns(names, current, moves);
      if completed {
        record := Some(Record(players, name1, name2, Outcome(board[..], winner, isTie, accepted, completed)));
      } else {
        record := None;
      }
    }

    /**
     * The inner `while True` of the turn loop: the index of the first answer
     * from i on that is a valid move, or |moves| when none is.
     */
    method NextValidAnswer(moves: seq<Option<int>>, i: int) returns (j: int)
      requires Valid() && 0 <= i <= |moves|
      ensures i <= j <= |moves|
      ensures forall k :: i <= k < j ==> !IsValidMove(board[..], moves[k])
      ensures j < |moves| ==> IsValidMove(board[..], moves[j])
    {
      j := i;
      while j < |moves| && !IsValidMove(board[..], moves[j])
        invariant i <= j <= |moves|
        invariant forall k :: i <= k < j ==> !IsValidMove(board[..], moves[k])
      {
        j := j + 1;
      }
    }

    /**
     * The `while True` turn loop of `play_single_game`: read answers until one
     * is a valid move, then play that turn; stop when the turn ends the game
     * or the answers run out. `completed` is false when the game ends
     * without a result.
     */
    method RunTurns(names: seq<string>, current0: string, moves: seq<Option<int>>)
      returns (completed: bool, accepted: nat)
      requires Valid() && |names| >= 1 && Registered(players, names) && current0 in names
      modifies this`winner, this`isTie, board
      ensures Valid()
      ensures var o := Turns(old(board[..]), players, names, current0, moves, old(winner), old(isTie));
        board[..] == o.board && winner == o.winner && isTie == o.isTie
        && accepted == o.accepted && completed == o.completed
    {
      ghost var spec := Turns(board[..], players, names, current0, moves, winner, isTie);
      var current := current0;
      var i := 0;
      accepted := 0;
      while true
        invariant Valid()
        invariant |names| >= 1 && Registered(players, names) && current in names
        invariant 0 <= i <= |moves|
        invariant var o := Turns(board[..], players, names, current, moves[i..], winner, isTie);
          spec == o.(accepted := o.accepted + accepted)
        decreases UnmarkedCount(board[..])
      {
        var status, j := ReadAndPlay(names, current, moves, i);
        match status
        case Stopped =>
          return false, accepted;
        case Finished(done) =>
          return done, accepted + 1;
        case Continue(next) =>
          current, i, accepted := next, j, accepted + 1;
      }
    }

    /**
     * One pass of the turn loop: read answers from i on until one is a valid
     * move and play that turn. `Stopped` means the answers ran out first
     * (reading fails: no result); otherwise the turn ends the game or passes
     * it on, and j is the index after the answer that was played.
     */
    method ReadAndPlay(names: seq<string>, current: string, moves: seq<Option<int>>, i: int)
      returns (status: TurnStatus, j: int)
      requires Valid() && |names| >= 1 && Registered(players, names) && current in names
      requires 0 <= i <= |moves|
      modifies this`winner, this`isTie, board
      ensures Valid() && i <= j <= |moves|
      ensures var o := Turns(old(board[..]), players, names, current, moves[i..], old(winner), old(isTie));
        match status
        case Stopped =>
          o == Outcome(board[..], winner, isTie, 0, false)
        case Finished(done) =>
          o == Outcome(board[..], winner, isTie, 1, done)
        case Continue(next) =>
          && next in names
          && UnmarkedCount(board[..]) < UnmarkedCount(old(board[..]))
          && o == var o' := Turns(board[..], players, names, next, moves[j..], winner, isTie);
                  o'.(accepted := o'.accepted + 1)
    {
      j := NextValidAnswer(moves, i);
      SkipInvalidAnswers(board[..], players, names, current, moves, i, j, winner, isTie);
      if j == |moves| {
        assert moves[j..] == [];
        return Stopped, j;
      }
      assert moves[j..][1..] == moves[j + 1..];
      status := PlayTurn(names, current, moves[j]);
      j := j + 1;
    }

    /**
     * One pass of the turn loop once a valid answer is read: place the mark
     * of the player whose turn it is, check for a winner, then for a full
     * board (clearing the labels when either ends the game), and otherwise
     * pass the turn to the other name; the game also ends, without a
     * result, when the list has no other name.
     */
    method PlayTurn(names: seq<string>, current: string, move: Option<int>)
      returns (status: TurnStatus)
      requires Valid() && |names| >= 1 && Registered(players, names) && current in names
      requires IsValidMove(board[..], move)
      modifies this`winner, this`isTie, board
      ensures Valid()
      ensures var s := TurnStep(old(board[..]), players, names, current, move.value, old(isTie));
        match status
        case Stopped => false
        case Finished(done) => s == Ended(board[..], winner, isTie, done)
        case Continue(next) => s == Passed(board[..], next) && winner == None && isTie == old(isTie)
    {
      ghost var before := board[..];
      var _ := MakeMove(move, current);
      var w := CheckWinner(board[..], players);
      winner := w;
      if w.Some? {
        ClearRemainingNumbers();
        return Finished(true);
      }
      if IsBoardFull(board[..]) {
        isTie := true;
        ClearRemainingNumbers();
        return Finished(true);
      }
      var next := NextPlayer(names, current);
      if next.None? {
        // the turn swap indexes past a one-name list: no result
        return Finished(false);
      }
      return Continue(next.value);
    }
  }

  /**
   * How one pass of the turn loop ends: the answers ran out, the game is
   * over (with a result or not), or the turn passes.
   */
  datatype TurnStatus = Stopped | Finished(completed: bool) | Continue(next: string)

  /** After any assignment both names are registered and the registry keeps distinct names. */
  lemma AssignMarksRegisters(prior: Dict, name1: string, name2: string, firstChooses: bool,
                             choice: Option<Symbol>)
    requires DistinctNames(prior)
    ensures var r := AssignMarks(prior, name1, name2, firstChooses, choice);
      && DistinctNames(r.0)
      && Get(r.0, name1).Some? && Get(r.0, name2).Some?
      && |r.1| >= 1 && Registered(r.0, r.1)
  {
    if choice.None? {
      PutTwice(prior, name1, X, name2, O);
    } else {
      var s := choice.value;
      var d;
      if Chooser(name1, name2, firstChooses) == name1 {
        PutTwice(prior, name1, s, name2, Other(s));
        d := Put(Put(prior, name1, s), name2, Other(s));
      } else {
        PutTwice(prior, name2, s, name1, Other(s));
        d := Put(Put(prior, name2, s), name1, Other(s));
      }
      assert AssignMarks(prior, name1, name2, firstChooses, choice) == (d, Keys(d));
      KeysRegistered(d);
    }
  }

  /**
   * The registry as written is never emptied between games: after Ann (X)
   * and Ben (O) have played, a second game of Cat and Dan in which Cat
   * chooses X lists four names, hands the turn after Cat's move to Ann, and
   * credits a row of X to Ann rather than Cat.
   */
  lemma StaleRegistryNextGame()
    ensures var (d, names) := AssignMarks(AnnBen, "Cat", "Dan", true, Some(X));
      && names == ["Ann", "Ben", "Cat", "Dan"]
      && NextPlayer(names, "Cat") == Some("Ann")
      && CheckWinner([Mark(X), Mark(X), Mark(X), Label(4), Label(5), Label(6), Label(7), Label(8), Label(9)], d)
         == Some("Ann")
  {
    var d1 := AnnBen + [Entry("Cat", X)];
    var d := d1 + [Entry("Dan", O)];
    assert Put([Entry("Ben", O)], "Cat", X) == [Entry("Ben", O), Entry("Cat", X)];
    assert Put(AnnBen, "Cat", X) == d1;
    assert Put([Entry("Cat", X)], "Dan", O) == [Entry("Cat", X), Entry("Dan", O)];
    assert Put([Entry("Ben", O), Entry("Cat", X)], "Dan", O) == [Entry("Ben", O)] + [Entry("Cat", X), Entry("Dan", O)];
    assert Put(d1, "Dan", O) == d;
    assert Keys(d) == ["Ann", "Ben", "Cat", "Dan"];
    var row := [Mark(X), Mark(X), Mark(X), Label(4), Label(5), Label(6), Label(7), Label(8), Label(9)];
    assert LineResults(row)[0] == Some(X);
  }

  /** Every key listed by Keys can be looked up. */
  lemma KeysRegistered(d: Dict)
    ensures Registered(d, Keys(d))
  {
    forall n | n in Keys(d) ensures Get(d, n).Some? {
      var i :| 0 <= i < |d| && Keys(d)[i] == n;
      assert d[i].name == n;
      GetFinds(d, n);
    }
  }

  /** Two writes leave both keys registered and the names distinct. */
  lemma PutTwice(prior: Dict, a: string, sa: Symbol, b: string, sb: Symbol)
    requires DistinctNames(prior)
    ensures var d := Put(Put(prior, a, sa), b, sb);
      DistinctNames(d) && Get(d, a).Some? && Get(d, b).Some? && |d| >= 1
  {
    var d1 := Put(prior, a, sa);
    PutKeepsDistinct(prior, a, sa);
    PutKeepsDistinct(d1, b, sb);
    GetPutSame(prior, a, sa);
    GetPutSame(d1, b, sb);
    if a != b {
      GetPutOther(d1, b, sb, a);
    }
  }
}
