/**
 * Win detection: `check_winner` scans the eight lines in a fixed order and,
 * for the first line filled with one mark, reports the first registered
 * player (in dictionary order) who holds that mark.
 */
module Rules {
  import opened Wrappers
  import opened Board
  import opened Registry

  /** The first player in dictionary order whose mark is s. */
  function FirstWithMark(players: Dict, s: Symbol): Option<string> {
    if players == [] then None
    else if players[0].mark == s then Some(players[0].name)
    else FirstWithMark(players[1..], s)
  }

  /**
   * The scan of `check_winner` over the line results: the first filled line
   * whose mark some player holds decides, and that player is the first one
   * in dictionary order with the mark.
   */
  function ScanLines(lines: seq<Option<Symbol>>, players: Dict): Option<string> {
    if lines == [] then None
    else if lines[0].Some? && FirstWithMark(players, lines[0].value).Some? then
      FirstWithMark(players, lines[0].value)
    else
      ScanLines(lines[1..], players)
  }

  /** `check_winner` on the board `b` with the registry `players`. */
  function CheckWinner(b: seq<Cell>, players: Dict): Option<string>
    requires |b| == 9
  {
    ScanLines(LineResults(b), players)
  }

  // ---------------------------------------------------------------------
  // Lemmas: what the scan reports

  /**
   * A player is found for mark s exactly when one holds s, and the one found
   * is the first entry, in dictionary order, that holds s.
   */
  lemma {:induction false} FirstWithMarkFinds(players: Dict, s: Symbol)
    ensures var r := FirstWithMark(players, s);
      && (r.Some? ==> Entry(r.value, s) in players)
      && (r.Some? ==> exists k :: 0 <= k < |players| && players[k] == Entry(r.value, s)
                        && forall j :: 0 <= j < k ==> players[j].mark != s)
      && (r.None? <==> forall e :: e in players ==> e.mark != s)
  {
    if players != [] {
      if players[0].mark == s {
        assert players[0] == Entry(players[0].name, s);
      } else {
        FirstWithMarkFinds(players[1..], s);
        assert forall e :: e in players ==> e == players[0] || e in players[1..];
        var r := FirstWithMark(players, s);
        if r.Some? {
          var k :| 0 <= k < |players[1..]| && players[1..][k] == Entry(r.value, s)
                   && forall j :: 0 <= j < k ==> players[1..][j].mark != s;
          assert players[k + 1] == Entry(r.value, s);
          forall j | 0 <= j < k + 1 ensures players[j].mark != s {
            if j > 0 { assert players[j] == players[1..][j - 1]; }
          }
        }
      }
    }
  }

  /**
   * The scan reports a player only if a line holds that player's mark, and
   * reports nobody exactly when no line holds the mark of any player.
   */
  lemma {:induction false} ScanLinesFinds(lines: seq<Option<Symbol>>, players: Dict)
    ensures var r := ScanLines(lines, players);
      && (r.Some? ==> exists s :: Some(s) in lines && Entry(r.value, s) in players)
      && (r.None? <==> forall e :: e in players ==> Some(e.mark) !in lines)
  {
    if lines != [] {
      assert forall x :: x in lines <==> x == lines[0] || x in lines[1..];
      if lines[0].Some? {
        FirstWithMarkFinds(players, lines[0].value);
      }
      if !(lines[0].Some? && FirstWithMark(players, lines[0].value).Some?) {
        ScanLinesFinds(lines[1..], players);
      }
    }
  }

  /** A scan over lines none of which is filled reports nobody. */
  lemma {:induction false} ScanNothing(lines: seq<Option<Symbol>>, players: Dict)
    requires forall i :: 0 <= i < |lines| ==> lines[i].None?
    ensures ScanLines(lines, players).None?
  {
    if lines != [] {
      ScanNothing(lines[1..], players);
    }
  }

  /** Nobody has won on a board where no line is filled. */
  lemma NoLinesNoWinner(b: seq<Cell>, players: Dict)
    requires |b| == 9 && LineResults(b) == NoLines
    ensures CheckWinner(b, players).None?
  {
    ScanNothing(NoLines, players);
  }

  /**
   * `check_winner` reports a player only if some line is filled with that
   * player's mark, and reports nobody exactly when no line is filled with the
   * mark of a registered player.
   */
  lemma CheckWinnerSound(b: seq<Cell>, players: Dict)
    requires |b| == 9
    ensures var r := CheckWinner(b, players);
      && (r.Some? ==> exists e :: e in players && e.name == r.value && HasLine(b, e.mark))
      && (r.None? <==> forall e :: e in players ==> !HasLine(b, e.mark))
  {
    ScanLinesFinds(LineResults(b), players);
    var r := CheckWinner(b, players);
    if r.Some? {
      var s :| Some(s) in LineResults(b) && Entry(r.value, s) in players;
      assert HasLine(b, Entry(r.value, s).mark);
    }
  }


  /** Nobody has won on a fresh board, whoever is registered. */
  lemma NoWinnerOnFreshBoard(players: Dict)
    ensures CheckWinner(FreshBoard(), players).None?
  {
    assert LineResults(FreshBoard()) == NoLines;
    NoLinesNoWinner(FreshBoard(), players);
  }

  /** Clearing the remaining labels does not change who has won. */
  lemma ClearKeepsWinner(b: seq<Cell>, players: Dict)
    requires |b| == 9
    ensures CheckWinner(ClearRemaining(b), players) == CheckWinner(b, players)
  {
    ClearKeepsLines(b);
  }

  /**
   * With both marks registered, a winner is reported exactly when one of
   * the marks fills a line.
   */
  lemma WinnerWithBothMarks(b: seq<Cell>, players: Dict)
    requires |b| == 9
    requires exists e :: e in players && e.mark == X
    requires exists e :: e in players && e.mark == O
    ensures CheckWinner(b, players).Some? <==> HasLine(b, X) || HasLine(b, O)
  {
    CheckWinnerSound(b, players);
    var ex :| ex in players && ex.mark == X;
    var eo :| eo in players && eo.mark == O;
  }

  /** The full board [X,O,X / X,O,O / O,X,X]. */
  function TieBoard(): (b: seq<Cell>)
    ensures |b| == 9
  {
    [Mark(X), Mark(O), Mark(X), Mark(X), Mark(O), Mark(O), Mark(O), Mark(X), Mark(X)]
  }

  /** The tie board is full and nobody has a line on it, whoever is registered. */
  lemma TieBoardExample(players: Dict)
    ensures IsBoardFull(TieBoard()) && CheckWinner(TieBoard(), players).None?
  {
    assert LineResults(TieBoard()) == NoLines;
    NoLinesNoWinner(TieBoard(), players);
  }
}
