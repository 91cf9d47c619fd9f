/**
 * The player registry: the name -> mark dictionary of the game, the
 * choice of symbols, and the swap of the active player.
 *
 * The source keeps the registry in a Python dict, whose key order is the
 * order of first insertion; that order decides both the turn order and
 * which player `check_winner` reports, so the dict is modelled as a list of
 * entries in insertion order.
 */
module Registry {
  import opened Wrappers
  import opened Board

  datatype Entry = Entry(name: string, mark: Symbol)

  type Dict = seq<Entry>

  /** No name occurs twice, as in any Python dict. */
  predicate DistinctNames(d: Dict) {
    forall i, j :: 0 <= i < j < |d| ==> d[i].name != d[j].name
  }

  /** `d[k]`: the mark stored under k, or None where Python raises KeyError. */
  function Get(d: Dict, k: string): Option<Symbol>
  {
    if d == [] then None
    else if d[0].name == k then Some(d[0].mark)
    else Get(d[1..], k)
  }

  /**
   * `d[k] = v`: an existing key keeps its place and takes the new mark; a
   * new key goes to the end.
   */
  function Put(d: Dict, k: string, v: Symbol): (r: Dict)
    ensures |r| == if Get(d, k).Some? then |d| else |d| + 1
  {
    if d == [] then [Entry(k, v)]
    else if d[0].name == k then [Entry(k, v)] + d[1..]
    else [d[0]] + Put(d[1..], k, v)
  }

  /** `list(d.keys())`. */
  function Keys(d: Dict): (r: seq<string>)
    ensures |r| == |d|
    ensures forall i :: 0 <= i < |d| ==> r[i] == d[i].name
  {
    if d == [] then [] else [d[0].name] + Keys(d[1..])
  }

  /** The other mark: `'O' if symbol == 'X' else 'X'`. */
  function Other(s: Symbol): (r: Symbol)
    ensures r != s
  {
    if s == X then O else X
  }

  /** `str.upper` on one character: the letters a..z become A..Z, anything else stays. */
  function UpperChar(c: char): char {
    if 'a' <= c <= 'z' then (c as int - 32) as char else c
  }

  /** `str.upper` on a string, character by character. */
  function Upper(text: string): (r: string)
    ensures |r| == |text|
  {
    if text == [] then [] else [UpperChar(text[0])] + Upper(text[1..])
  }

  /** `input(...).upper()` followed by the test `in ['X', 'O']`. */
  function ParseSymbol(text: string): (r: Option<Symbol>)
  {
    var u := Upper(text);
    if u == "X" then Some(X)
    else if u == "O" then Some(O)
    else None
  }

  /** The first answer the symbol prompt accepts, None if the answers run out. */
  function FirstSymbol(answers: seq<string>): (r: Option<Symbol>)
    ensures r.Some? <==> exists i :: 0 <= i < |answers| && ParseSymbol(answers[i]).Some?
  {
    if answers == [] then None
    else if ParseSymbol(answers[0]).Some? then ParseSymbol(answers[0])
    else FirstSymbol(answers[1..])
  }

  /** The name that gets to choose first: the coin of `random.choice`. */
  function Chooser(name1: string, name2: string, firstChooses: bool): string {
    if firstChooses then name1 else name2
  }

  /**
   * The dictionary and the name list `assign_symbols_randomly` leaves behind,
   * written into the dictionary `prior` it finds. `choice` is the accepted
   * symbol, or None when reading the answer fails, in which case the
   * fallback branch assigns name1 -> X and name2 -> O.
   */
  function AssignMarks(prior: Dict, name1: string, name2: string, firstChooses: bool,
                       choice: Option<Symbol>): (Dict, seq<string>)
  {
    match choice
    case None =>
      (Put(Put(prior, name1, X), name2, O), [name1, name2])
    case Some(s) =>
      var d :=
        if Chooser(name1, name2, firstChooses) == name1
        then Put(Put(prior, name1, s), name2, Other(s))
        else Put(Put(prior, name2, s), name1, Other(s));
      (d, Keys(d))
  }

  /**
   * The turn swap `names[1] if current == names[0] else names[0]`; None
   * where Python raises IndexError because the list has a single name.
   */
  function NextPlayer(names: seq<string>, current: string): (r: Option<string>)
    requires |names| >= 1
    ensures r.Some? ==> r.value in names
    ensures r.None? <==> |names| == 1 && current == names[0]
  {
    if current == names[0] then
      if |names| >= 2 then Some(names[1]) else None
    else Some(names[0])
  }

  // ---------------------------------------------------------------------
  // Lemmas: the dictionary behaves like a dictionary

  /** A key has a value exactly when some entry holds it, and the value is that entry's mark. */
  lemma {:induction false} GetFinds(d: Dict, k: string)
    ensures Get(d, k).Some? <==> exists i :: 0 <= i < |d| && d[i].name == k
    ensures Get(d, k).Some? ==> Entry(k, Get(d, k).value) in d
  {
    if d != [] && d[0].name != k {
      GetFinds(d[1..], k);
      if Get(d, k).Some? {
        var i :| 0 <= i < |d[1..]| && d[1..][i].name == k;
        assert d[i + 1].name == k;
      }
      if exists i :: 0 <= i < |d| && d[i].name == k {
        var i :| 0 <= i < |d| && d[i].name == k;
        assert d[1..][i - 1].name == k;
      }
    }
  }

  /** Reading the key just written gives the value written. */
  lemma {:induction false} GetPutSame(d: Dict, k: string, v: Symbol)
    ensures Get(Put(d, k, v), k) == Some(v)
  {
    if d != [] && d[0].name != k {
      GetPutSame(d[1..], k, v);
      assert Put(d, k, v)[1..] == Put(d[1..], k, v);
    }
  }

  /** Writing one key leaves every other key's value alone. */
  lemma {:induction false} GetPutOther(d: Dict, k: string, v: Symbol, k2: string)
    requires k2 != k
    ensures Get(Put(d, k, v), k2) == Get(d, k2)
  {
    if d != [] {
      if d[0].name == k {
        assert Put(d, k, v)[1..] == d[1..];
      } else if d[0].name != k2 {
        GetPutOther(d[1..], k, v, k2);
        assert Put(d, k, v)[1..] == Put(d[1..], k, v);
      }
    }
  }

  /** Writing a key keeps the names distinct. */
  lemma {:induction false} PutKeepsDistinct(d: Dict, k: string, v: Symbol)
    requires DistinctNames(d)
    ensures DistinctNames(Put(d, k, v))
    ensures forall i :: 0 <= i < |Put(d, k, v)| ==>
      Put(d, k, v)[i].name in Keys(d) || Put(d, k, v)[i].name == k
  {
    if d != [] {
      if d[0].name == k {
        var r := Put(d, k, v);
        forall i | 0 <= i < |r| ensures r[i].name == d[i].name { }
      } else {
        var t := Put(d[1..], k, v);
        assert DistinctNames(d[1..]) by {
          forall i, j | 0 <= i < j < |d[1..]| ensures d[1..][i].name != d[1..][j].name {
            assert d[1..][i] == d[i + 1] && d[1..][j] == d[j + 1];
          }
        }
        PutKeepsDistinct(d[1..], k, v);
        var r := Put(d, k, v);
        assert r == [d[0]] + t;
        forall i | 1 <= i < |r| ensures r[i].name != d[0].name {
          assert r[i] == t[i - 1];
          if t[i - 1].name != k {
            var j :| 0 <= j < |d[1..]| && Keys(d[1..])[j] == t[i - 1].name;
            assert d[1..][j] == d[j + 1];
          }
        }
        forall i | 0 <= i < |r| ensures r[i].name in Keys(d) || r[i].name == k {
          if i > 0 {
            assert r[i] == t[i - 1];
            if t[i - 1].name != k {
              var j :| 0 <= j < |d[1..]| && Keys(d[1..])[j] == t[i - 1].name;
              assert Keys(d)[j + 1] == d[j + 1].name == d[1..][j].name;
            }
          }
        }
      }
    }
  }

  /** A write keeps the key order: an existing key stays in place, a new key goes to the end. */
  lemma {:induction false} PutKeysOrder(d: Dict, k: string, v: Symbol)
    ensures Keys(Put(d, k, v)) == if k in Keys(d) then Keys(d) else Keys(d) + [k]
  {
    if d == [] {
      assert Keys([Entry(k, v)]) == [k];
    } else if d[0].name == k {
      assert Put(d, k, v)[1..] == d[1..];
      assert Keys(Put(d, k, v)) == [k] + Keys(d[1..]);
    } else {
      PutKeysOrder(d[1..], k, v);
      var t := Put(d[1..], k, v);
      assert Put(d, k, v)[1..] == t;
      assert Keys(Put(d, k, v)) == [d[0].name] + Keys(t);
      assert Keys(d) == [d[0].name] + Keys(d[1..]);
      assert k in Keys(d) <==> k in Keys(d[1..]);
    }
  }

  // ---------------------------------------------------------------------
  // Lemmas: assigning the marks

  /** An accepted answer is exactly X or O, in either case. */
  lemma ParseSymbolAccepts(text: string)
    ensures ParseSymbol(text) == Some(X) <==> text in {"X", "x"}
    ensures ParseSymbol(text) == Some(O) <==> text in {"O", "o"}
  {
    if |text| == 1 {
      assert Upper(text) == [UpperChar(text[0])];
      assert text == [text[0]];
    }
  }

  /**
   * The prompt keeps the first accepted answer: the symbol found is the
   * parse of some answer k, and every answer before k is rejected.
   */
  lemma {:induction false} FirstSymbolIsFirst(answers: seq<string>)
    ensures var r := FirstSymbol(answers);
      r.Some? ==> exists k :: 0 <= k < |answers| && ParseSymbol(answers[k]) == r
                    && forall j :: 0 <= j < k ==> ParseSymbol(answers[j]).None?
  {
    if answers != [] && ParseSymbol(answers[0]).None? {
      FirstSymbolIsFirst(answers[1..]);
      var r := FirstSymbol(answers);
      if r.Some? {
        var k :| 0 <= k < |answers[1..]| && ParseSymbol(answers[1..][k]) == r
                 && forall j :: 0 <= j < k ==> ParseSymbol(answers[1..][j]).None?;
        assert ParseSymbol(answers[k + 1]) == r;
        forall j | 0 <= j < k + 1 ensures ParseSymbol(answers[j]).None? {
          if j > 0 { assert answers[j] == answers[1..][j - 1]; }
        }
      }
    }
  }

  /** The complement of the complement is the mark itself, and the two cover X and O. */
  lemma OtherCovers(s: Symbol)
    ensures Other(Other(s)) == s
    ensures {s, Other(s)} == {X, O}
  {
  }

  /**
   * A fresh registry for two different names: both names are registered,
   * in the order they were assigned, with complementary marks; the chooser
   * keeps the accepted symbol, and the fallback gives name1 X and name2 O.
   */
  lemma FreshAssignmentComplementary(name1: string, name2: string, firstChooses: bool,
                                     choice: Option<Symbol>)
    requires name1 != name2
    ensures var (d, names) := AssignMarks([], name1, name2, firstChooses, choice);
      && DistinctNames(d)
      && names == Keys(d)
      && |d| == 2
      && Get(d, name1).Some? && Get(d, name2).Some?
      && Get(d, name1).value == Other(Get(d, name2).value)
      && (choice.Some? ==>
            var c := Chooser(name1, name2, firstChooses);
            && Get(d, c) == choice
            && names == [c, if c == name1 then name2 else name1])
      && (choice.None? ==> Get(d, name1) == Some(X) && Get(d, name2) == Some(O))
  {
    var (d, names) := AssignMarks([], name1, name2, firstChooses, choice);
    match choice
    case None =>
      assert Put([], name1, X) == [Entry(name1, X)];
      assert Put([Entry(name1, X)], name2, O) == [Entry(name1, X), Entry(name2, O)];
    case Some(s) =>
      if Chooser(name1, name2, firstChooses) == name1 {
        assert Put([], name1, s) == [Entry(name1, s)];
        assert Put([Entry(name1, s)], name2, Other(s)) == [Entry(name1, s), Entry(name2, Other(s))];
      } else {
        assert Put([], name2, s) == [Entry(name2, s)];
        assert Put([Entry(name2, s)], name1, Other(s)) == [Entry(name2, s), Entry(name1, Other(s))];
      }
  }

  /**
   * Into any registry that holds neither of two different names, an accepted
   * choice appends the chooser and then the other name, after every name
   * already there: the returned list keeps the names of earlier games.
   */
  lemma AssignMarksOrder(prior: Dict, name1: string, name2: string, firstChooses: bool, s: Symbol)
    requires name1 != name2 && name1 !in Keys(prior) && name2 !in Keys(prior)
    ensures var c := Chooser(name1, name2, firstChooses);
      AssignMarks(prior, name1, name2, firstChooses, Some(s)).1
        == Keys(prior) + [c, if c == name1 then name2 else name1]
  {
    var c := Chooser(name1, name2, firstChooses);
    var o := if c == name1 then name2 else name1;
    PutKeysOrder(prior, c, s);
    PutKeysOrder(Put(prior, c, s), o, Other(s));
    assert o !in Keys(prior) + [c];
    assert Keys(prior) + [c] + [o] == Keys(prior) + [c, o];
  }

  /**
   * Two equal names share one dictionary entry: the second write replaces
   * the chooser's symbol by its complement, and the name list has one name,
   * so the turn swap after a first non-final move has no second name.
   */
  lemma DuplicateNameLosesChoice(name: string, firstChooses: bool, s: Symbol)
    ensures var (d, names) := AssignMarks([], name, name, firstChooses, Some(s));
      && d == [Entry(name, Other(s))]
      && names == [name]
      && NextPlayer(names, name).None?
  {
  }

  /** With two different names the swap always hands the turn to the other one. */
  lemma SwapAlternates(a: string, b: string, current: string)
    requires a != b && current in [a, b]
    ensures NextPlayer([a, b], current) == Some(if current == a then b else a)
  {
  }
}
