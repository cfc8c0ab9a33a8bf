/** The nonogram screen: the clue labels it draws, and the click, reset and new-game handlers that drive
    the engine, the per-line validity highlights and the timer. */
module NonogramScreen {
  import opened Opt
  import opened Strings
  import opened NonogramGame
  import opened Timer
  import opened KotlinInt

  // ---------------------------------------------------------------------------
  // Clue labels
  // ---------------------------------------------------------------------------

  /** The decimal text of each clue value. */
  function ClueStrings(clues: seq<int>): (parts: seq<string>)
    ensures |parts| == |clues| && forall i :: 0 <= i < |clues| ==> parts[i] == IntToString(clues[i])
  {
    seq(|clues|, i requires 0 <= i < |clues| => IntToString(clues[i]))
  }

  /** The label left of a row: "0" for an empty row, otherwise the values separated by single spaces. */
  function RowClueText(clues: seq<int>): string
  {
    if clues == [0] then "0" else Join(ClueStrings(clues), " ")
  }

  /** The number of lines a column label is padded to. */
  function MaxClues(gridSize: int): int
  {
    Quot(gridSize + 1, 2)
  }

  /** The label above a column: "\n\n0" for an empty column, otherwise one value per line, pushed down
      by blank lines to MaxClues lines. The source's `repeat` throws on a negative count, hence the
      precondition. */
  function ColumnClueText(clues: seq<int>, gridSize: int): string
    requires clues == [0] || |clues| <= MaxClues(gridSize)
  {
    if clues == [0] then "\n\n0"
    else Repeat("\n", MaxClues(gridSize) - |clues|) + Join(ClueStrings(clues), "\n")
  }

  /** The column clues of any line of a board of at least one cell fit in MaxClues lines. */
  lemma ColumnPaddingNonNegative(line: Line)
    requires |line| >= 1
    ensures |LineClues(line)| <= MaxClues(|line|)
  {
    LineCluesBound(line);
  }

  /** On the 5-by-5 board the special text for an empty column is the general formula's text. */
  lemma EmptyColumnTextIsGeneral()
    ensures Repeat("\n", MaxClues(5) - 1) + Join(ClueStrings([0]), "\n") == "\n\n0"
  {
    assert ClueStrings([0]) == ["0"];
    assert Repeat("\n", 2) == "\n\n";
  }

  /** Parsing every field. */
  function ParseAll(fields: seq<string>): (r: Option<seq<int>>)
    ensures r.Some? ==> |r.value| == |fields|
  {
    if fields == [] then Some([])
    else
      match (ParseInt(fields[0]), ParseAll(fields[1..]))
      case (Some(v), Some(vs)) => Some([v] + vs)
      case _ => None
  }

  /** The clue values a row label shows. */
  function ReadRowClueText(text: string): Option<seq<int>>
  {
    ParseAll(Split(text, ' '))
  }

  /** The label drawn for column `j` of a board whose column clues are `cc` reads back as its clue. */
  lemma ColumnTextReadsBack(g: Grid, n: nat, cc: seq<seq<int>>, j: nat)
    requires IsGrid(g, n) && n <= IntMax && cc == ColCluesOf(g, n) && j < n
    ensures cc[j] == [0] || |cc[j]| <= MaxClues(n)
    ensures ReadColumnClueText(ColumnClueText(cc[j], n)) == Some(cc[j])
  {
    ColumnClueTextRoundTrip(Column(g, j));
  }

  lemma ColumnTextsFit(g: Grid, n: nat, cc: seq<seq<int>>)
    requires IsGrid(g, n) && n <= IntMax && cc == ColCluesOf(g, n)
    ensures forall j :: 0 <= j < n ==> cc[j] == [0] || |cc[j]| <= MaxClues(n)
  {
    forall j | 0 <= j < n
      ensures cc[j] == [0] || |cc[j]| <= MaxClues(n)
    {
      ColumnTextReadsBack(g, n, cc, j);
    }
  }

  /** The labels drawn for all the columns read back as the column clues. */
  lemma ColumnTextsReadBack(g: Grid, n: nat, cc: seq<seq<int>>, texts: seq<string>)
    requires IsGrid(g, n) && n <= IntMax && cc == ColCluesOf(g, n)
    requires forall j :: 0 <= j < n ==> cc[j] == [0] || |cc[j]| <= MaxClues(n)
    requires |texts| == n && forall j :: 0 <= j < n ==> texts[j] == ColumnClueText(cc[j], n)
    ensures forall j :: 0 <= j < n ==> ReadColumnClueText(texts[j]) == Some(cc[j])
  {
    forall j | 0 <= j < n
      ensures ReadColumnClueText(texts[j]) == Some(cc[j])
    {
      ColumnTextReadsBack(g, n, cc, j);
    }
  }

  /** The clue values a column label shows, once the padding lines are dropped. */
  function ReadColumnClueText(text: string): Option<seq<int>>
  {
    var k := LeadingNewlines(text);
    ParseAll(Split(text[k..], '\n'))
  }

  function LeadingNewlines(s: string): (k: nat)
    ensures k <= |s| && forall i :: 0 <= i < k ==> s[i] == '\n'
    ensures k < |s| ==> s[k] != '\n'
  {
    if s == [] || s[0] != '\n' then 0 else 1 + LeadingNewlines(s[1..])
  }

  lemma {:induction false} ParseAllClueStrings(clues: seq<int>)
    requires forall i :: 0 <= i < |clues| ==> IntMin <= clues[i] <= IntMax
    ensures ParseAll(ClueStrings(clues)) == Some(clues)
    decreases |clues|
  {
    if clues != [] {
      ParseAllClueStrings(clues[1..]);
      ParseIntToString(clues[0]);
      assert ClueStrings(clues)[1..] == ClueStrings(clues[1..]);
      assert clues == [clues[0]] + clues[1..];
    }
  }

  lemma ClueStringsFree(clues: seq<int>, sep: char)
    requires sep == ' ' || sep == '\n'
    ensures forall i :: 0 <= i < |clues| ==> sep !in ClueStrings(clues)[i]
  {
    forall i | 0 <= i < |clues|
      ensures sep !in ClueStrings(clues)[i]
    {
      var v := clues[i];
      if v < 0 {
        assert IntToString(v) == "-" + NatToString(-v);
        assert AllDigits(NatToString(-v));
      } else {
        assert AllDigits(NatToString(v));
      }
    }
  }

  lemma LineCluesInRange(line: Line)
    requires |line| <= IntMax
    ensures forall i :: 0 <= i < |LineClues(line)| ==> 0 <= LineClues(line)[i] <= IntMax
  {
    RunsPositive(line);
    forall i | 0 <= i < |Runs(line)|
      ensures Runs(line)[i] <= |line|
    {
      RunsSum(line);
      CountBound(line);
      SumBound(Runs(line), i);
    }
  }

  lemma {:induction false} SumBound(s: seq<int>, i: nat)
    requires i < |s| && forall k :: 0 <= k < |s| ==> s[k] >= 0
    ensures s[i] <= Sum(s)
    decreases |s|
  {
    if i > 0 {
      SumBound(s[1..], i - 1);
    } else if |s| > 1 {
      SumBound(s[1..], 0);
    }
  }

  /** A row label reads back as the row's clues. */
  lemma RowClueTextRoundTrip(line: Line)
    requires |line| <= IntMax
    ensures ReadRowClueText(RowClueText(LineClues(line))) == Some(LineClues(line))
  {
    var clues := LineClues(line);
    LineCluesInRange(line);
    ParseAllClueStrings(clues);
    if clues == [0] {
      assert Split("0", ' ') == ["0"];
      ParseIntToString(0);
    } else {
      ClueStringsFree(clues, ' ');
      SplitJoin(ClueStrings(clues), ' ');
    }
  }

  /** The labels drawn for all the rows read back as the row clues. */
  lemma RowTextsReadBack(g: Grid, n: nat, rc: seq<seq<int>>, texts: seq<string>)
    requires IsGrid(g, n) && n <= IntMax && rc == RowCluesOf(g, n)
    requires |texts| == n && forall i :: 0 <= i < n ==> texts[i] == RowClueText(rc[i])
    ensures forall i :: 0 <= i < n ==> ReadRowClueText(texts[i]) == Some(rc[i])
  {
    forall i | 0 <= i < n
      ensures ReadRowClueText(texts[i]) == Some(rc[i])
    {
      RowClueTextRoundTrip(g[i]);
    }
  }

  /** A column label reads back as the column's clues. */
  lemma ColumnClueTextRoundTrip(line: Line)
    requires 1 <= |line| <= IntMax
    ensures |LineClues(line)| <= MaxClues(|line|) && ReadColumnClueText(ColumnClueText(LineClues(line), |line|)) == Some(LineClues(line))
  {
    ColumnPaddingNonNegative(line);
    var clues := LineClues(line);
    LineCluesInRange(line);
    ParseAllClueStrings(clues);
    var text := ColumnClueText(clues, |line|);
    if clues == [0] {
      assert text == "\n\n0";
      assert LeadingNewlines("0") == 0;
      assert LeadingNewlines("\n0") == 1;
      assert LeadingNewlines(text) == 2;
      assert text[2..] == "0";
      assert Split("0", '\n') == ["0"];
      ParseIntToString(0);
      assert ParseAll(["0"]) == Some([0]);
    } else {
      var pad := Repeat("\n", MaxClues(|line|) - |clues|);
      var body := Join(ClueStrings(clues), "\n");
      assert body != [] && body[0] != '\n' by {
        ClueStringsFree(clues, '\n');
        JoinHead(ClueStrings(clues), "\n");
      }
      RepeatNewlines(MaxClues(|line|) - |clues|);
      LeadingNewlinesOf(pad, body);
      assert text[|pad|..] == body;
      ClueStringsFree(clues, '\n');
      SplitJoin(ClueStrings(clues), '\n');
    }
  }

  lemma JoinHead(parts: seq<string>, sep: string)
    requires |parts| >= 1 && parts[0] != []
    ensures Join(parts, sep) != [] && Join(parts, sep)[0] == parts[0][0]
  {
  }

  lemma {:induction false} RepeatNewlines(k: nat)
    ensures forall i :: 0 <= i < |Repeat("\n", k)| ==> Repeat("\n", k)[i] == '\n'
  {
    if k > 0 {
      RepeatNewlines(k - 1);
    }
  }

  lemma {:induction false} LeadingNewlinesOf(pad: string, body: string)
    requires forall i :: 0 <= i < |pad| ==> pad[i] == '\n'
    requires body != [] && body[0] != '\n'
    ensures LeadingNewlines(pad + body) == |pad|
    decreases |pad|
  {
    if pad != [] {
      assert (pad + body)[1..] == pad[1..] + body;
      LeadingNewlinesOf(pad[1..], body);
    } else {
      assert pad + body == body;
    }
  }

  /** The columns of an n-by-n board, left to right. */
  ghost function Columns(g: Grid, n: nat): (cols: seq<Line>)
    requires IsGrid(g, n)
    ensures |cols| == n && forall j :: 0 <= j < n ==> cols[j] == Column(g, j)
  {
    seq(n, j requires 0 <= j < n => Column(g, j))
  }

  /** Highlight `k` is on exactly when line `k` matches clue `k`. */
  ghost predicate Highlights(valid: seq<bool>, lines: seq<Line>, clues: seq<seq<int>>)
  {
    |valid| == |lines| == |clues| &&
    forall k :: 0 <= k < |valid| ==> valid[k] == (LineClues(lines[k]) == clues[k])
  }

  // ---------------------------------------------------------------------------
  // The screen
  // ---------------------------------------------------------------------------

  class NonogramActivity {
    const game: Game
    const timer: GameTimer
    /** Whether each row label is highlighted as satisfied. */
    const rowValid: array<bool>
    /** Whether each column label is highlighted as satisfied. */
    const colValid: array<bool>
    var rowClueTexts: seq<string>
    var colClueTexts: seq<string>

    ghost predicate Valid()
      reads game
    {
      game.Valid() && rowValid.Length == game.gridSize && colValid.Length == game.gridSize && rowValid != colValid
    }

    /** Every row highlight says whether the player's row matches its clue, and likewise for columns. */
    ghost predicate HighlightsCurrent()
      requires Valid()
      reads game, game.playerGrid, game.rowClues, game.colClues, rowValid, colValid
    {
      Highlights(rowValid[..], game.Player(), game.RowClues()) &&
      Highlights(colValid[..], Columns(game.Player(), game.gridSize), game.ColClues())
    }

    constructor (n: nat)
      ensures Valid() && fresh(game) && fresh(timer) && game.gridSize == n
    {
      game := new Game(n);
      timer := new GameTimer();
      rowValid := new bool[n];
      colValid := new bool[n];
      rowClueTexts := [];
      colClueTexts := [];
    }

    /** Re-checks every row of the player's board against its clue. */
    method ValidateRows()
      requires Valid()
      modifies rowValid
      ensures Highlights(rowValid[..], game.Player(), game.RowClues())
    {
      for i := 0 to game.gridSize
        invariant forall i' :: 0 <= i' < i ==>
          rowValid[i'] == (LineClues(game.Player()[i']) == game.RowClues()[i'])
      {
        var row := Game.RowOf(game.playerGrid, i);
        rowValid[i] := IsLineValid(row, game.rowClues[i]);
      }
    }

    /** Re-checks every column of the player's board against its clue. */
    method ValidateColumns()
      requires Valid()
      modifies colValid
      ensures Highlights(colValid[..], Columns(game.Player(), game.gridSize), game.ColClues())
    {
      ghost var columns := Columns(game.Player(), game.gridSize);
      for j := 0 to game.gridSize
        invariant forall j' :: 0 <= j' < j ==> colValid[j'] == (LineClues(columns[j']) == game.ColClues()[j'])
      {
        var column := game.GetColumnForValidation(j);
        colValid[j] := IsLineValid(column, game.colClues[j]);
      }
    }

    /** Re-checks every row, then every column, of the player's board against its clue. */
    method ValidateAllLines()
      requires Valid()
      modifies rowValid, colValid
      ensures Valid() && HighlightsCurrent()
    {
      ValidateRows();
      ValidateColumns();
    }

    /** Draws the label above each column: that column's clue, one number per line, pushed down
        to MaxClues lines; each one reads back as that column's clue. */
    method SetupColumnClues()
      requires Valid() && game.CluesMatch() && game.gridSize <= IntMax
      modifies this`colClueTexts
      ensures |colClueTexts| == game.gridSize
      ensures forall j :: 0 <= j < game.gridSize ==> game.ColClues()[j] == [0] || |game.ColClues()[j]| <= MaxClues(game.gridSize)
      ensures forall j :: 0 <= j < game.gridSize ==> colClueTexts[j] == ColumnClueText(game.ColClues()[j], game.gridSize)
      ensures forall j :: 0 <= j < game.gridSize ==> ReadColumnClueText(colClueTexts[j]) == Some(game.ColClues()[j])
    {
      var n := game.gridSize;
      ghost var g, cc := game.Solution(), game.ColClues();
      var texts := [];
      ColumnTextsFit(g, n, cc);
      for j := 0 to n
        invariant |texts| == j
        invariant forall j' :: 0 <= j' < j ==> texts[j'] == ColumnClueText(cc[j'], n)
      {
        texts := texts + [ColumnClueText(game.colClues[j], n)];
      }
      ColumnTextsReadBack(g, n, cc, texts);
      colClueTexts := texts;
    }

    /** Draws the label left of each row: that row's clue, numbers separated by spaces; each one
        reads back as that row's clue. */
    method SetupRowClues()
      requires Valid() && game.CluesMatch() && game.gridSize <= IntMax
      modifies this`rowClueTexts
      ensures |rowClueTexts| == game.gridSize
      ensures forall i :: 0 <= i < game.gridSize ==> rowClueTexts[i] == RowClueText(game.RowClues()[i])
      ensures forall i :: 0 <= i < game.gridSize ==> ReadRowClueText(rowClueTexts[i]) == Some(game.RowClues()[i])
    {
      ghost var g, rc := game.Solution(), game.RowClues();
      var texts := [];
      for i := 0 to game.gridSize
        invariant |texts| == i
        invariant forall i' :: 0 <= i' < i ==> texts[i'] == RowClueText(rc[i'])
      {
        texts := texts + [RowClueText(game.rowClues[i])];
      }
      RowTextsReadBack(g, game.gridSize, rc, texts);
      rowClueTexts := texts;
    }

    /** Draws the row and column labels of the current clues and refreshes the highlights. */
    method SetupGrid()
      requires Valid() && game.CluesMatch() && game.gridSize <= IntMax
      modifies this`rowClueTexts, this`colClueTexts, rowValid, colValid
      ensures Valid() && HighlightsCurrent()
      ensures |rowClueTexts| == game.gridSize && |colClueTexts| == game.gridSize
      ensures forall j :: 0 <= j < game.gridSize ==> game.ColClues()[j] == [0] || |game.ColClues()[j]| <= MaxClues(game.gridSize)
      ensures forall i :: 0 <= i < game.gridSize ==> rowClueTexts[i] == RowClueText(game.RowClues()[i])
      ensures forall j :: 0 <= j < game.gridSize ==> colClueTexts[j] == ColumnClueText(game.ColClues()[j], game.gridSize)
      ensures forall i :: 0 <= i < game.gridSize ==>
        ReadRowClueText(rowClueTexts[i]) == Some(game.RowClues()[i])
      ensures forall j :: 0 <= j < game.gridSize ==>
        ReadColumnClueText(colClueTexts[j]) == Some(game.ColClues()[j])
    {
      SetupColumnClues();
      SetupRowClues();
      ValidateAllLines();
    }

    /** A click on cell (row, col): flip it, re-check every line, and stop the timer when the board is
        solved. Returns whether the board is solved. */
    method HandleCellClick(row: int, col: int) returns (solved: bool)
      requires Valid()
      modifies game.playerGrid, rowValid, colValid, timer
      ensures Valid() && HighlightsCurrent()
      ensures 0 <= row < game.gridSize && 0 <= col < game.gridSize ==>
        game.Player() == Flip(old(game.Player()), row, col)
      ensures !(0 <= row < game.gridSize && 0 <= col < game.gridSize) ==> game.Player() == old(game.Player())
      ensures solved == Solved(game.Player(), game.RowClues(), game.ColClues(), game.gridSize)
      ensures solved ==> !timer.isRunning && timer.totalElapsed == 0
      ensures !solved ==> unchanged(timer)
    {
      game.ToggleCell(row, col);
      ValidateAllLines();
      solved := game.IsPuzzleSolved();
      if solved {
        timer.Stop();
      }
    }

    /** The reset button: clear the player's board, refresh the highlights and restart the timer at `now`. */
    method ResetBoard(now: int)
      requires Valid()
      modifies game, rowValid, colValid, timer
      ensures Valid() && HighlightsCurrent()
      ensures game.Player() == EmptyGrid(game.gridSize)
      ensures game.Solution() == old(game.Solution())
      ensures game.RowClues() == old(game.RowClues()) && game.ColClues() == old(game.ColClues())
      ensures timer.isRunning && timer.Elapsed(now) == 0
    {
      game.ResetBoard();
      ValidateAllLines();
      timer.Restart(now);
    }

    /** The new-game button: generate a puzzle from the draws `coin` and fallback choice `pick`, draw the
        labels, refresh the highlights and restart the timer at `now`. */
    method StartNewGame(coin: (nat, nat, nat) -> bool, pick: nat, now: int)
      requires Valid() && pick < |Patterns| && game.gridSize <= 5
      modifies this`rowClueTexts, this`colClueTexts, game, game.solution, game.rowClues, game.colClues, rowValid, colValid, timer
      ensures Valid() && HighlightsCurrent() && game.CluesMatch()
      ensures game.Solution() == Generated(coin, pick, game.gridSize)
      ensures game.Player() == EmptyGrid(game.gridSize)
      ensures |rowClueTexts| == game.gridSize && |colClueTexts| == game.gridSize
      ensures forall j :: 0 <= j < game.gridSize ==> game.ColClues()[j] == [0] || |game.ColClues()[j]| <= MaxClues(game.gridSize)
      ensures forall i :: 0 <= i < game.gridSize ==> rowClueTexts[i] == RowClueText(game.RowClues()[i])
      ensures forall j :: 0 <= j < game.gridSize ==> colClueTexts[j] == ColumnClueText(game.ColClues()[j], game.gridSize)
      ensures forall i :: 0 <= i < game.gridSize ==>
        ReadRowClueText(rowClueTexts[i]) == Some(game.RowClues()[i])
      ensures forall j :: 0 <= j < game.gridSize ==>
        ReadColumnClueText(colClueTexts[j]) == Some(game.ColClues()[j])
      ensures timer.isRunning && timer.Elapsed(now) == 0
    {
      game.GenerateNewPuzzle(coin, pick);
      SetupGrid();
      timer.Restart(now);
    }
  }
}
