/** The nonogram puzzle engine: a square solution grid, a player grid, and the
    row and column clues derived from the solution by run-length encoding. */
module NonogramGame {

  /** One row or one column of the board; `true` is a filled cell. */
  type Line = seq<bool>

  /** A board as rows of cells. */
  type Grid = seq<seq<bool>>

  /** Number of attempts the generator makes before it falls back to a fixed pattern. */
  const MaxAttempts: nat := 100

  /** Bounds on the total number of clue values of an accepted puzzle. */
  const MinTotalClues: int := 6
  const MaxTotalClues: int := 20

  // ---------------------------------------------------------------------------
  // Clues of a line
  // ---------------------------------------------------------------------------

  /** Length of the run of filled cells at the start of `line`. */
  function LeadRun(line: Line): (k: nat)
    ensures k <= |line|
    ensures forall i :: 0 <= i < k ==> line[i]
    ensures k < |line| ==> !line[k]
  {
    if line == [] || !line[0] then 0 else 1 + LeadRun(line[1..])
  }

  /** The lengths of the maximal runs of filled cells, left to right. */
  function Runs(line: Line): seq<int>
    decreases |line|
  {
    if line == [] then []
    else if !line[0] then Runs(line[1..])
    else
      var k := LeadRun(line);
      [k] + Runs(line[k..])
  }

  /** The clue sequence of a line: its runs, or the sentinel [0] when nothing is filled. */
  function LineClues(line: Line): seq<int>
  {
    var runs := Runs(line);
    if runs == [] then [0] else runs
  }

  function Sum(s: seq<int>): int
  {
    if s == [] then 0 else s[0] + Sum(s[1..])
  }

  /** Number of filled cells of a line. */
  function Count(line: Line): nat
  {
    if line == [] then 0 else (if line[0] then 1 else 0) + Count(line[1..])
  }

  /** Adds one to the last element of a non-empty sequence. */
  function IncLast(s: seq<int>): seq<int>
    requires s != []
  {
    s[..|s| - 1] + [s[|s| - 1] + 1]
  }

  /** A line of `k` filled cells. */
  function Filled(k: nat): Line
  {
    seq(k, _ => true)
  }

  /** The canonical line of a clue sequence: each run followed by one empty cell, except the last. */
  function Render(runs: seq<nat>): Line
  {
    if runs == [] then []
    else if |runs| == 1 then Filled(runs[0])
    else Filled(runs[0]) + [false] + Render(runs[1..])
  }

  lemma LeadRunIs(line: Line, k: nat)
    requires k <= |line|
    requires forall i :: 0 <= i < k ==> line[i]
    requires k < |line| ==> !line[k]
    ensures LeadRun(line) == k
  {
  }

  /** Every run is at least one cell long. */
  lemma {:induction false} RunsPositive(line: Line)
    ensures forall i :: 0 <= i < |Runs(line)| ==> Runs(line)[i] >= 1
    decreases |line|
  {
    if line == [] {
    } else if !line[0] {
      RunsPositive(line[1..]);
    } else {
      RunsPositive(line[LeadRun(line)..]);
    }
  }

  lemma CountAppend(a: Line, b: Line)
    ensures Count(a + b) == Count(a) + Count(b)
  {
    if a == [] {
      assert a + b == b;
    } else {
      assert (a + b)[1..] == a[1..] + b;
    }
  }

  lemma CountFilled(k: nat)
    ensures Count(Filled(k)) == k
  {
    if k > 0 {
      assert Filled(k)[1..] == Filled(k - 1);
      CountFilled(k - 1);
    }
  }

  /** The clue values add up to the number of filled cells. */
  lemma {:induction false} RunsSum(line: Line)
    ensures Sum(Runs(line)) == Count(line)
    decreases |line|
  {
    if line == [] {
    } else if !line[0] {
      RunsSum(line[1..]);
    } else {
      var k := LeadRun(line);
      RunsSum(line[k..]);
      assert line == line[..k] + line[k..];
      assert line[..k] == Filled(k);
      CountAppend(line[..k], line[k..]);
      CountFilled(k);
      assert ([k] + Runs(line[k..]))[1..] == Runs(line[k..]);
    }
  }

  /** A line has no runs exactly when no cell of it is filled. */
  lemma {:induction false} RunsEmptyIff(line: Line)
    ensures Runs(line) == [] <==> forall i :: 0 <= i < |line| ==> !line[i]
    decreases |line|
  {
    if line != [] && !line[0] {
      RunsEmptyIff(line[1..]);
      assert forall i :: 1 <= i < |line| ==> line[i] == line[1..][i - 1];
    }
  }

  /** An all-empty line has the clue [0]; any other line has clues that are all at least 1. */
  lemma LineCluesShape(line: Line)
    ensures LineClues(line) == [0] <==> forall i :: 0 <= i < |line| ==> !line[i]
    ensures (exists i :: 0 <= i < |line| && line[i]) ==>
              forall i :: 0 <= i < |LineClues(line)| ==> LineClues(line)[i] >= 1
  {
    RunsEmptyIff(line);
    RunsPositive(line);
    if Runs(line) != [] {
      assert Runs(line)[0] >= 1;
    }
  }

  /** The clue values add up to the number of filled cells, the [0] sentinel included. */
  lemma LineCluesSum(line: Line)
    ensures Sum(LineClues(line)) == Count(line)
  {
    RunsSum(line);
  }

  /** A line of n cells has at most (n + 1) / 2 runs. */
  lemma {:induction false} RunsBound(line: Line)
    ensures |Runs(line)| <= (|line| + 1) / 2
    decreases |line|
  {
    if line == [] {
    } else if !line[0] {
      RunsBound(line[1..]);
    } else {
      var k := LeadRun(line);
      if k < |line| {
        var rest := line[k..];
        assert rest[1..] == line[k + 1..];
        RunsBound(line[k + 1..]);
      }
    }
  }

  /** The clue sequence of a non-empty line of n cells has at most (n + 1) / 2 values. */
  lemma LineCluesBound(line: Line)
    requires |line| >= 1
    ensures 1 <= |LineClues(line)| <= (|line| + 1) / 2
  {
    RunsBound(line);
  }

  /** Appending an empty cell does not change the runs. */
  lemma {:induction false} RunsSnocFalse(s: Line)
    ensures Runs(s + [false]) == Runs(s)
    decreases |s|
  {
    var t := s + [false];
    if s == [] {
      assert t[1..] == [];
    } else if !s[0] {
      assert t[1..] == s[1..] + [false];
      RunsSnocFalse(s[1..]);
    } else {
      var k := LeadRun(s);
      LeadRunIs(t, k);
      assert t[k..] == s[k..] + [false];
      RunsSnocFalse(s[k..]);
    }
  }

  /** Appending a filled cell extends the last run when the line ends filled, and opens a run of 1 otherwise. */
  lemma {:induction false} RunsSnocTrue(s: Line)
    ensures s != [] && s[|s| - 1] ==> Runs(s) != [] && Runs(s + [true]) == IncLast(Runs(s))
    ensures !(s != [] && s[|s| - 1]) ==> Runs(s + [true]) == Runs(s) + [1]
    decreases |s|
  {
    var t := s + [true];
    if s == [] {
      assert t[1..] == [];
      assert LeadRun(t) == 1;
    } else if !s[0] {
      assert t[1..] == s[1..] + [true];
      RunsSnocTrue(s[1..]);
      if |s| > 1 {
        assert s[1..][|s[1..]| - 1] == s[|s| - 1];
      }
    } else {
      var k := LeadRun(s);
      if k == |s| {
        LeadRunIs(t, k + 1);
        assert t[k + 1..] == [];
        assert s[k..] == [];
      } else {
        LeadRunIs(t, k);
        assert t[k..] == s[k..] + [true];
        RunsSnocTrue(s[k..]);
        assert s[k..][|s[k..]| - 1] == s[|s| - 1];
        if s[|s| - 1] {
          var r := Runs(s[k..]);
          assert IncLast([k] + r) == [k] + IncLast(r);
        } else {
          assert [k] + Runs(s[k..]) + [1] == [k] + (Runs(s[k..]) + [1]);
        }
      }
    }
  }

  lemma {:induction false} RunsFilledThen(k: nat, rest: Line)
    requires k >= 1
    ensures Runs(Filled(k) + [false] + rest) == [k] + Runs(rest)
  {
    var t := Filled(k) + [false] + rest;
    LeadRunIs(t, k);
    assert t[k..] == [false] + rest;
    assert t[k..][1..] == rest;
  }

  /** Encoding a sequence of positive run lengths as its canonical line and reading the runs back gives the sequence. */
  lemma {:induction false} RunsOfRender(runs: seq<nat>)
    requires forall i :: 0 <= i < |runs| ==> runs[i] >= 1
    ensures Runs(Render(runs)) == runs
    ensures |Render(runs)| == Sum(runs) + |runs| - (if runs == [] then 0 else 1)
    decreases |runs|
  {
    if runs == [] {
    } else if |runs| == 1 {
      var t := Filled(runs[0]);
      LeadRunIs(t, runs[0]);
      assert t[runs[0]..] == [];
      assert runs[1..] == [];
    } else {
      RunsOfRender(runs[1..]);
      RunsFilledThen(runs[0], Render(runs[1..]));
      assert runs == [runs[0]] + runs[1..];
    }
  }

  /** The loop the engine runs over a line: count consecutive filled cells and emit each completed group. */
  method CalculateLineClues(line: Line) returns (clues: seq<int>)
    ensures clues == LineClues(line)
  {
    var acc: seq<int> := [];
    var currentGroup := 0;
    for i := 0 to |line|
      invariant currentGroup >= 0
      invariant currentGroup == 0 <==> (i == 0 || !line[i - 1])
      invariant Runs(line[..i]) == acc + (if currentGroup > 0 then [currentGroup] else [])
    {
      assert line[..i + 1] == line[..i] + [line[i]];
      if line[i] {
        RunsSnocTrue(line[..i]);
        currentGroup := currentGroup + 1;
      } else {
        RunsSnocFalse(line[..i]);
        if currentGroup > 0 {
          acc := acc + [currentGroup];
          currentGroup := 0;
        }
      }
    }
    if currentGroup > 0 {
      acc := acc + [currentGroup];
    }
    assert line[..|line|] == line;
    clues := if acc == [] then [0] else acc;
  }

  /** Line validation as the engine writes it: the [0] sentinel is tested first, then plain equality. */
  method IsLineValid(line: Line, clues: seq<int>) returns (valid: bool)
    ensures valid <==> LineClues(line) == clues
  {
    var actualClues := CalculateLineClues(line);
    if clues == [0] && actualClues == [0] {
      valid := true;
    } else {
      valid := actualClues == clues;
    }
  }

  // ---------------------------------------------------------------------------
  // Grids
  // ---------------------------------------------------------------------------

  /** `g` is an n-by-n board. */
  ghost predicate IsGrid(g: Grid, n: nat)
  {
    |g| == n && forall i :: 0 <= i < n ==> |g[i]| == n
  }

  /** Column `j` of a board, top to bottom. */
  function Column(g: Grid, j: nat): (col: Line)
    requires forall i :: 0 <= i < |g| ==> j < |g[i]|
    ensures |col| == |g| && forall i :: 0 <= i < |g| ==> col[i] == g[i][j]
  {
    seq(|g|, i requires 0 <= i < |g| => g[i][j])
  }

  /** The board with every cell empty. */
  function EmptyGrid(n: nat): (g: Grid)
    ensures IsGrid(g, n)
    ensures forall i, j :: 0 <= i < n && 0 <= j < n ==> !g[i][j]
  {
    seq(n, _ => seq(n, _ => false))
  }

  /** The board with the single cell (r, c) flipped. */
  function Flip(g: Grid, r: nat, c: nat): Grid
    requires r < |g| && c < |g[r]|
  {
    g[r := g[r][c := !g[r][c]]]
  }

  ghost function RowCluesOf(g: Grid, n: nat): (rc: seq<seq<int>>)
    requires IsGrid(g, n)
    ensures |rc| == n && forall i :: 0 <= i < n ==> rc[i] == LineClues(g[i])
  {
    seq(n, i requires 0 <= i < n => LineClues(g[i]))
  }

  ghost function ColCluesOf(g: Grid, n: nat): (cc: seq<seq<int>>)
    requires IsGrid(g, n)
    ensures |cc| == n && forall j :: 0 <= j < n ==> cc[j] == LineClues(Column(g, j))
  {
    seq(n, j requires 0 <= j < n => LineClues(Column(g, j)))
  }

  /** Every row of `g` matches its row clue and every column its column clue. */
  ghost predicate Solved(g: Grid, rowClues: seq<seq<int>>, colClues: seq<seq<int>>, n: nat)
    requires IsGrid(g, n) && |rowClues| == n && |colClues| == n
  {
    (forall i :: 0 <= i < n ==> LineClues(g[i]) == rowClues[i]) &&
    (forall j :: 0 <= j < n ==> LineClues(Column(g, j)) == colClues[j])
  }

  /** Total number of clue values over a set of lines. */
  function TotalSize(clues: seq<seq<int>>): nat
  {
    if clues == [] then 0 else |clues[0]| + TotalSize(clues[1..])
  }

  /** The generator's acceptance heuristic. */
  ghost predicate PuzzleValid(rowClues: seq<seq<int>>, colClues: seq<seq<int>>, n: nat)
    requires |rowClues| == n && |colClues| == n
  {
    (forall i :: 0 <= i < n ==> Sum(rowClues[i]) <= n && Sum(colClues[i]) <= n) &&
    MinTotalClues <= TotalSize(rowClues) + TotalSize(colClues) <= MaxTotalClues
  }

  /** The acceptance heuristic applied to the clues of a board. */
  ghost predicate Acceptable(g: Grid, n: nat)
    requires IsGrid(g, n)
  {
    PuzzleValid(RowCluesOf(g, n), ColCluesOf(g, n), n)
  }

  lemma CountBound(line: Line)
    ensures Count(line) <= |line|
  {
  }

  /** The clue-sum test of the acceptance heuristic never rejects a board: only the clue count matters. */
  lemma ClueSumTestIsVacuous(g: Grid, n: nat)
    requires IsGrid(g, n)
    ensures Acceptable(g, n) <==>
      MinTotalClues <= TotalSize(RowCluesOf(g, n)) + TotalSize(ColCluesOf(g, n)) <= MaxTotalClues
  {
    forall i | 0 <= i < n
      ensures Sum(RowCluesOf(g, n)[i]) <= n && Sum(ColCluesOf(g, n)[i]) <= n
    {
      LineCluesSum(g[i]);
      CountBound(g[i]);
      LineCluesSum(Column(g, i));
      CountBound(Column(g, i));
    }
  }

  lemma CountFlip(line: Line, c: nat)
    requires c < |line|
    ensures Count(line[c := !line[c]]) == if line[c] then Count(line) - 1 else Count(line) + 1
  {
    var flipped := line[c := !line[c]];
    assert line == line[..c] + [line[c]] + line[c + 1..];
    assert flipped == line[..c] + [!line[c]] + line[c + 1..];
    CountAppend(line[..c] + [line[c]], line[c + 1..]);
    CountAppend(line[..c], [line[c]]);
    CountAppend(line[..c] + [!line[c]], line[c + 1..]);
    CountAppend(line[..c], [!line[c]]);
  }

  /** A board whose rows and columns carry the board's own clues is solved. */
  lemma SolutionIsSolved(g: Grid, n: nat)
    requires IsGrid(g, n)
    ensures Solved(g, RowCluesOf(g, n), ColCluesOf(g, n), n)
  {
  }

  /** Flipping any one cell of a solved board makes it unsolved: the flipped row no longer matches its clue. */
  lemma FlipBreaksSolved(g: Grid, rowClues: seq<seq<int>>, colClues: seq<seq<int>>, n: nat, r: nat, c: nat)
    requires IsGrid(g, n) && |rowClues| == n && |colClues| == n
    requires r < n && c < n
    requires Solved(g, rowClues, colClues, n)
    ensures IsGrid(Flip(g, r, c), n)
    ensures !Solved(Flip(g, r, c), rowClues, colClues, n)
  {
    var h := Flip(g, r, c);
    assert h[r] == g[r][c := !g[r][c]];
    CountFlip(g[r], c);
    LineCluesSum(g[r]);
    LineCluesSum(h[r]);
    assert LineClues(h[r]) != rowClues[r];
  }

  /** Flipping the same cell twice restores the board. */
  lemma FlipTwice(g: Grid, r: nat, c: nat)
    requires r < |g| && c < |g[r]|
    ensures Flip(Flip(g, r, c), r, c) == g
  {
    assert Flip(Flip(g, r, c), r, c)[r] == g[r];
  }

  // ---------------------------------------------------------------------------
  // Generation
  // ---------------------------------------------------------------------------

  /** The three hand-drawn 5-by-5 fallback patterns: a cross, a diamond and a frame. */
  const Cross: Grid := [
    [false, false, true, false, false],
    [false, false, true, false, false],
    [true, true, true, true, true],
    [false, false, true, false, false],
    [false, false, true, false, false]]

  const Diamond: Grid := [
    [false, false, true, false, false],
    [false, true, false, true, false],
    [true, false, false, false, true],
    [false, true, false, true, false],
    [false, false, true, false, false]]

  const Frame: Grid := [
    [true, true, true, true, true],
    [true, false, false, false, true],
    [true, false, false, false, true],
    [true, false, false, false, true],
    [true, true, true, true, true]]

  const Patterns: seq<Grid> := [Cross, Diamond, Frame]

  lemma PatternsShape()
    ensures forall p :: 0 <= p < |Patterns| ==> IsGrid(Patterns[p], 5)
  {
  }

  /** The board of random attempt `k`: `coin(k, i, j)` stands for the random draw of cell (i, j). */
  function Attempt(coin: (nat, nat, nat) -> bool, k: nat, n: nat): (g: Grid)
    ensures IsGrid(g, n)
    ensures forall i, j :: 0 <= i < n && 0 <= j < n ==> g[i][j] == coin(k, i, j)
  {
    seq(n, i requires 0 <= i < n => seq(n, j requires 0 <= j < n => coin(k, i, j)))
  }

  /** The top-left n-by-n corner of fallback pattern `pick`. */
  function Fallback(pick: nat, n: nat): (g: Grid)
    requires pick < |Patterns| && n <= 5
    ensures IsGrid(g, n)
    ensures forall i, j :: 0 <= i < n && 0 <= j < n ==> g[i][j] == Patterns[pick][i][j]
  {
    seq(n, i requires 0 <= i < n => seq(n, j requires 0 <= j < n => Patterns[pick][i][j]))
  }

  /** The verdict of the acceptance heuristic on each attempt the generator may draw. */
  ghost function Verdicts(coin: (nat, nat, nat) -> bool, n: nat): (v: seq<bool>)
    ensures |v| == MaxAttempts
  {
    seq(MaxAttempts, k requires 0 <= k < MaxAttempts => Acceptable(Attempt(coin, k, n), n))
  }

  lemma VerdictsAt(coin: (nat, nat, nat) -> bool, n: nat, k: nat)
    requires k < MaxAttempts
    ensures Verdicts(coin, n)[k] == Acceptable(Attempt(coin, k, n), n)
  {
  }

  /** The attempt the generator keeps, given the verdicts `v`, when attempt `k` is the next one drawn:
      the first accepted attempt among k .. MaxAttempts - 2, or MaxAttempts - 1 when there is none.
      Attempt MaxAttempts - 1 is drawn but never kept, because the counter has reached the budget by
      then. */
  function Chosen(v: seq<bool>, k: nat): (r: nat)
    requires |v| == MaxAttempts && k <= MaxAttempts - 1
    ensures k <= r <= MaxAttempts - 1
    decreases MaxAttempts - 1 - k
  {
    if k == MaxAttempts - 1 then k
    else if v[k] then k
    else Chosen(v, k + 1)
  }

  /** No attempt before `m` is accepted. */
  ghost predicate NoneAccepted(v: seq<bool>, m: nat)
    requires m <= |v|
  {
    m == 0 || (!v[m - 1] && NoneAccepted(v, m - 1))
  }

  lemma {:induction false} NoneAcceptedBefore(v: seq<bool>, m: nat)
    requires m <= |v| && NoneAccepted(v, m)
    ensures forall i :: 0 <= i < m ==> !v[i]
  {
    if m > 0 {
      NoneAcceptedBefore(v, m - 1);
    }
  }

  /** When the attempts before `last` were rejected and `last` is accepted or the final one, the
      choice is `last`. */
  lemma ChosenAfterNone(v: seq<bool>, last: nat)
    requires |v| == MaxAttempts && last <= MaxAttempts - 1 && NoneAccepted(v, last)
    requires last < MaxAttempts - 1 ==> v[last]
    ensures Chosen(v, 0) == last
  {
    NoneAcceptedBefore(v, last);
    ChosenIs(v, 0, last);
  }

  /** The solution a fresh run of the generator settles on: the chosen attempt, or the fallback
      pattern when the budget ran out. */
  ghost function Generated(coin: (nat, nat, nat) -> bool, pick: nat, n: nat): (g: Grid)
    requires pick < |Patterns| && n <= 5
    ensures IsGrid(g, n)
  {
    var r := Chosen(Verdicts(coin, n), 0);
    if r < MaxAttempts - 1 then Attempt(coin, r, n) else Fallback(pick, n)
  }

  /** Chosen is the first accepted attempt before the last one, and the last index when no attempt
      before the last one is accepted. */
  lemma {:induction false} ChosenIs(v: seq<bool>, k: nat, r: nat)
    requires |v| == MaxAttempts && k <= r <= MaxAttempts - 1
    requires forall m :: k <= m < r ==> !v[m]
    requires r < MaxAttempts - 1 ==> v[r]
    ensures Chosen(v, k) == r
    decreases r - k
  {
    if k < r {
      ChosenIs(v, k + 1, r);
    }
  }

  /** Every attempt before the chosen one is rejected, and the chosen one is accepted unless it is the
      last. */
  lemma {:induction false} ChosenIsFirst(v: seq<bool>, k: nat)
    requires |v| == MaxAttempts && k <= MaxAttempts - 1
    ensures forall m :: k <= m < Chosen(v, k) ==> !v[m]
    ensures Chosen(v, k) < MaxAttempts - 1 ==> v[Chosen(v, k)]
    decreases MaxAttempts - 1 - k
  {
    if k < MaxAttempts - 1 && !v[k] {
      ChosenIsFirst(v, k + 1);
    }
  }

  /** Whatever the draws, a 5-by-5 generator run settles on a board its clues accept. */
  lemma GeneratedIsAcceptable(coin: (nat, nat, nat) -> bool, pick: nat)
    requires pick < |Patterns|
    ensures Acceptable(Generated(coin, pick, 5), 5)
  {
    var r := Chosen(Verdicts(coin, 5), 0);
    ChosenIsFirst(Verdicts(coin, 5), 0);
    if r == MaxAttempts - 1 {
      FallbackAcceptable(pick);
    } else {
      VerdictsAt(coin, 5, r);
    }
  }

  /** When only the last allowed attempt is acceptable, the fallback pattern is used instead of it. */
  lemma LastAttemptIsDiscarded(coin: (nat, nat, nat) -> bool, pick: nat, n: nat)
    requires pick < |Patterns| && n <= 5
    requires forall m :: 0 <= m < MaxAttempts - 1 ==> !Acceptable(Attempt(coin, m, n), n)
    requires Acceptable(Attempt(coin, MaxAttempts - 1, n), n)
    ensures Generated(coin, pick, n) == Fallback(pick, n)
  {
    forall m | 0 <= m < MaxAttempts - 1
      ensures !Verdicts(coin, n)[m]
    {
      VerdictsAt(coin, n, m);
    }
    ChosenIs(Verdicts(coin, n), 0, MaxAttempts - 1);
  }

  // The clues of the fallback patterns, line by line.

  lemma CluesX1()
    ensures LineClues([false, false, true, false, false]) == [1]
  {
    var l := [false, false, true, false, false];
    assert l[1..] == [false, true, false, false];
    assert l[2..] == [true, false, false];
    LeadRunIs(l[2..], 1);
    assert l[2..][1..] == [false, false];
    RunsEmptyIff([false, false]);
  }

  lemma CluesX5()
    ensures LineClues([true, true, true, true, true]) == [5]
  {
    var l := [true, true, true, true, true];
    LeadRunIs(l, 5);
    assert l[5..] == [];
  }

  lemma CluesX101()
    ensures LineClues([false, true, false, true, false]) == [1, 1]
  {
    var l := [false, true, false, true, false];
    assert l[1..] == [true, false, true, false];
    LeadRunIs(l[1..], 1);
    assert l[1..][1..] == [false, true, false];
    assert l[1..][1..][1..] == [true, false];
    LeadRunIs([true, false], 1);
    assert [true, false][1..] == [false];
    RunsEmptyIff([false]);
  }

  lemma CluesX10001()
    ensures LineClues([true, false, false, false, true]) == [1, 1]
  {
    var l := [true, false, false, false, true];
    LeadRunIs(l, 1);
    assert l[1..] == [false, false, false, true];
    assert l[1..][1..] == [false, false, true];
    assert l[1..][1..][1..] == [false, true];
    assert l[1..][1..][1..][1..] == [true];
    LeadRunIs([true], 1);
    assert [true][1..] == [];
  }

  lemma RowsAre(g: Grid, rc: seq<seq<int>>)
    requires IsGrid(g, 5) && |rc| == 5
    requires LineClues(g[0]) == rc[0] && LineClues(g[1]) == rc[1] && LineClues(g[2]) == rc[2]
    requires LineClues(g[3]) == rc[3] && LineClues(g[4]) == rc[4]
    ensures RowCluesOf(g, 5) == rc
  {
  }

  lemma ColumnsAre(g: Grid, cc: seq<seq<int>>)
    requires IsGrid(g, 5) && |cc| == 5
    requires LineClues(Column(g, 0)) == cc[0] && LineClues(Column(g, 1)) == cc[1]
    requires LineClues(Column(g, 2)) == cc[2] && LineClues(Column(g, 3)) == cc[3]
    requires LineClues(Column(g, 4)) == cc[4]
    ensures ColCluesOf(g, 5) == cc
  {
  }

  lemma TotalSizeFive(c: seq<seq<int>>)
    requires |c| == 5
    ensures TotalSize(c) == |c[0]| + |c[1]| + |c[2]| + |c[3]| + |c[4]|
  {
    assert c[4..][1..] == [];
    assert TotalSize(c[4..]) == |c[4]|;
    assert c[3..][1..] == c[4..];
    assert TotalSize(c[3..]) == |c[3]| + TotalSize(c[4..]);
    assert c[2..][1..] == c[3..];
    assert TotalSize(c[2..]) == |c[2]| + TotalSize(c[3..]);
    assert c[1..][1..] == c[2..];
    assert TotalSize(c[1..]) == |c[1]| + TotalSize(c[2..]);
  }

  lemma CrossColumns()
    ensures Column(Cross, 0) == Column(Cross, 1) == Column(Cross, 3) == Column(Cross, 4) == [false, false, true, false, false]
    ensures Column(Cross, 2) == [true, true, true, true, true]
  {
  }

  lemma CrossClues()
    ensures RowCluesOf(Cross, 5) == [[1], [1], [5], [1], [1]]
    ensures ColCluesOf(Cross, 5) == [[1], [1], [5], [1], [1]]
  {
    CluesX1();
    CluesX5();
    RowsAre(Cross, [[1], [1], [5], [1], [1]]);
    CrossColumns();
    ColumnsAre(Cross, [[1], [1], [5], [1], [1]]);
  }

  lemma CrossAcceptable()
    ensures Acceptable(Cross, 5)
  {
    CrossClues();
    TotalSizeFive([[1], [1], [5], [1], [1]]);
    ClueSumTestIsVacuous(Cross, 5);
  }

  lemma DiamondColumns()
    ensures Column(Diamond, 0) == Column(Diamond, 4) == [false, false, true, false, false]
    ensures Column(Diamond, 1) == Column(Diamond, 3) == [false, true, false, true, false]
    ensures Column(Diamond, 2) == [true, false, false, false, true]
  {
  }

  lemma DiamondClues()
    ensures RowCluesOf(Diamond, 5) == [[1], [1, 1], [1, 1], [1, 1], [1]]
    ensures ColCluesOf(Diamond, 5) == [[1], [1, 1], [1, 1], [1, 1], [1]]
  {
    CluesX1();
    CluesX101();
    CluesX10001();
    RowsAre(Diamond, [[1], [1, 1], [1, 1], [1, 1], [1]]);
    DiamondColumns();
    ColumnsAre(Diamond, [[1], [1, 1], [1, 1], [1, 1], [1]]);
  }

  lemma DiamondAcceptable()
    ensures Acceptable(Diamond, 5)
  {
    DiamondClues();
    TotalSizeFive([[1], [1, 1], [1, 1], [1, 1], [1]]);
    ClueSumTestIsVacuous(Diamond, 5);
  }

  lemma FrameColumns()
    ensures Column(Frame, 0) == Column(Frame, 4) == [true, true, true, true, true]
    ensures Column(Frame, 1) == Column(Frame, 2) == Column(Frame, 3) == [true, false, false, false, true]
  {
  }

  lemma FrameClues()
    ensures RowCluesOf(Frame, 5) == [[5], [1, 1], [1, 1], [1, 1], [5]]
    ensures ColCluesOf(Frame, 5) == [[5], [1, 1], [1, 1], [1, 1], [5]]
  {
    CluesX5();
    CluesX10001();
    RowsAre(Frame, [[5], [1, 1], [1, 1], [1, 1], [5]]);
    FrameColumns();
    ColumnsAre(Frame, [[5], [1, 1], [1, 1], [1, 1], [5]]);
  }

  lemma FrameAcceptable()
    ensures Acceptable(Frame, 5)
  {
    FrameClues();
    TotalSizeFive([[5], [1, 1], [1, 1], [1, 1], [5]]);
    ClueSumTestIsVacuous(Frame, 5);
  }

  /** Each fallback pattern passes the acceptance heuristic (10, 16 and 16 clue values). */
  lemma FallbackAcceptable(pick: nat)
    requires pick < |Patterns|
    ensures Acceptable(Fallback(pick, 5), 5)
  {
    var g := Fallback(pick, 5);
    PatternsShape();
    assert forall i :: 0 <= i < 5 ==> g[i] == Patterns[pick][i];
    assert g == Patterns[pick];
    if pick == 0 {
      CrossAcceptable();
    } else if pick == 1 {
      DiamondAcceptable();
    } else {
      FrameAcceptable();
    }
  }

  // ---------------------------------------------------------------------------
  // The engine object
  // ---------------------------------------------------------------------------

  /** The cells of a two-dimensional array, row by row. */
  function Cells(a: array2<bool>): (g: Grid)
    reads a
    ensures IsGrid(g, a.Length0) || a.Length0 != a.Length1
    ensures |g| == a.Length0
    ensures forall i :: 0 <= i < a.Length0 ==> |g[i]| == a.Length1
  {
    seq(a.Length0, i requires 0 <= i < a.Length0 reads a =>
      seq(a.Length1, j requires 0 <= j < a.Length1 reads a => a[i, j]))
  }

  lemma CellsAre(a: array2<bool>, g: Grid)
    requires |g| == a.Length0 && forall i :: 0 <= i < |g| ==> |g[i]| == a.Length1
    requires forall i, j :: 0 <= i < a.Length0 && 0 <= j < a.Length1 ==> a[i, j] == g[i][j]
    ensures Cells(a) == g
  {
    var c := Cells(a);
    forall i | 0 <= i < |g|
      ensures c[i] == g[i]
    {
    }
  }

  class Game {
    const gridSize: nat
    var solution: array2<bool>
    var playerGrid: array2<bool>
    var rowClues: array<seq<int>>
    var colClues: array<seq<int>>

    /** Both boards are gridSize by gridSize, there is one clue sequence per line, and no two fields share an array. */
    ghost predicate Valid()
      reads this
    {
      solution.Length0 == gridSize && solution.Length1 == gridSize &&
      playerGrid.Length0 == gridSize && playerGrid.Length1 == gridSize &&
      rowClues.Length == gridSize && colClues.Length == gridSize &&
      solution != playerGrid && rowClues != colClues
    }

    function Solution(): Grid
      reads `solution, solution
    {
      Cells(solution)
    }

    function Player(): Grid
      reads `playerGrid, playerGrid
    {
      Cells(playerGrid)
    }

    function RowClues(): seq<seq<int>>
      reads `rowClues, rowClues
    {
      rowClues[..]
    }

    function ColClues(): seq<seq<int>>
      reads `colClues, colClues
    {
      colClues[..]
    }

    /** A new engine: both boards empty, and one empty clue array per line until a puzzle is generated. */
    constructor (n: nat)
      ensures Valid() && gridSize == n
      ensures fresh(solution) && fresh(playerGrid) && fresh(rowClues) && fresh(colClues)
      ensures Solution() == EmptyGrid(n) && Player() == EmptyGrid(n)
      ensures RowClues() == seq(n, _ => []) && ColClues() == seq(n, _ => [])
    {
      gridSize := n;
      solution := new bool[n, n]((_, _) => false);
      playerGrid := new bool[n, n]((_, _) => false);
      rowClues := new seq<int>[n](_ => []);
      colClues := new seq<int>[n](_ => []);
      new;
      CellsAre(solution, EmptyGrid(n));
      CellsAre(playerGrid, EmptyGrid(n));
    }

    /** Fills the solution in place with the draws of attempt `attempt`. */
    method GenerateRandomSolution(coin: (nat, nat, nat) -> bool, attempt: nat)
      requires Valid()
      modifies solution
      ensures Valid()
      ensures Solution() == Attempt(coin, attempt, gridSize)
    {
      var n := gridSize;
      for i := 0 to n
        invariant forall i', j' :: 0 <= i' < i && 0 <= j' < n ==> solution[i', j'] == coin(attempt, i', j')
      {
        for j := 0 to n
          invariant forall i', j' :: 0 <= i' < i && 0 <= j' < n ==> solution[i', j'] == coin(attempt, i', j')
          invariant forall j' :: 0 <= j' < j ==> solution[i, j'] == coin(attempt, i, j')
        {
          solution[i, j] := coin(attempt, i, j);
        }
      }
      CellsAre(solution, Attempt(coin, attempt, n));
    }

    /** Replaces the solution by a fresh board holding the top-left corner of fallback pattern `pick`. */
    method CreateSimplePuzzle(pick: nat)
      requires Valid() && pick < |Patterns| && gridSize <= 5
      modifies this
      ensures Valid() && fresh(solution)
      ensures Solution() == Fallback(pick, gridSize)
      ensures playerGrid == old(playerGrid) && rowClues == old(rowClues) && colClues == old(colClues)
    {
      var n := gridSize;
      var pattern := Patterns[pick];
      PatternsShape();
      assert IsGrid(pattern, 5);
      var board := new bool[n, n]((_, _) => false);
      for i := 0 to n
        modifies board
        invariant forall i', j' :: 0 <= i' < i && 0 <= j' < n ==> board[i', j'] == pattern[i'][j']
      {
        for j := 0 to n
          invariant forall i', j' :: 0 <= i' < i && 0 <= j' < n ==> board[i', j'] == pattern[i'][j']
          invariant forall j' :: 0 <= j' < j ==> board[i, j'] == pattern[i][j']
        {
          board[i, j] := pattern[i][j];
        }
      }
      solution := board;
      CellsAre(solution, Fallback(pick, n));
    }

    /** Row `i` of a board array, as the line the engine validates. */
    static method RowOf(a: array2<bool>, i: nat) returns (line: Line)
      requires i < a.Length0
      ensures line == Cells(a)[i]
    {
      line := seq(a.Length1, j requires 0 <= j < a.Length1 reads a => a[i, j]);
    }

    /** Column `j` of a board array, top to bottom. */
    static method ColumnOf(a: array2<bool>, j: nat) returns (line: Line)
      requires j < a.Length1
      ensures line == Column(Cells(a), j)
    {
      line := seq(a.Length0, i requires 0 <= i < a.Length0 reads a => a[i, j]);
    }

    /** Recomputes every row clue and every column clue from the solution. */
    method CalculateClues()
      requires Valid()
      modifies rowClues, colClues
      ensures Valid()
      ensures RowClues() == RowCluesOf(Solution(), gridSize)
      ensures ColClues() == ColCluesOf(Solution(), gridSize)
    {
      var n := gridSize;
      for i := 0 to n
        invariant forall i' :: 0 <= i' < i ==> rowClues[i'] == LineClues(Solution()[i'])
      {
        var row := RowOf(solution, i);
        rowClues[i] := CalculateLineClues(row);
      }
      for j := 0 to n
        invariant forall i' :: 0 <= i' < n ==> rowClues[i'] == LineClues(Solution()[i'])
        invariant forall j' :: 0 <= j' < j ==> colClues[j'] == LineClues(Column(Solution(), j'))
      {
        var column := ColumnOf(solution, j);
        colClues[j] := CalculateLineClues(column);
      }
    }

    /** The acceptance heuristic over the current clues. */
    method IsPuzzleValid() returns (valid: bool)
      requires Valid()
      ensures valid == PuzzleValid(RowClues(), ColClues(), gridSize)
    {
      var n := gridSize;
      for i := 0 to n
        invariant forall i' :: 0 <= i' < i ==> Sum(rowClues[i']) <= n && Sum(colClues[i']) <= n
      {
        if Sum(rowClues[i]) > n {
          return false;
        }
        if Sum(colClues[i]) > n {
          return false;
        }
      }
      var totalClues := TotalSize(rowClues[..]) + TotalSize(colClues[..]);
      valid := MinTotalClues <= totalClues <= MaxTotalClues;
    }

    /** Gives the player a fresh, all-empty board; the solution and the clues are kept. */
    method ResetBoard()
      requires Valid()
      modifies this
      ensures Valid() && fresh(playerGrid)
      ensures Player() == EmptyGrid(gridSize)
      ensures solution == old(solution) && rowClues == old(rowClues) && colClues == old(colClues)
      ensures Solution() == old(Solution()) && RowClues() == old(RowClues()) && ColClues() == old(ColClues())
    {
      playerGrid := new bool[gridSize, gridSize]((_, _) => false);
      CellsAre(playerGrid, EmptyGrid(gridSize));
    }

    /** The clues are those of the current solution. */
    ghost predicate CluesMatch()
      reads `solution, solution, `rowClues, rowClues, `colClues, colClues
    {
      solution.Length0 == gridSize && solution.Length1 == gridSize &&
      RowClues() == RowCluesOf(Solution(), gridSize) && ColClues() == ColCluesOf(Solution(), gridSize)
    }

    /** One round of the generator loop: draw attempt `k`, recompute the clues and judge them. */
    method TryAttempt(coin: (nat, nat, nat) -> bool, k: nat) returns (valid: bool)
      requires Valid() && k < MaxAttempts
      modifies solution, rowClues, colClues
      ensures Valid() && CluesMatch()
      ensures Solution() == Attempt(coin, k, gridSize)
      ensures valid == Verdicts(coin, gridSize)[k]
    {
      GenerateRandomSolution(coin, k);
      CalculateClues();
      valid := IsPuzzleValid();
      VerdictsAt(coin, gridSize, k);
    }

    /** The generator loop: draws boards until one is acceptable or MaxAttempts boards were drawn. The
        number of rounds is one past the chosen attempt, and the board left on the engine is the last
        one drawn; `last` is the index of that board. */
    method DrawAttempts(coin: (nat, nat, nat) -> bool) returns (attempts: nat, ghost last: nat)
      requires Valid()
      modifies solution, rowClues, colClues
      ensures Valid() && CluesMatch() && 1 <= attempts <= MaxAttempts && last == attempts - 1
      ensures last == Chosen(Verdicts(coin, gridSize), 0)
      ensures Solution() == Attempt(coin, last, gridSize)
    {
      attempts := 0;
      var valid := false;
      last := 0;
      // the source's do-while: the first round always runs
      while attempts == 0 || (!valid && attempts < MaxAttempts)
        invariant Valid() && attempts <= MaxAttempts
        invariant attempts > 0 ==> last == attempts - 1 && CluesMatch() && Solution() == Attempt(coin, last, gridSize)
        invariant attempts > 0 ==> valid == Verdicts(coin, gridSize)[last]
        invariant attempts > 0 ==> NoneAccepted(Verdicts(coin, gridSize), last)
        decreases MaxAttempts - attempts
      {
        last := attempts;
        valid := TryAttempt(coin, attempts);
        attempts := attempts + 1;
      }
      ChosenAfterNone(Verdicts(coin, gridSize), last);
    }

    /** Draws boards until one is acceptable or the attempt budget is spent, falls back to a fixed
        pattern when the counter reaches the budget, recomputes the clues and clears the player board. */
    method GenerateNewPuzzle(coin: (nat, nat, nat) -> bool, pick: nat)
      requires Valid() && pick < |Patterns| && gridSize <= 5
      modifies this, solution, rowClues, colClues
      ensures Valid() && CluesMatch()
      ensures Solution() == Generated(coin, pick, gridSize)
      ensures Player() == EmptyGrid(gridSize)
    {
      var attempts;
      ghost var chosen;
      attempts, chosen := DrawAttempts(coin);
      if attempts >= MaxAttempts {
        CreateSimplePuzzle(pick);
        CalculateClues();
      }
      ResetBoard();
    }

    /** Flips the player's cell (row, col) when both coordinates are on the board; otherwise nothing changes. */
    method ToggleCell(row: int, col: int)
      requires Valid()
      modifies playerGrid
      ensures Valid()
      ensures 0 <= row < gridSize && 0 <= col < gridSize ==> Player() == Flip(old(Player()), row, col)
      ensures !(0 <= row < gridSize && 0 <= col < gridSize) ==> Player() == old(Player())
    {
      ghost var before := Player();
      if 0 <= row < gridSize && 0 <= col < gridSize {
        playerGrid[row, col] := !playerGrid[row, col];
        CellsAre(playerGrid, Flip(before, row, col));
      }
    }

    /** The player's column `col`, top to bottom (the source does not check `col`). */
    method GetColumnForValidation(col: nat) returns (column: Line)
      requires Valid() && col < gridSize
      ensures column == Column(Player(), col)
    {
      column := ColumnOf(playerGrid, col);
    }

    /** Checks every row and then every column of the player's board against its clue, stopping at the first mismatch. */
    method IsPuzzleSolved() returns (solved: bool)
      requires Valid()
      ensures solved == Solved(Player(), RowClues(), ColClues(), gridSize)
    {
      var n := gridSize;
      for i := 0 to n
        invariant forall i' :: 0 <= i' < i ==> LineClues(Player()[i']) == rowClues[i']
      {
        var row := RowOf(playerGrid, i);
        var ok := IsLineValid(row, rowClues[i]);
        if !ok {
          return false;
        }
      }
      for j := 0 to n
        invariant forall j' :: 0 <= j' < j ==> LineClues(Column(Player(), j')) == colClues[j']
      {
        var column := GetColumnForValidation(j);
        var ok := IsLineValid(column, colClues[j]);
        if !ok {
          return false;
        }
      }
      return true;
    }
  }
}
