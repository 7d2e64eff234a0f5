/**
 * The Sudoku level page: a board generated for the level, the player's cell
 * selection and digit entry, the solution check with its reward and level
 * unlock, and hints.
 */
module SudokuLevel {
  import opened Wrappers
  import opened Collections
  import opened SudokuGrid

  /** The highest level; completing it unlocks nothing further. */
  const MaxLevel: int := 20

  /** XP awarded for a correct solution. */
  const SolveReward: int := 100

  /** Hints a player starts with when none are stored. */
  const DefaultHints: int := 3

  /**
   * JavaScript's `undefined`, which `useHint` writes into the cell when no
   * digit fits. Like `undefined` it is not 0 and not a digit 1..9.
   */
  const Undefined: int := -1

  /** The contents of a 9x9 board array, row by row. */
  function GridOf(a: array2<int>): (g: Grid)
    reads a
    requires a.Length0 == 9 && a.Length1 == 9
    ensures IsGrid(g) && forall r, c :: InBoard(r, c) ==> g[r][c] == a[r, c]
  {
    seq(9, r requires 0 <= r < 9 reads a => seq(9, c requires 0 <= c < 9 reads a => a[r, c]))
  }

  /**
   * The stored unlock frontier after solving `level`: it moves to level + 1
   * only when the level is the frontier (1 when nothing is stored) and below 20.
   */
  function AdvanceProgress(level: int, stored: Option<int>): (progress: Option<int>)
    ensures progress != stored ==> level == stored.GetOr(1) && level < MaxLevel && progress == Some(level + 1)
    ensures level == stored.GetOr(1) && level < MaxLevel ==> progress == Some(level + 1)
  {
    if level == stored.GetOr(1) && level < MaxLevel then Some(level + 1) else stored
  }

  /** Solving any level keeps a frontier in 1..20 inside 1..20, and never lowers it. */
  lemma AdvanceKeepsFrontierInRange(level: int, stored: Option<int>)
    requires 1 <= stored.GetOr(1) <= MaxLevel
    ensures 1 <= AdvanceProgress(level, stored).GetOr(1) <= MaxLevel
    ensures stored.GetOr(1) <= AdvanceProgress(level, stored).GetOr(1) <= stored.GetOr(1) + 1
  {
  }

  /** The nested loops that push every `[r, c]` into `allCoords`. */
  method CollectCoords() returns (coords: seq<(int, int)>)
    ensures coords == AllCoords()
  {
    coords := [];
    for r := 0 to 9
      invariant coords == AllCoords()[..9 * r]
    {
      for c := 0 to 9
        invariant coords == AllCoords()[..9 * r + c]
      {
        assert AllCoords()[9 * r + c] == (r, c);
        assert AllCoords()[..9 * r + c + 1] == AllCoords()[..9 * r + c] + [(r, c)];
        coords := coords + [(r, c)];
      }
    }
  }

  /** The `Array.from` of `generateBoard` that writes `nums[pattern(rows[r], cols[c])]` into every cell. */
  method FillSolved(rows: seq<int>, cols: seq<int>, nums: seq<int>) returns (board: array2<int>)
    requires |rows| == 9 && |cols| == 9 && |nums| == 9
    ensures fresh(board) && board.Length0 == 9 && board.Length1 == 9
    ensures forall r, c :: InBoard(r, c) ==> board[r, c] == SolvedGrid(rows, cols, nums)[r][c]
  {
    board := new int[9, 9]((r, c) requires 0 <= r < 9 && 0 <= c < 9 => nums[Pattern(rows[r], cols[c])]);
  }

  /** Every entry of a shuffle of `allCoords` is a cell of the board. */
  lemma ShuffledCoordsOnBoard(shuffleCoords: seq<(int, int)>, allCoords: seq<(int, int)>)
    requires allCoords == AllCoords()
    requires IsPermutationOf(shuffleCoords, allCoords)
    ensures |shuffleCoords| == 81
    ensures forall k :: 0 <= k < 81 ==> InBoard(shuffleCoords[k].0, shuffleCoords[k].1)
  {
    assert |multiset(shuffleCoords)| == |multiset(allCoords)|;
    AllCoordsCoverBoard();
    forall k | 0 <= k < 81 ensures InBoard(shuffleCoords[k].0, shuffleCoords[k].1) {
      assert shuffleCoords[k] in multiset(allCoords);
    }
  }

  /** The loop of `generateBoard` that sets the first `n` shuffled cells to 0. */
  method ClearFirst(board: array2<int>, shuffleCoords: seq<(int, int)>, n: int)
    requires board.Length0 == 9 && board.Length1 == 9
    requires n <= |shuffleCoords|
    requires forall k :: 0 <= k < |shuffleCoords| ==> InBoard(shuffleCoords[k].0, shuffleCoords[k].1)
    modifies board
    ensures forall r, c :: InBoard(r, c) ==>
      (board[r, c] == if (r, c) in FirstCells(shuffleCoords, n) then 0 else old(board[r, c]))
  {
    var i := 0;
    while i < n
      invariant 0 <= i && (i <= n || i == 0)
      invariant forall r, c :: InBoard(r, c) ==>
        (board[r, c] == if (r, c) in FirstCells(shuffleCoords, i) then 0 else old(board[r, c]))
    {
      var (r, c) := shuffleCoords[i];
      board[r, c] := 0;
      assert FirstCells(shuffleCoords, i + 1) == FirstCells(shuffleCoords, i) + {(r, c)};
      i := i + 1;
    }
    assert n <= 0 ==> FirstCells(shuffleCoords, n) == {} == FirstCells(shuffleCoords, i);
  }

  /**
   * `generateBoard(difficulty)`. The four random shuffles are the caller's:
   * `rowShuffles[g]` and `colShuffles[g]` are the shuffles of `rBase` for band g,
   * `nums` the shuffle of 1..9 and `shuffleCoords` the shuffle of `allCoords`.
   * More than 81 cleared cells would read past `shuffleCoords`, so the
   * difficulty is at most 40.
   */
  method GenerateBoard(difficulty: int, rowShuffles: seq<seq<int>>, colShuffles: seq<seq<int>>,
                       nums: seq<int>, shuffleCoords: seq<(int, int)>) returns (board: array2<int>)
    requires AreBandShuffles(rowShuffles) && AreBandShuffles(colShuffles)
    requires IsPermutationOf(nums, Digits)
    requires IsPermutationOf(shuffleCoords, AllCoords())
    requires ClearCount(difficulty) <= 81
    ensures fresh(board) && board.Length0 == 9 && board.Length1 == 9
    ensures |nums| == 9 && |shuffleCoords| == 81
    ensures forall r, c :: InBoard(r, c) ==>
      (board[r, c] == Puzzle(SolvedGrid(BandOrder(rowShuffles), BandOrder(colShuffles), nums),
                             ClearedCells(shuffleCoords, difficulty))[r][c])
  {
    var rows := BandOrder(rowShuffles);
    var cols := BandOrder(colShuffles);
    assert |multiset(nums)| == |multiset(Digits)|;
    board := FillSolved(rows, cols, nums);
    var allCoords := CollectCoords();
    // `shuffleCoords` is the caller's shuffle of `allCoords`.
    ShuffledCoordsOnBoard(shuffleCoords, allCoords);
    ClearFirst(board, shuffleCoords, 81 - Clues(difficulty));
  }

  /** `JSON.parse(JSON.stringify(board))`: a separate array with the same cells. */
  method CopyGrid(a: array2<int>) returns (b: array2<int>)
    requires a.Length0 == 9 && a.Length1 == 9
    ensures fresh(b) && b.Length0 == 9 && b.Length1 == 9
    ensures forall r, c :: InBoard(r, c) ==> b[r, c] == a[r, c]
  {
    b := new int[9, 9]((r, c) requires 0 <= r < 9 && 0 <= c < 9 reads a => a[r, c]);
  }

  /** `generateBoard` deep-copied twice, into the page's `board` and `original`. */
  method GenerateBoards(difficulty: int, rowShuffles: seq<seq<int>>, colShuffles: seq<seq<int>>,
                        nums: seq<int>, shuffleCoords: seq<(int, int)>) returns (board: array2<int>, original: array2<int>)
    requires AreBandShuffles(rowShuffles) && AreBandShuffles(colShuffles)
    requires IsPermutationOf(nums, Digits)
    requires IsPermutationOf(shuffleCoords, AllCoords())
    requires ClearCount(difficulty) <= 81
    ensures fresh(board) && fresh(original) && board != original
    ensures board.Length0 == 9 && board.Length1 == 9 && original.Length0 == 9 && original.Length1 == 9
    ensures |nums| == 9 && |shuffleCoords| == 81
    ensures forall r, c :: InBoard(r, c) ==>
      (original[r, c] == board[r, c] ==
       Puzzle(SolvedGrid(BandOrder(rowShuffles), BandOrder(colShuffles), nums),
              ClearedCells(shuffleCoords, difficulty))[r][c])
  {
    var generated := GenerateBoard(difficulty, rowShuffles, colShuffles, nums, shuffleCoords);
    board := CopyGrid(generated);
    original := CopyGrid(generated);
  }

  /**
   * The loop of `checkSolution`: it stops at the first row, column or box that
   * fails `isValid`, and succeeds when none does.
   */
  method ScanSolution(g: Grid) returns (ok: bool)
    requires IsGrid(g)
    ensures ok <==> forall i :: 0 <= i < 9 ==>
      AllDistinct(Row(g, i)) && InDigitRange(Row(g, i)) &&
      AllDistinct(Col(g, i)) && InDigitRange(Col(g, i)) &&
      AllDistinct(Box(g, i)) && InDigitRange(Box(g, i))
    ensures ok <==> IsSolved(g)
  {
    for i := 0 to 9
      invariant forall j :: 0 <= j < i ==>
        IsValidUnit(Row(g, j)) && IsValidUnit(Col(g, j)) && IsValidUnit(Box(g, j))
    {
      if !IsValidUnit(Row(g, i)) || !IsValidUnit(Col(g, i)) || !IsValidUnit(Box(g, i)) {
        UnitsOfGridIff(g);
        return false;
      }
    }
    UnitsOfGridIff(g);
    return true;
  }

  /** `isValid` on every unit means nine distinct digits in every unit. */
  lemma UnitsOfGridIff(g: Grid)
    requires IsGrid(g)
    ensures forall i :: 0 <= i < 9 ==>
      (IsValidUnit(Row(g, i)) <==> AllDistinct(Row(g, i)) && InDigitRange(Row(g, i))) &&
      (IsValidUnit(Col(g, i)) <==> AllDistinct(Col(g, i)) && InDigitRange(Col(g, i))) &&
      (IsValidUnit(Box(g, i)) <==> AllDistinct(Box(g, i)) && InDigitRange(Box(g, i)))
  {
    forall i | 0 <= i < 9
      ensures IsValidUnit(Row(g, i)) <==> AllDistinct(Row(g, i)) && InDigitRange(Row(g, i))
      ensures IsValidUnit(Col(g, i)) <==> AllDistinct(Col(g, i)) && InDigitRange(Col(g, i))
      ensures IsValidUnit(Box(g, i)) <==> AllDistinct(Box(g, i)) && InDigitRange(Box(g, i))
    {
      ValidUnitIff(Row(g, i));
      ValidUnitIff(Col(g, i));
      ValidUnitIff(Box(g, i));
    }
  }

  /** The loops of `useHint` that collect every cell where `original` and `board` are both 0. */
  method CollectOpenCells(board: array2<int>, original: array2<int>) returns (empties: seq<(int, int)>)
    requires board.Length0 == 9 && board.Length1 == 9 && original.Length0 == 9 && original.Length1 == 9
    ensures Elements(empties) == OpenCells(GridOf(board), GridOf(original))
    ensures forall k :: 0 <= k < |empties| ==> InBoard(empties[k].0, empties[k].1)
  {
    empties := [];
    for r := 0 to 9
      invariant forall p :: p in empties <==>
        0 <= p.0 < r && 0 <= p.1 < 9 && original[p.0, p.1] == 0 && board[p.0, p.1] == 0
    {
      for c := 0 to 9
        invariant forall p :: p in empties <==>
          ((0 <= p.0 < r && 0 <= p.1 < 9) || (p.0 == r && 0 <= p.1 < c)) &&
          original[p.0, p.1] == 0 && board[p.0, p.1] == 0
      {
        if original[r, c] == 0 && board[r, c] == 0 {
          empties := empties + [(r, c)];
        }
      }
    }
  }

  /**
   * `empties[Math.floor(Math.random() * empties.length)]`: some open cell,
   * the choice left open; none when there is no open cell.
   */
  method PickOpenCell(board: array2<int>, original: array2<int>) returns (cell: Option<(int, int)>)
    requires board.Length0 == 9 && board.Length1 == 9 && original.Length0 == 9 && original.Length1 == 9
    ensures cell.None? <==> OpenCells(GridOf(board), GridOf(original)) == {}
    ensures cell.Some? ==> cell.value in OpenCells(GridOf(board), GridOf(original))
    ensures cell.Some? ==> InBoard(cell.value.0, cell.value.1)
    ensures cell.Some? ==> original[cell.value.0, cell.value.1] == 0 && board[cell.value.0, cell.value.1] == 0
  {
    var empties := CollectOpenCells(board, original);
    if |empties| == 0 {
      assert OpenCells(GridOf(board), GridOf(original)) == {};
      return None;
    }
    var k :| 0 <= k < |empties|;
    assert empties[k] in Elements(empties);
    return Some(empties[k]);
  }

  /**
   * `generateSolution(r, c)`: a digit absent from the cell's row, column and
   * box (the random pick among them is a free choice), or `None` — JavaScript's
   * `undefined` — when every digit already appears.
   */
  method GenerateSolution(g: Grid, r: int, c: int) returns (digit: Option<int>)
    requires IsGrid(g) && InBoard(r, c)
    ensures digit.Some? ==>
      (1 <= digit.value <= 9 && digit.value !in Row(g, r) && digit.value !in Col(g, c)
       && digit.value !in Box(g, BoxOf(r, c)))
    ensures digit.Some? ==> digit.value in Candidates(g, r, c)
    ensures digit.None? <==> Candidates(g, r, c) == []
    ensures digit.None? <==> forall n :: 1 <= n <= 9 ==>
      n in Row(g, r) || n in Col(g, c) || n in Box(g, BoxOf(r, c))
  {
    var possible := Candidates(g, r, c);
    if |possible| == 0 {
      digit := None;
    } else {
      var k :| 0 <= k < |possible|;
      assert possible[k] in possible;
      digit := Some(possible[k]);
      assert possible[k] in Digits;
    }
  }

  /** One visit of a level: the page's state once `generateBoard` has run. */
  class LevelPage {
    /** `parsedLevel`, also the difficulty the board was generated with. */
    const level: int
    var board: array2<int>
    var original: array2<int>
    var selected: Option<(int, int)>
    var xp: int
    var hintCount: int

    /** Givens are never editable: a selected cell and every given cell are as `original` says. */
    ghost predicate Valid()
      reads this, board, original
    {
      && board.Length0 == 9 && board.Length1 == 9
      && original.Length0 == 9 && original.Length1 == 9
      && board != original
      && (selected.Some? ==> InBoard(selected.value.0, selected.value.1)
                             && original[selected.value.0, selected.value.1] == 0)
      && (forall r, c :: InBoard(r, c) && original[r, c] != 0 ==> board[r, c] == original[r, c])
    }

    /**
     * Mounting the page: stored XP and hints with their defaults (0 and 3),
     * then `generateBoard(parsedLevel)`, whose result is deep-copied into both
     * `board` and `original`.
     */
    constructor (parsedLevel: int, savedXp: Option<int>, savedHints: Option<int>,
                 rowShuffles: seq<seq<int>>, colShuffles: seq<seq<int>>,
                 nums: seq<int>, shuffleCoords: seq<(int, int)>)
      requires AreBandShuffles(rowShuffles) && AreBandShuffles(colShuffles)
      requires IsPermutationOf(nums, Digits)
      requires IsPermutationOf(shuffleCoords, AllCoords())
      requires ClearCount(parsedLevel) <= 81
      ensures Valid() && fresh(board) && fresh(original)
      ensures level == parsedLevel && selected.None?
      ensures xp == savedXp.GetOr(0) && hintCount == savedHints.GetOr(DefaultHints)
      ensures |nums| == 9 && |shuffleCoords| == 81
      ensures forall r, c :: InBoard(r, c) ==>
        (original[r, c] == board[r, c] ==
         Puzzle(SolvedGrid(BandOrder(rowShuffles), BandOrder(colShuffles), nums),
                ClearedCells(shuffleCoords, parsedLevel))[r][c])
    {
      level := parsedLevel;
      xp := savedXp.GetOr(0);
      hintCount := savedHints.GetOr(DefaultHints);
      selected := None;
      var b, o := GenerateBoards(parsedLevel, rowShuffles, colShuffles, nums, shuffleCoords);
      board, original := b, o;
    }

    /** `handleSelect(r, c)`: only a cell that was empty after generation can be selected. */
    method HandleSelect(r: int, c: int)
      requires Valid() && InBoard(r, c)
      modifies this`selected
      ensures Valid()
      ensures selected == if original[r, c] == 0 then Some((r, c)) else old(selected)
    {
      if original[r, c] == 0 {
        selected := Some((r, c));
      }
    }

    /** `handleInput(n)`: write n into the selected cell, and nowhere else. */
    method HandleInput(n: int)
      requires Valid()
      modifies board
      ensures Valid()
      ensures selected.None? ==> forall i, j :: InBoard(i, j) ==> board[i, j] == old(board[i, j])
      ensures selected.Some? ==> forall i, j :: InBoard(i, j) ==>
        board[i, j] == if (i, j) == selected.value then n else old(board[i, j])
      ensures forall i, j :: InBoard(i, j) ==> original[i, j] == old(original[i, j])
    {
      if selected.None? {
        return;
      }
      var (r, c) := selected.value;
      board[r, c] := n;
    }

    /**
     * `checkSolution`: on success, +100 XP and the stored frontier `stored`
     * advances as `AdvanceProgress` says; on failure nothing changes. The
     * frontier is persistent storage, so it comes in and goes out as a value.
     */
    method CheckSolution(stored: Option<int>) returns (solved: bool, progress: Option<int>)
      requires Valid()
      modifies this`xp
      ensures Valid()
      ensures solved <==> IsSolved(GridOf(board))
      ensures xp == if solved then old(xp) + SolveReward else old(xp)
      ensures progress == if solved then AdvanceProgress(level, stored) else stored
    {
      solved := ScanSolution(GridOf(board));
      if !solved {
        return solved, stored;
      }
      xp := xp + SolveReward;
      progress := AdvanceProgress(level, stored);
    }

    /**
     * `useHint`: with hints left and an open cell (empty now and not a given),
     * fill one open cell with a digit absent from its row, column and box —
     * or with `undefined` when there is none — and spend one hint. Otherwise
     * nothing changes. The cell is a free choice among the open ones.
     */
    method UseHint() returns (filled: Option<(int, int)>)
      requires Valid()
      modifies this`hintCount, board
      ensures Valid()
      ensures filled.None? <==> old(hintCount) <= 0 || OpenCells(old(GridOf(board)), GridOf(original)) == {}
      ensures filled.None? ==>
        (hintCount == old(hintCount) && forall i, j :: InBoard(i, j) ==> board[i, j] == old(board[i, j]))
      ensures filled.Some? ==> filled.value in OpenCells(old(GridOf(board)), GridOf(original))
      ensures filled.Some? ==> hintCount == old(hintCount) - 1
      ensures filled.Some? ==> forall i, j :: InBoard(i, j) && (i, j) != filled.value ==> board[i, j] == old(board[i, j])
      ensures filled.Some? ==>
        var (r, c) := filled.value;
        var digits := Candidates(old(GridOf(board)), r, c);
        (board[r, c] in digits) || (digits == [] && board[r, c] == Undefined)
      ensures forall i, j :: InBoard(i, j) ==> original[i, j] == old(original[i, j])
    {
      if hintCount <= 0 {
        return None;
      }
      var cell := PickOpenCell(board, original);
      if cell.None? {
        return None;
      }
      var (r, c) := cell.value;
      var digit := GenerateSolution(GridOf(board), r, c);
      board[r, c] := digit.GetOr(Undefined);
      hintCount := hintCount - 1;
      filled := Some((r, c));
    }
  }
}
