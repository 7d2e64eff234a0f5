/**
 * The rules of the 9x9 number grid of the Sudoku level page: how a solved
 * grid is built from the canonical pattern, how cells are cleared, what a
 * correct solution is, and which digits a hint may place.
 */
module SudokuGrid {
  import opened Collections

  // base = 3 and side = 9 are written as literals below.

  /** `rBase`, the offsets inside one band of three rows or columns. */
  const BandBase: seq<int> := [0, 1, 2]

  /** The nine digits that `nums` shuffles. */
  const Digits: seq<int> := [1, 2, 3, 4, 5, 6, 7, 8, 9]

  /** A board: rows of cells, 0 for an empty cell. */
  type Grid = seq<seq<int>>

  predicate InBoard(r: int, c: int) {
    0 <= r < 9 && 0 <= c < 9
  }

  predicate IsGrid(g: Grid) {
    |g| == 9 && forall r :: 0 <= r < 9 ==> |g[r]| == 9
  }

  // ---------------------------------------------------------------------
  // Generation of a solved grid
  // ---------------------------------------------------------------------

  /** `pattern(r, c)`: the digit index of cell (r, c) in the canonical grid. */
  function Pattern(r: int, c: int): (v: int)
    ensures 0 <= v < 9
  {
    (3 * (r % 3) + r / 3 + c) % 9
  }

  /**
   * `rows` / `cols`: band g keeps its place and its three lines are reordered
   * by `shuffles[g]`, as `rBase.flatMap(g => shuffle(rBase).map(r => g*base + r))`.
   */
  function BandOrder(shuffles: seq<seq<int>>): (order: seq<int>)
    requires |shuffles| == 3 && forall g :: 0 <= g < 3 ==> |shuffles[g]| == 3
    ensures |order| == 9
  {
    seq(9, i requires 0 <= i < 9 => 3 * (i / 3) + shuffles[i / 3][i % 3])
  }

  /** Each of the three band shuffles is a reordering of `rBase`. */
  predicate AreBandShuffles(shuffles: seq<seq<int>>) {
    |shuffles| == 3 && forall g :: 0 <= g < 3 ==> IsPermutationOf(shuffles[g], BandBase)
  }

  /** A permutation of 0..8 that leaves every index inside its own band. */
  predicate IsBandPermutation(p: seq<int>) {
    && |p| == 9
    && (forall i :: 0 <= i < 9 ==> 0 <= p[i] < 9 && p[i] / 3 == i / 3)
    && AllDistinct(p)
    && (forall v :: 0 <= v < 9 ==> v in p)
  }

  /** `nums[pattern(rows[r], cols[c])]` for every cell. */
  function SolvedGrid(rows: seq<int>, cols: seq<int>, nums: seq<int>): (g: Grid)
    requires |rows| == 9 && |cols| == 9 && |nums| == 9
    ensures IsGrid(g)
  {
    seq(9, r requires 0 <= r < 9 =>
      seq(9, c requires 0 <= c < 9 => nums[Pattern(rows[r], cols[c])]))
  }

  // ---------------------------------------------------------------------
  // Units and the solution check
  // ---------------------------------------------------------------------

  function Row(g: Grid, i: int): (s: seq<int>)
    requires IsGrid(g) && 0 <= i < 9
    ensures |s| == 9
  {
    g[i]
  }

  /** `board.map(r => r[i])` */
  function Col(g: Grid, i: int): (s: seq<int>)
    requires IsGrid(g) && 0 <= i < 9
    ensures |s| == 9
  {
    seq(9, r requires 0 <= r < 9 => g[r][i])
  }

  /** Box i, read row by row: rows 3*(i/3).., columns 3*(i%3).. */
  function Box(g: Grid, i: int): (s: seq<int>)
    requires IsGrid(g) && 0 <= i < 9
    ensures |s| == 9
  {
    seq(9, k requires 0 <= k < 9 => g[3 * (i / 3) + k / 3][3 * (i % 3) + k % 3])
  }

  /** The box that holds cell (r, c). */
  function BoxOf(r: int, c: int): (i: int)
    requires InBoard(r, c)
    ensures 0 <= i < 9
  {
    3 * (r / 3) + c / 3
  }

  predicate InDigitRange(s: seq<int>) {
    forall k :: 0 <= k < |s| ==> 1 <= s[k] <= 9
  }

  /** `isValid(arr)`: `new Set(arr).size === 9` and every value is in 1..9. */
  predicate IsValidUnit(s: seq<int>)
    ensures IsValidUnit(s) ==> forall k :: 0 <= k < |s| ==> 1 <= s[k] <= 9
  {
    |Elements(s)| == 9 && InDigitRange(s)
  }

  /** The loop of `checkSolution` runs to its end: every row, column and box is valid. */
  predicate IsSolved(g: Grid)
    ensures IsSolved(g) ==> IsGrid(g) && forall i :: 0 <= i < 9 ==> InDigitRange(Row(g, i))
  {
    IsGrid(g) && forall i :: 0 <= i < 9 ==>
      IsValidUnit(Row(g, i)) && IsValidUnit(Col(g, i)) && IsValidUnit(Box(g, i))
  }

  /** A unit of nine cells passes `isValid` exactly when its values are distinct digits. */
  lemma ValidUnitIff(s: seq<int>)
    requires |s| == 9
    ensures IsValidUnit(s) <==> AllDistinct(s) && InDigitRange(s)
  {
    if AllDistinct(s) {
      DistinctCard(s);
    } else {
      var i, j :| 0 <= i < j < |s| && s[i] == s[j];
      RepeatedCard(s, i, j);
    }
  }

  // ---------------------------------------------------------------------
  // Why the generated grid is valid
  // ---------------------------------------------------------------------

  lemma ModShiftInjective(k: int, x: int, y: int)
    requires 0 <= x < 9 && 0 <= y < 9
    requires (k + x) % 9 == (k + y) % 9
    ensures x == y
  {
    var q1, q2 := (k + x) / 9, (k + y) / 9;
    assert k + x == 9 * q1 + (k + x) % 9;
    assert k + y == 9 * q2 + (k + y) % 9;
    assert x - y == 9 * (q1 - q2);
  }

  /** Along a row the pattern takes nine different values. */
  lemma PatternRowInjective(r: int, c1: int, c2: int)
    requires 0 <= c1 < 9 && 0 <= c2 < 9
    requires Pattern(r, c1) == Pattern(r, c2)
    ensures c1 == c2
  {
    ModShiftInjective(3 * (r % 3) + r / 3, c1, c2);
  }

  /** Down a column the pattern takes nine different values. */
  lemma PatternColInjective(r1: int, r2: int, c: int)
    requires 0 <= r1 < 9 && 0 <= r2 < 9
    requires Pattern(r1, c) == Pattern(r2, c)
    ensures r1 == r2
  {
    var x1, x2 := 3 * (r1 % 3) + r1 / 3, 3 * (r2 % 3) + r2 / 3;
    ModShiftInjective(c, x1, x2);
    assert r1 == 3 * (r1 / 3) + r1 % 3;
    assert r2 == 3 * (r2 / 3) + r2 % 3;
  }

  /** Inside one box the pattern takes nine different values. */
  lemma PatternBoxInjective(r1: int, c1: int, r2: int, c2: int)
    requires InBoard(r1, c1) && InBoard(r2, c2)
    requires r1 / 3 == r2 / 3 && c1 / 3 == c2 / 3
    ensures Pattern(r1, c1) == Pattern(r2, c2) ==> r1 == r2 && c1 == c2
  {
    var a, b := r1 / 3, c1 / 3;
    var x1, x2 := 3 * (r1 % 3) + c1 % 3, 3 * (r2 % 3) + c2 % 3;
    assert c1 == 3 * b + c1 % 3 && c2 == 3 * b + c2 % 3;
    assert Pattern(r1, c1) == (a + 3 * b + x1) % 9;
    assert Pattern(r2, c2) == (a + 3 * b + x2) % 9;
    if Pattern(r1, c1) == Pattern(r2, c2) {
      ModShiftInjective(a + 3 * b, x1, x2);
      assert r1 == 3 * a + r1 % 3 && r2 == 3 * a + r2 % 3;
    }
  }

  /** One shuffle of `rBase` holds 0, 1 and 2, once each. */
  lemma BandShuffleFacts(p: seq<int>)
    requires IsPermutationOf(p, BandBase)
    ensures |p| == 3 && AllDistinct(p)
    ensures forall k :: 0 <= k < 3 ==> 0 <= p[k] < 3
    ensures forall x :: 0 <= x < 3 ==> x in p
  {
    assert AllDistinct(BandBase);
    assert |multiset(p)| == |multiset(BandBase)|;
    PermutationKeepsDistinct(p, BandBase);
    forall k | 0 <= k < |p| ensures 0 <= p[k] < 3 {
      assert p[k] in multiset(p);
    }
    forall x | 0 <= x < 3 ensures x in p {
      assert x in multiset(BandBase);
    }
  }

  /** What three band shuffles give entry by entry: three digits 0..2 per band, once each. */
  predicate BandShuffleEntries(shuffles: seq<seq<int>>) {
    && |shuffles| == 3
    && (forall g :: 0 <= g < 3 ==> |shuffles[g]| == 3 && AllDistinct(shuffles[g]))
    && (forall g, k :: 0 <= g < 3 && 0 <= k < 3 ==> 0 <= shuffles[g][k] < 3)
    && (forall g, x :: 0 <= g < 3 && 0 <= x < 3 ==> x in shuffles[g])
  }

  lemma BandShufflesEntries(shuffles: seq<seq<int>>)
    requires AreBandShuffles(shuffles)
    ensures BandShuffleEntries(shuffles)
  {
    forall g | 0 <= g < 3
      ensures |shuffles[g]| == 3 && AllDistinct(shuffles[g])
      ensures forall k :: 0 <= k < 3 ==> 0 <= shuffles[g][k] < 3
      ensures forall x :: 0 <= x < 3 ==> x in shuffles[g]
    {
      BandShuffleFacts(shuffles[g]);
    }
  }

  /** `rows` and `cols` built from three shuffles of `rBase` are band-preserving permutations. */
  lemma BandOrderIsBandPermutation(shuffles: seq<seq<int>>)
    requires AreBandShuffles(shuffles)
    ensures IsBandPermutation(BandOrder(shuffles))
  {
    BandShufflesEntries(shuffles);
    var order := BandOrder(shuffles);
    forall i | 0 <= i < 9 ensures 0 <= order[i] < 9 && order[i] / 3 == i / 3 {
      BandOrderAt(shuffles, i);
    }
    forall i, j | 0 <= i < j < 9 ensures order[i] != order[j] {
      BandOrderEntriesDiffer(shuffles, i, j);
    }
    forall v | 0 <= v < 9 ensures v in order {
      BandOrderCovers(shuffles, v);
    }
  }

  /** Every index 0..8 occurs in `rows`. */
  lemma BandOrderCovers(shuffles: seq<seq<int>>, v: int)
    requires BandShuffleEntries(shuffles) && 0 <= v < 9
    ensures v in BandOrder(shuffles)
  {
    var g := v / 3;
    assert v % 3 in shuffles[g];
    var k :| 0 <= k < 3 && shuffles[g][k] == v % 3;
    BandOrderAt(shuffles, 3 * g + k);
    assert BandOrder(shuffles)[3 * g + k] == v;
  }

  lemma BandOrderEntriesDiffer(shuffles: seq<seq<int>>, i: int, j: int)
    requires BandShuffleEntries(shuffles)
    requires 0 <= i < j < 9
    ensures BandOrder(shuffles)[i] != BandOrder(shuffles)[j]
  {
    BandOrderAt(shuffles, i);
    BandOrderAt(shuffles, j);
    if i / 3 == j / 3 {
      assert i % 3 < j % 3;
      assert shuffles[i / 3][i % 3] != shuffles[i / 3][j % 3];
    }
  }

  /** Entry i of `rows` lies in band i/3, at the offset its band's shuffle gives. */
  lemma BandOrderAt(shuffles: seq<seq<int>>, i: int)
    requires |shuffles| == 3 && forall g :: 0 <= g < 3 ==> |shuffles[g]| == 3
    requires forall g, k :: 0 <= g < 3 && 0 <= k < 3 ==> 0 <= shuffles[g][k] < 3
    requires 0 <= i < 9
    ensures BandOrder(shuffles)[i] == 3 * (i / 3) + shuffles[i / 3][i % 3]
    ensures 0 <= BandOrder(shuffles)[i] < 9 && BandOrder(shuffles)[i] / 3 == i / 3
    ensures BandOrder(shuffles)[i] % 3 == shuffles[i / 3][i % 3]
    ensures i == 3 * (i / 3) + i % 3
  {
  }

  /** `nums`, a shuffle of 1..9, is nine distinct digits. */
  lemma DigitShuffleIsRelabelling(nums: seq<int>)
    requires IsPermutationOf(nums, Digits)
    ensures |nums| == 9 && AllDistinct(nums) && InDigitRange(nums)
  {
    assert |multiset(nums)| == |multiset(Digits)|;
    DigitsAt();
    assert AllDistinct(Digits);
    PermutationKeepsDistinct(nums, Digits);
    forall k | 0 <= k < |nums| ensures 1 <= nums[k] <= 9 {
      assert nums[k] in multiset(nums);
      DigitBounds(nums[k]);
    }
  }

  lemma DigitBounds(x: int)
    requires x in multiset(Digits)
    ensures 1 <= x <= 9
  {
    assert x in Digits;
    DigitsAt();
    var j :| 0 <= j < 9 && Digits[j] == x;
  }

  lemma DigitsAt()
    ensures |Digits| == 9 && forall j :: 0 <= j < 9 ==> Digits[j] == j + 1
  {
  }

  lemma DigitsMembers()
    ensures forall n :: n in Digits <==> 1 <= n <= 9
  {
    DigitsAt();
    forall n | 1 <= n <= 9 ensures n in Digits {
      assert Digits[n - 1] == n;
    }
  }

  lemma UnitFromDistinctDigits(s: seq<int>)
    requires |s| == 9 && AllDistinct(s) && InDigitRange(s)
    ensures IsValidUnit(s)
  {
    ValidUnitIff(s);
  }

  /**
   * The generated grid is a valid Sudoku for any band-preserving row and
   * column permutations and any relabelling of the digits.
   */
  lemma RelabelledPatternIsSolved(rows: seq<int>, cols: seq<int>, nums: seq<int>)
    requires IsBandPermutation(rows) && IsBandPermutation(cols)
    requires |nums| == 9 && AllDistinct(nums) && InDigitRange(nums)
    ensures IsSolved(SolvedGrid(rows, cols, nums))
  {
    var g := SolvedGrid(rows, cols, nums);
    forall i | 0 <= i < 9
      ensures IsValidUnit(Row(g, i)) && IsValidUnit(Col(g, i)) && IsValidUnit(Box(g, i))
    {
      RowIsUnit(rows, cols, nums, i);
      ColIsUnit(rows, cols, nums, i);
      BoxIsUnit(rows, cols, nums, i);
    }
  }

  lemma RowIsUnit(rows: seq<int>, cols: seq<int>, nums: seq<int>, i: int)
    requires IsBandPermutation(rows) && IsBandPermutation(cols)
    requires |nums| == 9 && AllDistinct(nums) && InDigitRange(nums)
    requires 0 <= i < 9
    ensures IsValidUnit(Row(SolvedGrid(rows, cols, nums), i))
  {
    var s := Row(SolvedGrid(rows, cols, nums), i);
    forall c1, c2 | 0 <= c1 < c2 < 9 ensures s[c1] != s[c2] {
      if s[c1] == s[c2] {
        assert Pattern(rows[i], cols[c1]) == Pattern(rows[i], cols[c2]);
        PatternRowInjective(rows[i], cols[c1], cols[c2]);
        assert false;
      }
    }
    UnitFromDistinctDigits(s);
  }

  lemma ColIsUnit(rows: seq<int>, cols: seq<int>, nums: seq<int>, i: int)
    requires IsBandPermutation(rows) && IsBandPermutation(cols)
    requires |nums| == 9 && AllDistinct(nums) && InDigitRange(nums)
    requires 0 <= i < 9
    ensures IsValidUnit(Col(SolvedGrid(rows, cols, nums), i))
  {
    var s := Col(SolvedGrid(rows, cols, nums), i);
    forall r1, r2 | 0 <= r1 < r2 < 9 ensures s[r1] != s[r2] {
      if s[r1] == s[r2] {
        assert Pattern(rows[r1], cols[i]) == Pattern(rows[r2], cols[i]);
        PatternColInjective(rows[r1], rows[r2], cols[i]);
        assert false;
      }
    }
    UnitFromDistinctDigits(s);
  }

  lemma BoxIsUnit(rows: seq<int>, cols: seq<int>, nums: seq<int>, i: int)
    requires IsBandPermutation(rows) && IsBandPermutation(cols)
    requires |nums| == 9 && AllDistinct(nums) && InDigitRange(nums)
    requires 0 <= i < 9
    ensures IsValidUnit(Box(SolvedGrid(rows, cols, nums), i))
  {
    var s := Box(SolvedGrid(rows, cols, nums), i);
    forall k1, k2 | 0 <= k1 < k2 < 9 ensures s[k1] != s[k2] {
      BoxCellsDiffer(rows, cols, nums, i, k1, k2);
    }
    UnitFromDistinctDigits(s);
  }

  lemma BoxCellsDiffer(rows: seq<int>, cols: seq<int>, nums: seq<int>, i: int, k1: int, k2: int)
    requires IsBandPermutation(rows) && IsBandPermutation(cols)
    requires |nums| == 9 && AllDistinct(nums)
    requires 0 <= i < 9 && 0 <= k1 < k2 < 9
    ensures Box(SolvedGrid(rows, cols, nums), i)[k1] != Box(SolvedGrid(rows, cols, nums), i)[k2]
  {
    var g := SolvedGrid(rows, cols, nums);
    var r1, c1 := BoxEntry(g, i, k1);
    var r2, c2 := BoxEntry(g, i, k2);
    SolvedAt(rows, cols, nums, r1, c1);
    SolvedAt(rows, cols, nums, r2, c2);
    BandCellsDiffer(rows, cols, r1, c1, r2, c2);
  }

  lemma SolvedAt(rows: seq<int>, cols: seq<int>, nums: seq<int>, r: int, c: int)
    requires |rows| == 9 && |cols| == 9 && |nums| == 9 && InBoard(r, c)
    ensures SolvedGrid(rows, cols, nums)[r][c] == nums[Pattern(rows[r], cols[c])]
  {
  }

  /** Entry k of box i, as the cell (r, c) it reads. */
  lemma BoxEntry(g: Grid, i: int, k: int) returns (r: int, c: int)
    requires IsGrid(g) && 0 <= i < 9 && 0 <= k < 9
    ensures InBoard(r, c) && r / 3 == i / 3 && c / 3 == i % 3
    ensures r % 3 == k / 3 && c % 3 == k % 3 && k == 3 * (k / 3) + k % 3
    ensures Box(g, i)[k] == g[r][c]
  {
    r, c := BoxCell(i, k);
  }

  /** Two different cells of one box keep different pattern values after the band permutations. */
  lemma BandCellsDiffer(rows: seq<int>, cols: seq<int>, r1: int, c1: int, r2: int, c2: int)
    requires IsBandPermutation(rows) && IsBandPermutation(cols)
    requires InBoard(r1, c1) && InBoard(r2, c2) && (r1 != r2 || c1 != c2)
    requires r1 / 3 == r2 / 3 && c1 / 3 == c2 / 3
    ensures Pattern(rows[r1], cols[c1]) != Pattern(rows[r2], cols[c2])
  {
    assert rows[r1] != rows[r2] || cols[c1] != cols[c2];
    PatternBoxInjective(rows[r1], cols[c1], rows[r2], cols[c2]);
  }

  /** Entry k of box i is cell (r, c): row band i/3, column band i%3, offsets k/3 and k%3. */
  lemma BoxCell(i: int, k: int) returns (r: int, c: int)
    requires 0 <= i < 9 && 0 <= k < 9
    ensures r == 3 * (i / 3) + k / 3 && c == 3 * (i % 3) + k % 3
    ensures InBoard(r, c) && r / 3 == i / 3 && c / 3 == i % 3
    ensures r % 3 == k / 3 && c % 3 == k % 3 && k == 3 * (k / 3) + k % 3
  {
    r, c := 3 * (i / 3) + k / 3, 3 * (i % 3) + k % 3;
  }

  /** The main property of `generateBoard`: before clearing, the grid is solved. */
  lemma GeneratedGridIsSolved(rowShuffles: seq<seq<int>>, colShuffles: seq<seq<int>>, nums: seq<int>)
    requires AreBandShuffles(rowShuffles) && AreBandShuffles(colShuffles)
    requires IsPermutationOf(nums, Digits)
    ensures |nums| == 9
    ensures IsSolved(SolvedGrid(BandOrder(rowShuffles), BandOrder(colShuffles), nums))
  {
    BandOrderIsBandPermutation(rowShuffles);
    BandOrderIsBandPermutation(colShuffles);
    DigitShuffleIsRelabelling(nums);
    RelabelledPatternIsSolved(BandOrder(rowShuffles), BandOrder(colShuffles), nums);
  }

  // ---------------------------------------------------------------------
  // Clearing cells
  // ---------------------------------------------------------------------

  /** `allCoords`: every cell, row by row. */
  function AllCoords(): (coords: seq<(int, int)>)
    ensures |coords| == 81
  {
    seq(81, k => (k / 9, k % 9))
  }

  /** `allCoords` names every cell of the board exactly once. */
  lemma AllCoordsCoverBoard()
    ensures AllDistinct(AllCoords())
    ensures forall r, c :: (r, c) in AllCoords() <==> InBoard(r, c)
  {
    var all := AllCoords();
    forall k1, k2 | 0 <= k1 < k2 < 81 ensures all[k1] != all[k2] {
      assert k1 == 9 * (k1 / 9) + k1 % 9 && k2 == 9 * (k2 / 9) + k2 % 9;
    }
    forall r, c | InBoard(r, c) ensures (r, c) in all {
      assert all[9 * r + c] == (r, c);
    }
  }

  /** `clues = 81 - Math.floor((difficulty / 20) * 40)`. */
  function Clues(difficulty: int): (clues: int)
    ensures clues == 81 - 2 * difficulty
  {
    81 - (difficulty * 40) / 20
  }

  /** How many cells the clearing loop empties: `81 - clues`, which is twice the difficulty. */
  function ClearCount(difficulty: int): (n: int)
    ensures n == 2 * difficulty
  {
    81 - Clues(difficulty)
  }

  /** The cells named by the first `n` entries of a coordinate order. */
  function FirstCells(order: seq<(int, int)>, n: int): set<(int, int)>
    requires n <= |order|
  {
    set k | 0 <= k < n :: order[k]
  }

  /** The cells the loop `for (i = 0; i < 81 - clues; i++)` sets to 0. */
  function ClearedCells(order: seq<(int, int)>, difficulty: int): set<(int, int)>
    requires ClearCount(difficulty) <= |order|
  {
    FirstCells(order, ClearCount(difficulty))
  }

  /** The board after clearing: 0 on the cleared cells, the solution elsewhere. */
  function Puzzle(solved: Grid, cleared: set<(int, int)>): (g: Grid)
    requires IsGrid(solved)
    ensures IsGrid(g)
  {
    seq(9, r requires 0 <= r < 9 =>
      seq(9, c requires 0 <= c < 9 => if (r, c) in cleared then 0 else solved[r][c]))
  }

  /** The empty cells of a grid. */
  function ZeroCells(g: Grid): set<(int, int)>
    requires IsGrid(g)
  {
    set r, c | 0 <= r < 9 && 0 <= c < 9 && g[r][c] == 0 :: (r, c)
  }

  /** Every cell of a solved grid holds a digit 1..9. */
  lemma SolvedCellsAreDigits(g: Grid, r: int, c: int)
    requires IsSolved(g) && InBoard(r, c)
    ensures 1 <= g[r][c] <= 9
  {
    assert IsValidUnit(Row(g, r));
  }

  /**
   * Clearing a shuffle of `allCoords` empties exactly `81 - clues` distinct
   * cells, 2 * difficulty of them, and keeps the solution on every other cell.
   */
  lemma PuzzleClearsExactly(solved: Grid, order: seq<(int, int)>, difficulty: int)
    requires IsSolved(solved)
    requires IsPermutationOf(order, AllCoords())
    requires 0 <= difficulty && ClearCount(difficulty) <= 81
    ensures |order| == 81
    ensures ZeroCells(Puzzle(solved, ClearedCells(order, difficulty))) == ClearedCells(order, difficulty)
    ensures |ClearedCells(order, difficulty)| == 2 * difficulty
    ensures forall r, c :: InBoard(r, c) && (r, c) !in ClearedCells(order, difficulty) ==>
      Puzzle(solved, ClearedCells(order, difficulty))[r][c] == solved[r][c]
  {
    assert |multiset(order)| == |multiset(AllCoords())|;
    var n := ClearCount(difficulty);
    var cleared := ClearedCells(order, difficulty);
    AllCoordsCoverBoard();
    PermutationKeepsDistinct(order, AllCoords());
    var prefix := order[..n];
    assert AllDistinct(prefix);
    assert Elements(prefix) == cleared by {
      forall p ensures p in Elements(prefix) <==> p in cleared {
        if p in Elements(prefix) {
          var k :| 0 <= k < n && prefix[k] == p;
          assert order[k] == p;
        }
      }
    }
    DistinctCard(prefix);
    forall p | p in cleared ensures InBoard(p.0, p.1) {
      var k :| 0 <= k < n && order[k] == p;
      assert p in multiset(order);
      assert p in multiset(AllCoords());
    }
    var puzzle := Puzzle(solved, cleared);
    forall r, c | InBoard(r, c) ensures puzzle[r][c] == 0 <==> (r, c) in cleared {
      SolvedCellsAreDigits(solved, r, c);
    }
  }

  // ---------------------------------------------------------------------
  // Hints
  // ---------------------------------------------------------------------

  /** `.filter((v) => v !== 0)` */
  function Nonzero(s: seq<int>): (r: seq<int>)
    ensures forall x :: x in r <==> x in s && x != 0
  {
    if s == [] then []
    else (if s[0] != 0 then [s[0]] else []) + Nonzero(s[1..])
  }

  /** `[1..9].filter((n) => !row.includes(n) && !col.includes(n) && !box.includes(n))` */
  function Possible(ds: seq<int>, row: seq<int>, col: seq<int>, box: seq<int>): (r: seq<int>)
    ensures forall n :: n in r <==> n in ds && n !in row && n !in col && n !in box
  {
    if ds == [] then []
    else
      (if ds[0] !in row && ds[0] !in col && ds[0] !in box then [ds[0]] else [])
      + Possible(ds[1..], row, col, box)
  }

  /**
   * The digits `generateSolution(r, c)` chooses from: those in 1..9 that are
   * not among the non-empty values of the cell's row, column and box.
   */
  function Candidates(g: Grid, r: int, c: int): (cands: seq<int>)
    requires IsGrid(g) && InBoard(r, c)
    ensures forall n :: n in cands <==>
      1 <= n <= 9 && n !in Row(g, r) && n !in Col(g, c) && n !in Box(g, BoxOf(r, c))
  {
    DigitsMembers();
    Possible(Digits, Nonzero(Row(g, r)), Nonzero(Col(g, c)), Nonzero(Box(g, BoxOf(r, c))))
  }

  /** The cells a hint may fill: empty now and not a given. */
  function OpenCells(board: Grid, original: Grid): (cells: set<(int, int)>)
    requires IsGrid(board) && IsGrid(original)
    ensures forall p :: p in cells <==> InBoard(p.0, p.1) && original[p.0][p.1] == 0 && board[p.0][p.1] == 0
  {
    set r, c | 0 <= r < 9 && 0 <= c < 9 && original[r][c] == 0 && board[r][c] == 0 :: (r, c)
  }
}
