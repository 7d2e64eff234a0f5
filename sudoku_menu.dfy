/** The Sudoku level menu: which of the twenty levels can be opened. */
module SudokuMenu {
  import opened Wrappers
  import SudokuLevel

  /** The unlock frontier shown by the menu; 1 when no progress is stored. */
  function UnlockedLevel(stored: Option<int>): (unlocked: int)
    ensures stored.None? ==> unlocked == 1
    ensures stored.Some? ==> unlocked == stored.value
  {
    stored.GetOr(1)
  }

  /** The level list `1, 2, ..., 20`. */
  function Levels(): (levels: seq<int>)
    ensures |levels| == 20
    ensures forall i :: 0 <= i < 20 ==> levels[i] == i + 1
  {
    seq(20, i => i + 1)
  }

  /** The levels on the list are exactly 1..20, each once and in increasing order. */
  lemma LevelsAreOneToTwenty()
    ensures forall n :: n in Levels() <==> 1 <= n <= 20
    ensures forall i, j :: 0 <= i < j < 20 ==> Levels()[i] < Levels()[j]
  {
    forall n | 1 <= n <= 20 ensures n in Levels() {
      assert Levels()[n - 1] == n;
    }
  }

  /** A button is drawn unlocked exactly when its level is at most the frontier. */
  predicate IsUnlocked(level: int, unlocked: int)
    ensures level == 1 && unlocked >= 1 ==> IsUnlocked(level, unlocked)
  {
    level <= unlocked
  }

  /** `goToLevel`: the level parameter the router is sent to, or `None` when nothing happens. */
  function GoToLevel(level: int, unlocked: int): (target: Option<int>)
    ensures target.Some? <==> IsUnlocked(level, unlocked)
    ensures target.Some? ==> target.value == level
  {
    if level <= unlocked then Some(level) else None
  }

  /**
   * Solving the frontier level (below 20) opens the next one in the menu,
   * levels that were open stay open, and no level past 20 ever opens.
   */
  lemma SolvingFrontierUnlocksNext(level: int, stored: Option<int>)
    requires 1 <= UnlockedLevel(stored) <= 20
    ensures var after := UnlockedLevel(SudokuLevel.AdvanceProgress(level, stored));
      && (level == UnlockedLevel(stored) && level < 20 ==> GoToLevel(level + 1, after) == Some(level + 1))
      && (forall n :: IsUnlocked(n, UnlockedLevel(stored)) ==> IsUnlocked(n, after))
      && !IsUnlocked(21, after)
  {
    SudokuLevel.AdvanceKeepsFrontierInRange(level, stored);
  }
}
