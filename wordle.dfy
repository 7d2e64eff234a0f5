/**
 * The word-guessing game: a five-letter target, up to six guesses typed on an
 * on-screen keyboard, per-letter feedback, a list of eliminated letters, XP
 * and hints.
 */
module Wordle {
  import opened Wrappers

  const WordList: seq<string> := ["apple", "grape", "peach", "lemon", "melon"]
  const MaxGuesses: int := 6
  const WordLength: int := 5

  /** XP for starting a new game and for a win. */
  const NewGameReward: int := 10
  const WinReward: int := 50

  /** Hints a player starts with when none are stored. */
  const DefaultHints: int := 3

  /** The two non-letter keys of the keyboard. */
  const Backspace: char := '⌫'
  const Enter: char := '↵'

  // ---------------------------------------------------------------------
  // Letter case (ASCII letters; other characters are left as they are)
  // ---------------------------------------------------------------------

  predicate IsUpperLetter(ch: char) {
    'A' <= ch <= 'Z'
  }

  predicate IsLowerLetter(ch: char) {
    'a' <= ch <= 'z'
  }

  function ToLowerChar(ch: char): (r: char)
    ensures IsUpperLetter(ch) ==> IsLowerLetter(r) && r as int - ch as int == 32
    ensures !IsUpperLetter(ch) ==> r == ch
  {
    if IsUpperLetter(ch) then (ch as int + 32) as char else ch
  }

  function ToUpperChar(ch: char): (r: char)
    ensures IsLowerLetter(ch) ==> IsUpperLetter(r) && ch as int - r as int == 32
    ensures !IsLowerLetter(ch) ==> r == ch
  {
    if IsLowerLetter(ch) then (ch as int - 32) as char else ch
  }

  /** `toLowerCase()`: every upper-case letter replaced by its lower-case one. */
  function ToLower(s: string): (r: string)
    ensures |r| == |s|
    ensures forall i :: 0 <= i < |s| ==> r[i] == ToLowerChar(s[i])
  {
    seq(|s|, i requires 0 <= i < |s| => ToLowerChar(s[i]))
  }

  predicate HasNoUpper(s: string) {
    forall i :: 0 <= i < |s| ==> !IsUpperLetter(s[i])
  }

  /** Lower-casing leaves no upper-case letter, and changes nothing that has none. */
  lemma ToLowerNormalises(s: string)
    ensures HasNoUpper(ToLower(s))
    ensures HasNoUpper(s) ==> ToLower(s) == s
    ensures ToLower(ToLower(s)) == ToLower(s)
  {
  }

  /** Every word of the list has five lower-case letters. */
  lemma WordListWellFormed()
    ensures forall k :: 0 <= k < |WordList| ==>
      |WordList[k]| == WordLength && forall i :: 0 <= i < WordLength ==> IsLowerLetter(WordList[k][i])
  {
  }

  /** The target drawn for word `pick`: `WORD_LIST[pick].toLowerCase()`, which is the word itself. */
  function TargetFor(pick: int): (target: string)
    requires 0 <= pick < |WordList|
    ensures target == WordList[pick]
    ensures |target| == WordLength
  {
    WordListWellFormed();
    ToLowerNormalises(WordList[pick]);
    ToLower(WordList[pick])
  }

  // ---------------------------------------------------------------------
  // Feedback
  // ---------------------------------------------------------------------

  datatype LetterFeedback = Exact | Present | Absent

  /**
   * The colour given to each letter of `guess`: the target's letter at that
   * position, a letter the target has elsewhere, or neither. Repeated letters
   * are not counted against the target's occurrences.
   */
  function Feedback(guess: string, target: string): (marks: seq<LetterFeedback>)
    ensures |marks| == |guess|
    ensures forall i :: 0 <= i < |guess| ==>
      && (marks[i] == Exact <==> i < |target| && guess[i] == target[i])
      && (marks[i] == Present <==> !(i < |target| && guess[i] == target[i]) && guess[i] in target)
      && (marks[i] == Absent <==> guess[i] !in target)
  {
    seq(|guess|, i requires 0 <= i < |guess| =>
      if i < |target| && guess[i] == target[i] then Exact
      else if guess[i] in target then Present
      else Absent)
  }

  /** A guess of the target's length is all green exactly when it is the target. */
  lemma AllExactIffCorrect(guess: string, target: string)
    requires |guess| == |target|
    ensures (forall i :: 0 <= i < |guess| ==> Feedback(guess, target)[i] == Exact) <==> guess == target
  {
    if forall i :: 0 <= i < |guess| ==> Feedback(guess, target)[i] == Exact {
      forall i | 0 <= i < |guess| ensures guess[i] == target[i] {
        assert Feedback(guess, target)[i] == Exact;
      }
    }
  }

  /** Duplicates are not matched against counts: "eeeee" against "melon" shows one green and four yellow. */
  lemma RepeatedLetterAllMarked()
    ensures Feedback("eeeee", "melon") == [Present, Exact, Present, Present, Present]
  {
    assert "melon"[1] == 'e';
  }

  // ---------------------------------------------------------------------
  // Eliminated letters and hints
  // ---------------------------------------------------------------------

  /**
   * `notInWord`: the letters of the guess, in order and with repetitions,
   * that are neither in the target nor already eliminated before this guess.
   */
  function NotInWord(guess: string, target: string, eliminated: seq<char>): (r: seq<char>)
    ensures |r| <= |guess|
    ensures forall ch :: ch in r <==> ch in guess && ch !in target && ch !in eliminated
  {
    if guess == [] then []
    else
      var rest := NotInWord(guess[1..], target, eliminated);
      if guess[0] !in target && guess[0] !in eliminated then [guess[0]] + rest else rest
  }

  /** A new absent letter is added once for every time it occurs in the guess. */
  lemma {:induction false} NotInWordKeepsRepeats(guess: string, target: string, eliminated: seq<char>, ch: char)
    requires ch !in target && ch !in eliminated
    ensures multiset(NotInWord(guess, target, eliminated))[ch] == multiset(guess)[ch]
  {
    if guess != [] {
      NotInWordKeepsRepeats(guess[1..], target, eliminated, ch);
      assert guess == [guess[0]] + guess[1..];
    }
  }

  /** Whether some guess has `letter` at position i. */
  predicate Revealed(guesses: seq<string>, i: int, letter: char) {
    exists g :: g in guesses && 0 <= i < |g| && g[i] == letter
  }

  /** `unrevealedIndices`: the target positions no guess has matched. */
  function Unrevealed(target: string, guesses: seq<string>): (r: seq<int>)
    ensures forall i :: i in r <==> 0 <= i < |target| && !Revealed(guesses, i, target[i])
  {
    UnrevealedFrom(target, guesses, 0)
  }

  function UnrevealedFrom(target: string, guesses: seq<string>, start: nat): (r: seq<int>)
    ensures forall i :: i in r <==> start <= i < |target| && !Revealed(guesses, i, target[i])
    decreases |target| - start
  {
    if start >= |target| then []
    else
      var rest := UnrevealedFrom(target, guesses, start + 1);
      if Revealed(guesses, start, target[start]) then rest else [start] + rest
  }

  /** Once the target itself has been guessed, nothing is left to hint. */
  lemma CorrectGuessRevealsAll(target: string, guesses: seq<string>)
    requires target in guesses
    ensures Unrevealed(target, guesses) == []
  {
    forall i | 0 <= i < |target| ensures Revealed(guesses, i, target[i]) {
      assert target[i] == target[i];
    }
    AllRevealedFrom(target, guesses, 0);
  }

  lemma {:induction false} AllRevealedFrom(target: string, guesses: seq<string>, start: nat)
    requires forall i :: start <= i < |target| ==> Revealed(guesses, i, target[i])
    ensures UnrevealedFrom(target, guesses, start) == []
    decreases |target| - start
  {
    if start < |target| {
      AllRevealedFrom(target, guesses, start + 1);
    }
  }

  /** Another guess never brings back a position already revealed. */
  lemma GuessingShrinksUnrevealed(target: string, guesses: seq<string>, guess: string)
    ensures forall i :: i in Unrevealed(target, guesses + [guess]) ==> i in Unrevealed(target, guesses)
  {
    assert forall g :: g in guesses ==> g in guesses + [guess];
  }

  /**
   * `unrevealedIndices[Math.floor(Math.random() * unrevealedIndices.length)]`:
   * some unrevealed position, the choice left open; none when all are revealed.
   */
  method PickUnrevealed(target: string, guesses: seq<string>) returns (index: Option<int>)
    ensures index.None? <==> Unrevealed(target, guesses) == []
    ensures index.Some? ==> index.value in Unrevealed(target, guesses)
  {
    var unrevealed := Unrevealed(target, guesses);
    if |unrevealed| == 0 {
      return None;
    }
    var k :| 0 <= k < |unrevealed|;
    return Some(unrevealed[k]);
  }

  /** The message shown under the keyboard after asking for a hint. */
  datatype HintNote =
    | NoHintsLeft
    | AllRevealed
      /** Letter `position` (counting from 1) of the target is `letter`, with `left` hints remaining. */
    | Reveal(left: int, position: int, letter: char)

  // ---------------------------------------------------------------------
  // The game session
  // ---------------------------------------------------------------------

  class WordleGame {
    var targetWord: string
    var guesses: seq<string>
    var currentGuess: string
    var gameOver: bool
    var eliminatedLetters: seq<char>
    var xp: int
    var hint: Option<HintNote>
    /** `None` until the stored count is loaded. */
    var hintCount: Option<int>

    ghost predicate Valid()
      reads this
    {
      && targetWord in WordList
      && |currentGuess| <= WordLength
      && |guesses| <= MaxGuesses
      && (!gameOver ==> |guesses| < MaxGuesses && targetWord !in guesses)
      && (forall ch :: ch in eliminatedLetters ==> ch !in targetWord)
    }

    /** The first render: a target drawn from the list, nothing loaded yet. */
    constructor (pick: int)
      requires 0 <= pick < |WordList|
      ensures Valid()
      ensures targetWord == TargetFor(pick)
      ensures guesses == [] && currentGuess == [] && !gameOver && eliminatedLetters == []
      ensures xp == 0 && hint == None && hintCount == None
    {
      targetWord := TargetFor(pick);
      guesses := [];
      currentGuess := [];
      gameOver := false;
      eliminatedLetters := [];
      xp := 0;
      hint := None;
      hintCount := None;
    }

    /** `loadData`: stored XP when there is some, stored hints or 3. */
    method LoadData(savedXp: Option<int>, savedHints: Option<int>)
      requires Valid()
      modifies this`xp, this`hintCount
      ensures Valid()
      ensures xp == savedXp.GetOr(old(xp))
      ensures hintCount == Some(savedHints.GetOr(DefaultHints))
    {
      if savedXp.Some? {
        xp := savedXp.value;
      }
      hintCount := Some(savedHints.GetOr(DefaultHints));
    }

    /** `addXP(amount)`. */
    method AddXp(amount: int)
      modifies this`xp
      ensures xp == old(xp) + amount
    {
      xp := xp + amount;
    }

    /** `resetGame`: a new target from the list, an empty board, and 10 XP. */
    method ResetGame(pick: int)
      requires 0 <= pick < |WordList|
      requires Valid()
      modifies this
      ensures Valid()
      ensures targetWord == TargetFor(pick)
      ensures guesses == [] && currentGuess == [] && !gameOver && eliminatedLetters == []
      ensures hint == None
      ensures xp == old(xp) + NewGameReward
      ensures hintCount == old(hintCount)
    {
      targetWord := TargetFor(pick);
      guesses := [];
      currentGuess := [];
      gameOver := false;
      eliminatedLetters := [];
      hint := None;
      AddXp(NewGameReward);
    }

    /**
     * `handleGuess`, reached only through the Enter key while the game is on:
     * a guess of the wrong length is rejected; otherwise the lower-cased guess
     * is appended, the buffer is emptied, its new absent letters are
     * eliminated, and the game ends on a win (+50 XP) or on the sixth guess.
     */
    method HandleGuess()
      requires Valid() && !gameOver
      modifies this
      ensures Valid()
      ensures targetWord == old(targetWord) && hintCount == old(hintCount) && hint == old(hint)
      ensures |old(currentGuess)| != WordLength ==>
        (guesses == old(guesses) && currentGuess == old(currentGuess) && !gameOver
         && eliminatedLetters == old(eliminatedLetters) && xp == old(xp))
      ensures |old(currentGuess)| == WordLength ==>
        var guess := ToLower(old(currentGuess));
        && guesses == old(guesses) + [guess]
        && currentGuess == []
        && eliminatedLetters == old(eliminatedLetters) + NotInWord(guess, targetWord, old(eliminatedLetters))
        && (guess == targetWord ==> gameOver && xp == old(xp) + WinReward)
        && (guess != targetWord ==> xp == old(xp) && (gameOver <==> |guesses| == MaxGuesses))
    {
      if |currentGuess| != WordLength {
        return;
      }
      var guessLower := ToLower(currentGuess);
      guesses := guesses + [guessLower];
      currentGuess := [];
      eliminatedLetters := eliminatedLetters + NotInWord(guessLower, targetWord, eliminatedLetters);
      if guessLower == targetWord {
        AddXp(WinReward);
        gameOver := true;
      } else if |guesses| == MaxGuesses {
        gameOver := true;
      }
    }

    /**
     * `handleKeyPress(key)`: ignored once the game is over; Backspace drops
     * the last letter, Enter submits, and any other key is appended
     * lower-cased while the buffer holds fewer than five letters.
     */
    method HandleKeyPress(key: char)
      requires Valid()
      modifies this
      ensures Valid()
      ensures old(gameOver) ==>
        (guesses == old(guesses) && currentGuess == old(currentGuess) && gameOver
         && eliminatedLetters == old(eliminatedLetters) && xp == old(xp))
      ensures !old(gameOver) && key == Backspace ==>
        (guesses == old(guesses) && !gameOver && xp == old(xp) && eliminatedLetters == old(eliminatedLetters)
         && currentGuess == if old(currentGuess) == [] then [] else old(currentGuess)[..|old(currentGuess)| - 1])
      ensures !old(gameOver) && key == Enter && |old(currentGuess)| == WordLength ==>
        var guess := ToLower(old(currentGuess));
        && guesses == old(guesses) + [guess]
        && currentGuess == []
        && eliminatedLetters == old(eliminatedLetters) + NotInWord(guess, targetWord, old(eliminatedLetters))
        && (guess == targetWord ==> gameOver && xp == old(xp) + WinReward)
        && (guess != targetWord ==> xp == old(xp) && (gameOver <==> |guesses| == MaxGuesses))
      ensures !old(gameOver) && key == Enter && |old(currentGuess)| != WordLength ==>
        (guesses == old(guesses) && currentGuess == old(currentGuess) && !gameOver
         && eliminatedLetters == old(eliminatedLetters) && xp == old(xp))
      ensures !old(gameOver) && key != Backspace && key != Enter ==>
        (guesses == old(guesses) && !gameOver && xp == old(xp) && eliminatedLetters == old(eliminatedLetters)
         && currentGuess == if |old(currentGuess)| < WordLength then old(currentGuess) + [ToLowerChar(key)]
                            else old(currentGuess))
      ensures targetWord == old(targetWord) && hintCount == old(hintCount) && hint == old(hint)
    {
      if gameOver {
        return;
      }
      if key == Backspace {
        if currentGuess != [] {
          currentGuess := currentGuess[..|currentGuess| - 1];
        }
      } else if key == Enter {
        HandleGuess();
      } else if |currentGuess| < WordLength {
        currentGuess := currentGuess + [ToLowerChar(key)];
      }
    }

    /**
     * `getHint`: nothing before the count is loaded; a refusal with no hints
     * left or nothing unrevealed; otherwise one hint is spent and some
     * unrevealed position (returned as `shown`, counting from 0) is shown
     * with its letter in upper case.
     */
    method GetHint() returns (shown: Option<int>)
      requires Valid()
      modifies this`hint, this`hintCount
      ensures Valid()
      ensures shown.Some? <==>
        old(hintCount).Some? && old(hintCount).value > 0 && Unrevealed(targetWord, guesses) != []
      ensures old(hintCount).None? ==> hint == old(hint) && hintCount == None
      ensures old(hintCount).Some? && old(hintCount).value <= 0 ==>
        hint == Some(NoHintsLeft) && hintCount == old(hintCount)
      ensures old(hintCount).Some? && old(hintCount).value > 0 && Unrevealed(targetWord, guesses) == [] ==>
        hint == Some(AllRevealed) && hintCount == old(hintCount)
      ensures shown.Some? ==> shown.value in Unrevealed(targetWord, guesses)
      ensures shown.Some? ==> hintCount.Some? && hintCount.value == old(hintCount).value - 1
      ensures shown.Some? ==> hint.Some? && hint.value.Reveal?
      ensures shown.Some? ==> hint.value.left == old(hintCount).value - 1
      ensures shown.Some? ==> hint.value.position == shown.value + 1
      ensures shown.Some? ==> hint.value.letter == ToUpperChar(targetWord[shown.value])
    {
      if hintCount.None? {
        return None;
      }
      if hintCount.value <= 0 {
        hint := Some(NoHintsLeft);
        return None;
      }
      var pick := PickUnrevealed(targetWord, guesses);
      if pick.None? {
        hint := Some(AllRevealed);
        return None;
      }
      var index := pick.value;
      var updatedCount := hintCount.value - 1;
      hintCount := Some(updatedCount);
      var letter := ToUpperChar(targetWord[index]);
      hint := Some(Reveal(updatedCount, index + 1, letter));
      shown := Some(index);
    }
  }
}
