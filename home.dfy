/** The home screen: level and mana earned from XP, and the mood check-in. */
module Home {

  const XpPerLevel: int := 100

  /** `Math.floor(xp / xpPerLevel) + 1`. */
  function TargetLevel(xp: int): (level: int)
    ensures XpPerLevel * (level - 1) <= xp < XpPerLevel * level
  {
    xp / 100 + 1
  }

  /** Level and mana as the home screen holds them. */
  datatype Progress = Progress(xp: int, level: int, mana: int)

  /**
   * The effect that runs when `xp` changes: the level only ever rises to the
   * target level, and each level gained adds one mana.
   */
  function LevelUp(p: Progress): (q: Progress)
    ensures q.xp == p.xp
    ensures q.level == if TargetLevel(p.xp) > p.level then TargetLevel(p.xp) else p.level
    ensures q.mana - q.level == p.mana - p.level
  {
    var newLevel := TargetLevel(p.xp);
    if newLevel > p.level then
      var levelDiff := newLevel - p.level;
      p.(level := newLevel, mana := p.mana + levelDiff)
    else p
  }

  /** The level never drops, and once the effect has run it has nothing more to do. */
  lemma LevelUpMonotoneAndIdempotent(p: Progress)
    ensures LevelUp(p).level >= p.level && LevelUp(p).mana >= p.mana
    ensures LevelUp(p).level >= TargetLevel(p.xp)
    ensures LevelUp(LevelUp(p)) == LevelUp(p)
  {
  }

  /** More XP never gives a lower level. */
  lemma TargetLevelMonotone(xp1: int, xp2: int)
    requires xp1 <= xp2
    ensures TargetLevel(xp1) <= TargetLevel(xp2)
  {
  }

  /** From the first render (level 1), mana gained is exactly the levels gained. */
  lemma ManaTracksLevels(xp: int, mana: int)
    requires xp >= 0
    ensures LevelUp(Progress(xp, 1, mana)).mana == mana + xp / 100
  {
  }

  /**
   * `xp % xpPerLevel`, the XP shown inside the current level. JavaScript's
   * `%` gives the remainder the sign of the dividend.
   */
  function InLevelXp(xp: int): (r: int)
    ensures xp >= 0 ==> 0 <= r < XpPerLevel
    ensures xp < 0 ==> -XpPerLevel < r <= 0
    ensures (xp - r) % XpPerLevel == 0
  {
    if xp >= 0 then xp % 100 else -((-xp) % 100)
  }

  /** For non-negative XP the shown value is what the level has not consumed. */
  lemma InLevelXpIsRemainder(xp: int)
    requires xp >= 0
    ensures 0 <= InLevelXp(xp) < XpPerLevel
    ensures xp == XpPerLevel * (TargetLevel(xp) - 1) + InLevelXp(xp)
  {
  }

  const GreatMessage: string := "That's awesome! Keep the good vibes going!"
  const OkayMessage: string := "Totally okay to feel that way. Keep taking care of yourself."
  const BadMessage: string := "Sending love 💙 Try journaling or doing something relaxing."

  /**
   * `handleMoodResponse(mood)`: the message shown for the answer, and whether
   * the check-in dialog stays open (it never does). The message table is a
   * fixed constant, so the contract is that table, one answer per clause.
   */
  function HandleMoodResponse(mood: string): (r: (string, bool))
    ensures !r.1
    ensures mood == "great" ==> r.0 == GreatMessage
    ensures mood == "okay" ==> r.0 == OkayMessage
    ensures mood == "bad" ==> r.0 == BadMessage
    ensures mood !in {"great", "okay", "bad"} ==> r.0 == ""
  {
    var message :=
      if mood == "great" then GreatMessage
      else if mood == "okay" then OkayMessage
      else if mood == "bad" then BadMessage
      else "";
    (message, false)
  }

  /** The three answers get three different, non-empty messages; anything else gets none. */
  lemma MoodMessagesDistinct(mood: string)
    ensures mood !in {"great", "okay", "bad"} ==> HandleMoodResponse(mood).0 == ""
    ensures mood in {"great", "okay", "bad"} ==> HandleMoodResponse(mood).0 != ""
    ensures GreatMessage != OkayMessage && OkayMessage != BadMessage && GreatMessage != BadMessage
  {
  }
}
