/**
 * The memory-match game: sixteen face-down cards, eight emojis twice each,
 * turned over two at a time; equal pairs stay up, unequal ones are turned
 * back after a pause; hints turn up a pair.
 */
module Memory {
  import opened Wrappers
  import opened Collections

  const Emojis: seq<string> := ["🐶", "🐱", "🦊", "🐻", "🐼", "🐸", "🐵", "🦁"]

  /** `[...EMOJIS, ...EMOJIS]`, the deck before shuffling. */
  const Pairs: seq<string> := Emojis + Emojis

  const DeckSize: int := 16

  /** XP for turning up every pair. */
  const WinReward: int := 50

  /** Hints a player starts with when none are stored. */
  const DefaultHints: int := 3

  datatype Card = Card(id: int, emoji: string, flipped: bool, matched: bool)

  /** Each emoji of the deck occurs exactly twice, and nothing else does. */
  lemma PairsCount(e: string)
    ensures multiset(Pairs)[e] == if e in Emojis then 2 else 0
  {
    EmojisDistinct();
    DistinctMultiplicity(Emojis, e);
    assert multiset(Pairs) == multiset(Emojis) + multiset(Emojis);
  }

  lemma EmojisDistinct()
    ensures AllDistinct(Emojis)
  {
  }

  // ---------------------------------------------------------------------
  // The Fisher-Yates shuffle
  // ---------------------------------------------------------------------

  /** `[copy[i], copy[j]] = [copy[j], copy[i]]`. */
  function Swap<T>(s: seq<T>, i: int, j: int): (r: seq<T>)
    requires 0 <= i < |s| && 0 <= j < |s|
    ensures |r| == |s| && r[i] == s[j] && r[j] == s[i]
    ensures forall k :: 0 <= k < |s| && k != i && k != j ==> r[k] == s[k]
  {
    s[i := s[j]][j := s[i]]
  }

  /** The random draws are usable: `draws[i]` lies in `0..i` for every step `i`. */
  predicate AreDraws(draws: seq<int>, n: int) {
    |draws| == n && forall i :: 0 < i < n ==> 0 <= draws[i] <= i
  }

  /** The swaps for steps `i, i-1, ..., 1`, each exchanging position `i` with `draws[i]`. */
  function SwapsDown<T>(s: seq<T>, draws: seq<int>, i: int): (r: seq<T>)
    requires AreDraws(draws, |s|) && i < |s|
    ensures |r| == |s|
    decreases i
  {
    if i <= 0 then s else SwapsDown(Swap(s, i, draws[i]), draws, i - 1)
  }

  /** `shuffleArray` with its random draws given. */
  function FisherYates<T>(s: seq<T>, draws: seq<int>): (r: seq<T>)
    requires AreDraws(draws, |s|)
    ensures |r| == |s|
  {
    SwapsDown(s, draws, |s| - 1)
  }

  /** Every sequence of swaps keeps the same elements, each as often. */
  lemma {:induction false} SwapsDownPermutes<T>(s: seq<T>, draws: seq<int>, i: int)
    requires AreDraws(draws, |s|) && i < |s|
    ensures IsPermutationOf(SwapsDown(s, draws, i), s)
    decreases i
  {
    if i > 0 {
      var t := Swap(s, i, draws[i]);
      SwapsDownPermutes(t, draws, i - 1);
      assert multiset(t) == multiset(s);
    }
  }

  /** The shuffle is a permutation of its input. */
  lemma FisherYatesPermutes<T>(s: seq<T>, draws: seq<int>)
    requires AreDraws(draws, |s|)
    ensures |FisherYates(s, draws)| == |s|
    ensures IsPermutationOf(FisherYates(s, draws), s)
  {
    SwapsDownPermutes(s, draws, |s| - 1);
  }

  /**
   * `shuffleArray(array)`: copy the input, then swap each position `i`, from
   * the last down to 1, with a position `j` in `0..i`. The input is a value
   * and so is left as it was.
   */
  method ShuffleArray<T>(input: seq<T>, draws: seq<int>) returns (result: seq<T>)
    requires AreDraws(draws, |input|)
    ensures result == FisherYates(input, draws)
    ensures |result| == |input| && IsPermutationOf(result, input)
  {
    var copy := new T[|input|](k requires 0 <= k < |input| => input[k]);
    assert copy[..] == input;
    var i := copy.Length - 1;
    while i > 0
      invariant -1 <= i < copy.Length
      invariant i == -1 ==> |input| == 0
      invariant SwapsDown(copy[..], draws, i) == FisherYates(input, draws)
    {
      var j := draws[i];
      ghost var before := copy[..];
      copy[i], copy[j] := copy[j], copy[i];
      assert copy[..] == Swap(before, i, j);
      i := i - 1;
    }
    result := copy[..];
    FisherYatesPermutes(input, draws);
  }

  // ---------------------------------------------------------------------
  // Hint pairing
  // ---------------------------------------------------------------------

  /** A card that is neither face up nor matched. */
  predicate Hidden(c: Card) {
    !c.flipped && !c.matched
  }

  /** `cards.filter(card => !card.matched && !card.flipped)`. */
  function Unmatched(cards: seq<Card>): (u: seq<Card>)
    ensures |u| <= |cards|
  {
    if cards == [] then []
    else
      var last := cards[|cards| - 1];
      Unmatched(cards[..|cards| - 1]) + (if Hidden(last) then [last] else [])
  }

  /** `seen[e]` once the `forEach` has visited `u`: the ids of the cards showing e, in order. */
  function IdsOf(u: seq<Card>, e: string): (ids: seq<int>)
    ensures |ids| <= |u|
  {
    if u == [] then []
    else
      var last := u[|u| - 1];
      IdsOf(u[..|u| - 1], e) + (if last.emoji == e then [last.id] else [])
  }

  /** The keys of `seen` in insertion order: the emojis of `u` by first occurrence. */
  function FirstSeen(u: seq<Card>): (keys: seq<string>)
    ensures AllDistinct(keys)
    ensures forall e :: e in keys <==> IdsOf(u, e) != []
  {
    if u == [] then []
    else
      var keys := FirstSeen(u[..|u| - 1]);
      var last := u[|u| - 1];
      if last.emoji in keys then keys else keys + [last.emoji]
  }

  /** `Object.values(seen).find(ids => ids.length === 2)`, over the given keys. */
  function FirstPairIn(u: seq<Card>, keys: seq<string>): (pair: Option<(int, int)>)
    ensures pair.None? <==> forall k :: 0 <= k < |keys| ==> |IdsOf(u, keys[k])| != 2
    ensures pair.Some? ==> exists k :: (0 <= k < |keys| && IdsOf(u, keys[k]) == [pair.value.0, pair.value.1] &&
      forall l :: 0 <= l < k ==> |IdsOf(u, keys[l])| != 2)
  {
    if keys == [] then None
    else if |IdsOf(u, keys[0])| == 2 then Some((IdsOf(u, keys[0])[0], IdsOf(u, keys[0])[1]))
    else
      var rest := FirstPairIn(u, keys[1..]);
      assert forall k :: 1 <= k < |keys| ==> keys[1..][k - 1] == keys[k];
      rest
  }

  /** The pair `useHint` turns up, if any. */
  function HintPair(cards: seq<Card>): (pair: Option<(int, int)>)
    ensures pair.Some? ==> |Unmatched(cards)| >= 2
  {
    FirstPairIn(Unmatched(cards), FirstSeen(Unmatched(cards)))
  }

  /** Filtering then collecting ids, one card at a time from the end. */
  lemma HiddenIdsStep(cards: seq<Card>, e: string)
    requires cards != []
    ensures var n := |cards| - 1;
      IdsOf(Unmatched(cards), e) == IdsOf(Unmatched(cards[..n]), e) +
        (if Hidden(cards[n]) && cards[n].emoji == e then [cards[n].id] else [])
  {
    var n := |cards| - 1;
    var u := Unmatched(cards[..n]);
    if Hidden(cards[n]) {
      assert Unmatched(cards) == u + [cards[n]];
      assert (u + [cards[n]])[..|u|] == u;
      assert IdsOf(u + [cards[n]], e) == IdsOf(u, e) + (if cards[n].emoji == e then [cards[n].id] else []);
    } else {
      assert Unmatched(cards) == u;
    }
  }

  /** The ids of the hidden cards showing `e` come from hidden cards at increasing positions. */
  lemma {:induction false} HiddenPositions(cards: seq<Card>, e: string) returns (pos: seq<int>)
    ensures |pos| == |IdsOf(Unmatched(cards), e)|
    ensures forall k :: 0 <= k < |pos| ==>
      && 0 <= pos[k] < |cards| && Hidden(cards[pos[k]]) && cards[pos[k]].emoji == e
      && cards[pos[k]].id == IdsOf(Unmatched(cards), e)[k]
    ensures forall k, l :: 0 <= k < l < |pos| ==> pos[k] < pos[l]
  {
    if cards == [] {
      return [];
    }
    var n := |cards| - 1;
    var prefix := cards[..n];
    var p := HiddenPositions(prefix, e);
    var ids := IdsOf(Unmatched(cards), e);
    var pids := IdsOf(Unmatched(prefix), e);
    HiddenIdsStep(cards, e);
    var last := Hidden(cards[n]) && cards[n].emoji == e;
    assert ids == pids + (if last then [cards[n].id] else []);
    pos := if last then p + [n] else p;
    forall k | 0 <= k < |pos|
      ensures 0 <= pos[k] < |cards| && Hidden(cards[pos[k]]) && cards[pos[k]].emoji == e
      ensures cards[pos[k]].id == ids[k]
    {
      if k < |p| {
        assert pos[k] == p[k] && prefix[p[k]] == cards[p[k]] && ids[k] == pids[k];
      }
    }
  }

  /** There are never more hidden cards showing `e` than cards showing `e`. */
  lemma {:induction false} HiddenAtMostDeck(cards: seq<Card>, e: string)
    ensures |IdsOf(Unmatched(cards), e)| <= multiset(EmojiSeq(cards))[e]
  {
    if cards != [] {
      var n := |cards| - 1;
      HiddenAtMostDeck(cards[..n], e);
      HiddenIdsStep(cards, e);
      assert EmojiSeq(cards) == EmojiSeq(cards[..n]) + [cards[n].emoji];
    }
  }

  /** A hidden card at position i is one of the hidden cards showing its emoji. */
  lemma {:induction false} HiddenAtLeastOne(cards: seq<Card>, i: int)
    requires 0 <= i < |cards| && Hidden(cards[i])
    ensures |IdsOf(Unmatched(cards), cards[i].emoji)| >= 1
  {
    var n := |cards| - 1;
    HiddenIdsStep(cards, cards[i].emoji);
    if i < n {
      assert cards[..n][i] == cards[i];
      HiddenAtLeastOne(cards[..n], i);
    }
  }

  /** Two hidden cards showing the same emoji make it two hidden ids or more. */
  lemma {:induction false} HiddenAtLeastTwo(cards: seq<Card>, i: int, j: int)
    requires 0 <= i < j < |cards| && Hidden(cards[i]) && Hidden(cards[j])
    requires cards[i].emoji == cards[j].emoji
    ensures |IdsOf(Unmatched(cards), cards[i].emoji)| >= 2
  {
    var n := |cards| - 1;
    HiddenIdsStep(cards, cards[i].emoji);
    assert cards[..n][i] == cards[i];
    if j < n {
      assert cards[..n][j] == cards[j];
      HiddenAtLeastTwo(cards[..n], i, j);
    } else {
      HiddenAtLeastOne(cards[..n], i);
    }
  }

  /** A hint pair is two hidden cards, in deck order, showing the same emoji. */
  lemma HintPairSound(cards: seq<Card>)
    requires HintPair(cards).Some?
    ensures exists i, j :: (0 <= i < j < |cards| && Hidden(cards[i]) && Hidden(cards[j]) &&
      cards[i].emoji == cards[j].emoji &&
      cards[i].id == HintPair(cards).value.0 && cards[j].id == HintPair(cards).value.1)
  {
    var u := Unmatched(cards);
    var keys := FirstSeen(u);
    var k :| 0 <= k < |keys| && IdsOf(u, keys[k]) == [HintPair(cards).value.0, HintPair(cards).value.1];
    var pos := HiddenPositions(cards, keys[k]);
    assert 0 <= pos[0] < pos[1] < |cards|;
  }

  /**
   * In a deck where no emoji occurs more than twice, a hint is found exactly
   * when two hidden cards show the same emoji.
   */
  lemma HintPairComplete(cards: seq<Card>)
    requires forall e :: multiset(EmojiSeq(cards))[e] <= 2
    ensures HintPair(cards).None? <==>
      !exists i, j :: 0 <= i < j < |cards| && Hidden(cards[i]) && Hidden(cards[j])
        && cards[i].emoji == cards[j].emoji
  {
    if HintPair(cards).Some? {
      HintPairSound(cards);
    }
    if exists i, j :: 0 <= i < j < |cards| && Hidden(cards[i]) && Hidden(cards[j])
        && cards[i].emoji == cards[j].emoji {
      var i, j :| 0 <= i < j < |cards| && Hidden(cards[i]) && Hidden(cards[j])
        && cards[i].emoji == cards[j].emoji;
      var e := cards[i].emoji;
      var u := Unmatched(cards);
      HiddenAtLeastTwo(cards, i, j);
      HiddenAtMostDeck(cards, e);
      assert e in FirstSeen(u);
      var k :| 0 <= k < |FirstSeen(u)| && FirstSeen(u)[k] == e;
      assert |IdsOf(u, FirstSeen(u)[k])| == 2;
    }
  }

  /**
   * The `forEach` that fills `seen` with the ids of the cards of `unmatched`
   * per emoji. The keys' insertion order, which `Object.values` follows, is
   * returned as `keys`.
   */
  method CollectSeen(unmatched: seq<Card>) returns (seen: map<string, seq<int>>, keys: seq<string>)
    ensures keys == FirstSeen(unmatched)
    ensures forall e :: e in seen <==> e in keys
    ensures forall e :: e in seen ==> seen[e] == IdsOf(unmatched, e)
  {
    seen := map[];
    keys := [];
    for k := 0 to |unmatched|
      invariant keys == FirstSeen(unmatched[..k])
      invariant forall e :: e in seen <==> e in keys
      invariant forall e :: e in seen ==> seen[e] == IdsOf(unmatched[..k], e)
    {
      var card := unmatched[k];
      SeenKeysStep(unmatched, k, seen, keys);
      SeenIdsStep(unmatched, k, seen, keys);
      if card.emoji !in seen {
        seen := seen[card.emoji := []];
        keys := keys + [card.emoji];
      }
      seen := seen[card.emoji := seen[card.emoji] + [card.id]];
    }
    assert unmatched[..|unmatched|] == unmatched;
  }

  /** One visit of the `forEach`: recording card k keeps the keys of `seen` in step with the prefix. */
  lemma SeenKeysStep(u: seq<Card>, k: int, seen: map<string, seq<int>>, keys: seq<string>)
    requires 0 <= k < |u|
    requires keys == FirstSeen(u[..k])
    requires forall e :: e in seen <==> e in keys
    ensures var e := u[k].emoji;
      && (if e in seen then keys else keys + [e]) == FirstSeen(u[..k + 1])
      && (forall x :: x in seen[e := []] <==> x in keys + [e])
  {
    FirstSeenStep(u, k);
  }

  /** One visit of the `forEach`: recording card k keeps the ids in `seen` in step with the prefix. */
  lemma SeenIdsStep(u: seq<Card>, k: int, seen: map<string, seq<int>>, keys: seq<string>)
    requires 0 <= k < |u|
    requires keys == FirstSeen(u[..k])
    requires forall e :: e in seen <==> e in keys
    requires forall e :: e in seen ==> seen[e] == IdsOf(u[..k], e)
    ensures var e := u[k].emoji;
      var seen' := seen[e := (if e in seen then seen[e] else []) + [u[k].id]];
      forall x :: x in seen' ==> seen'[x] == IdsOf(u[..k + 1], x)
  {
    var e := u[k].emoji;
    var seen' := seen[e := (if e in seen then seen[e] else []) + [u[k].id]];
    forall x | x in seen' ensures seen'[x] == IdsOf(u[..k + 1], x) {
      IdsOfStep(u, k, x);
      if x == e && e !in seen {
        assert e !in FirstSeen(u[..k]);
      }
    }
  }

  lemma FirstSeenStep(u: seq<Card>, k: int)
    requires 0 <= k < |u|
    ensures FirstSeen(u[..k + 1]) ==
      if u[k].emoji in FirstSeen(u[..k]) then FirstSeen(u[..k]) else FirstSeen(u[..k]) + [u[k].emoji]
  {
    assert u[..k + 1][..k] == u[..k];
  }

  lemma IdsOfStep(u: seq<Card>, k: int, e: string)
    requires 0 <= k < |u|
    ensures IdsOf(u[..k + 1], e) == IdsOf(u[..k], e) + (if u[k].emoji == e then [u[k].id] else [])
  {
    assert u[..k + 1][..k] == u[..k];
  }

  /** The search stops at the first key with two ids. */
  lemma {:induction false} FirstPairAt(u: seq<Card>, keys: seq<string>, i: int)
    requires 0 <= i < |keys| && |IdsOf(u, keys[i])| == 2
    requires forall l :: 0 <= l < i ==> |IdsOf(u, keys[l])| != 2
    ensures FirstPairIn(u, keys) == Some((IdsOf(u, keys[i])[0], IdsOf(u, keys[i])[1]))
  {
    if i > 0 {
      assert forall l :: 0 <= l < i - 1 ==> keys[1..][l] == keys[l + 1];
      FirstPairAt(u, keys[1..], i - 1);
    }
  }

  /** `Object.values(seen).find(ids => ids.length === 2)`. */
  method FindPair(u: seq<Card>, seen: map<string, seq<int>>, keys: seq<string>) returns (pair: Option<(int, int)>)
    requires forall e :: e in keys ==> e in seen && seen[e] == IdsOf(u, e)
    ensures pair == FirstPairIn(u, keys)
  {
    for i := 0 to |keys|
      invariant forall l :: 0 <= l < i ==> |IdsOf(u, keys[l])| != 2
    {
      assert keys[i] in keys;
      var ids := seen[keys[i]];
      if |ids| == 2 {
        FirstPairAt(u, keys, i);
        return Some((ids[0], ids[1]));
      }
    }
    return None;
  }

  /** The hint search of `useHint`: the hidden cards, their ids per emoji, then the first emoji with two. */
  method FindHintPair(cards: seq<Card>) returns (pair: Option<(int, int)>)
    ensures pair == HintPair(cards)
  {
    var unmatched := Unmatched(cards);
    var seen, keys := CollectSeen(unmatched);
    pair := FindPair(unmatched, seen, keys);
  }

  // ---------------------------------------------------------------------
  // The deck
  // ---------------------------------------------------------------------

  /** The emojis of a row of cards. */
  function EmojiSeq(cards: seq<Card>): (es: seq<string>)
    ensures |es| == |cards| && forall i :: 0 <= i < |cards| ==> es[i] == cards[i].emoji
  {
    seq(|cards|, i requires 0 <= i < |cards| => cards[i].emoji)
  }

  /** The fresh deck `resetGame` deals from a shuffle of the emojis. */
  function Deal(shuffled: seq<string>): (cards: seq<Card>)
    ensures |cards| == |shuffled|
    ensures forall i :: 0 <= i < |cards| ==> cards[i] == Card(i, shuffled[i], false, false)
  {
    seq(|shuffled|, i requires 0 <= i < |shuffled| => Card(i, shuffled[i], false, false))
  }

  /** A dealt deck has sixteen hidden cards, each emoji on exactly two of them. */
  lemma DealtDeckIsPairs(draws: seq<int>)
    requires AreDraws(draws, |Pairs|)
    ensures |Deal(FisherYates(Pairs, draws))| == DeckSize
    ensures forall e :: multiset(EmojiSeq(Deal(FisherYates(Pairs, draws))))[e] == if e in Emojis then 2 else 0
    ensures HintPair(Deal(FisherYates(Pairs, draws))).Some?
  {
    var shuffled := FisherYates(Pairs, draws);
    FisherYatesPermutes(Pairs, draws);
    var cards := Deal(shuffled);
    assert EmojiSeq(cards) == shuffled;
    forall e ensures multiset(EmojiSeq(cards))[e] == if e in Emojis then 2 else 0 {
      PairsCount(e);
    }
    // Some emoji sits on two cards, both face down.
    PairsCount(shuffled[0]);
    assert shuffled[0] in multiset(Pairs);
    var j := RepeatOfFirst(shuffled);
    assert cards[0].emoji == cards[j].emoji;
    HintPairComplete(cards);
  }

  /** A first value that occurs at least twice occurs again further on. */
  lemma RepeatOfFirst<T>(s: seq<T>) returns (j: int)
    requires |s| > 0 && multiset(s)[s[0]] >= 2
    ensures 0 < j < |s| && s[j] == s[0]
  {
    assert s == [s[0]] + s[1..];
    assert s[0] in s[1..];
    j :| 0 < j < |s| && s[j] == s[0];
  }

  /** The shuffled, dealt deck of `resetGame` as a new array. */
  method NewDeck(draws: seq<int>) returns (deck: array<Card>)
    requires AreDraws(draws, |Pairs|)
    ensures fresh(deck)
    ensures deck[..] == Deal(FisherYates(Pairs, draws))
    ensures deck.Length == DeckSize && Consistent(deck[..], [])
  {
    var shuffled := ShuffleArray(Pairs, draws);
    var dealt := Deal(shuffled);
    deck := new Card[|dealt|](i requires 0 <= i < |dealt| => dealt[i]);
    assert deck[..] == dealt;
    DealtDeckConsistent(draws);
  }

  /** Every card is matched: the game is won. */
  predicate AllMatched(cards: seq<Card>) {
    forall i :: 0 <= i < |cards| ==> cards[i].matched
  }

  /** Card i with its face turned up or down. */
  function WithFlipped(cards: seq<Card>, i: int, up: bool): (r: seq<Card>)
    requires 0 <= i < |cards|
    ensures |r| == |cards| && r[i] == cards[i].(flipped := up)
    ensures forall k :: 0 <= k < |cards| && k != i ==> r[k] == cards[k]
  {
    cards[i := cards[i].(flipped := up)]
  }

  /** Card i marked as matched. */
  function WithMatched(cards: seq<Card>, i: int): (r: seq<Card>)
    requires 0 <= i < |cards|
    ensures |r| == |cards| && r[i] == cards[i].(matched := true)
    ensures forall k :: 0 <= k < |cards| && k != i ==> r[k] == cards[k]
  {
    cards[i := cards[i].(matched := true)]
  }

  /**
   * What every state of the board keeps: card i has id i, each emoji lies
   * on exactly two cards, matched cards stay face up, and the cards of the
   * current turn are face up and unmatched; two of them form an unequal pair.
   */
  ghost predicate Consistent(cards: seq<Card>, selected: seq<int>)
    ensures Consistent(cards, selected) ==> |cards| == DeckSize && |selected| <= 2
  {
    && |cards| == DeckSize
    && (forall i :: 0 <= i < DeckSize ==> cards[i].id == i)
    && (forall e :: multiset(EmojiSeq(cards))[e] == if e in Emojis then 2 else 0)
    && (forall i :: 0 <= i < DeckSize && cards[i].matched ==> cards[i].flipped)
    && |selected| <= 2
    && (forall k :: 0 <= k < |selected| ==>
          0 <= selected[k] < DeckSize && cards[selected[k]].flipped && !cards[selected[k]].matched)
    && (|selected| == 2 ==>
          selected[0] != selected[1] && cards[selected[0]].emoji != cards[selected[1]].emoji)
  }

  /** Turning a card or marking it matched leaves every emoji where it was. */
  lemma FlipKeepsEmojis(cards: seq<Card>, i: int, up: bool)
    requires 0 <= i < |cards|
    ensures EmojiSeq(WithFlipped(cards, i, up)) == EmojiSeq(cards)
  {
    assert EmojiSeq(WithFlipped(cards, i, up)) == EmojiSeq(cards)[i := cards[i].emoji];
  }

  lemma MatchKeepsEmojis(cards: seq<Card>, i: int)
    requires 0 <= i < |cards|
    ensures EmojiSeq(WithMatched(cards, i)) == EmojiSeq(cards)
  {
    assert EmojiSeq(WithMatched(cards, i)) == EmojiSeq(cards)[i := cards[i].emoji];
  }

  /** A freshly dealt deck with nothing selected is a consistent board. */
  lemma DealtDeckConsistent(draws: seq<int>)
    requires AreDraws(draws, |Pairs|)
    ensures Consistent(Deal(FisherYates(Pairs, draws)), [])
  {
    DealtDeckIsPairs(draws);
  }

  /** The first card of a turn turned up. */
  lemma PressFirstConsistent(cards: seq<Card>, index: int)
    requires Consistent(cards, []) && 0 <= index < DeckSize
    requires !cards[index].flipped && !cards[index].matched
    ensures Consistent(WithFlipped(cards, index, true), [index])
  {
    FlipKeepsEmojis(cards, index, true);
  }

  /** The second card of a turn turned up, unequal to the first: a pending pair. */
  lemma PressMismatchConsistent(cards: seq<Card>, first: int, index: int)
    requires Consistent(cards, [first]) && 0 <= first < DeckSize && 0 <= index < DeckSize
    requires !cards[index].flipped && !cards[index].matched
    requires cards[first].emoji != cards[index].emoji
    ensures Consistent(WithFlipped(cards, index, true), [first, index])
  {
    FlipKeepsEmojis(cards, index, true);
  }

  /** The second card of a turn turned up, equal to the first: both are matched. */
  lemma PressMatchConsistent(cards: seq<Card>, first: int, index: int)
    requires Consistent(cards, [first]) && 0 <= first < DeckSize && 0 <= index < DeckSize
    requires !cards[index].flipped && !cards[index].matched
    ensures first != index
    ensures Consistent(WithMatched(WithMatched(WithFlipped(cards, index, true), first), index), [])
  {
    var turned := WithFlipped(cards, index, true);
    assert [first][0] == first;
    FlipKeepsEmojis(cards, index, true);
    MatchKeepsEmojis(turned, first);
    MatchKeepsEmojis(WithMatched(turned, first), index);
  }

  /** Turning back a pending unequal pair. */
  lemma ResolveConsistent(cards: seq<Card>, selected: seq<int>)
    requires Consistent(cards, selected) && |selected| == 2
    ensures Consistent(WithFlipped(WithFlipped(cards, selected[0], false), selected[1], false), [])
  {
    FlipKeepsEmojis(cards, selected[0], false);
    FlipKeepsEmojis(WithFlipped(cards, selected[0], false), selected[1], false);
  }

  /** Turning up two hidden cards leaves the turn as it was. */
  lemma HintConsistent(cards: seq<Card>, selected: seq<int>, a: int, b: int)
    requires Consistent(cards, selected) && 0 <= a < DeckSize && 0 <= b < DeckSize
    requires Hidden(cards[a]) && Hidden(cards[b])
    ensures Consistent(WithFlipped(WithFlipped(cards, a, true), b, true), selected)
  {
    FlipKeepsEmojis(cards, a, true);
    FlipKeepsEmojis(WithFlipped(cards, a, true), b, true);
  }

  // ---------------------------------------------------------------------
  // The game
  // ---------------------------------------------------------------------

  class MemoryMatch {
    var cards: array<Card>
    /**
     * The face-up cards of the current turn. Two of them means an unequal
     * pair waiting for the delayed turn-back.
     */
    var selected: seq<int>
    var moves: int
    var xp: int
    var hintCount: int

    ghost predicate Valid()
      reads this, cards
    {
      cards.Length == DeckSize && Consistent(cards[..], selected)
    }

    /** Mounting the page: the stored XP and hints, then `resetGame`. */
    constructor (savedXp: Option<int>, savedHints: Option<int>, draws: seq<int>)
      requires AreDraws(draws, |Pairs|)
      ensures Valid() && fresh(cards)
      ensures cards[..] == Deal(FisherYates(Pairs, draws))
      ensures selected == [] && moves == 0
      ensures xp == savedXp.GetOr(0) && hintCount == savedHints.GetOr(DefaultHints)
    {
      xp := savedXp.GetOr(0);
      hintCount := savedHints.GetOr(DefaultHints);
      var deck := NewDeck(draws);
      cards := deck;
      selected := [];
      moves := 0;
    }

    /**
     * `resetGame`: a newly shuffled deck, all face down, no moves and nothing
     * selected. A turn-back still pending is dropped.
     */
    method ResetGame(draws: seq<int>)
      requires AreDraws(draws, |Pairs|)
      modifies this
      ensures Valid() && fresh(cards)
      ensures cards[..] == Deal(FisherYates(Pairs, draws))
      ensures selected == [] && moves == 0
      ensures xp == old(xp) && hintCount == old(hintCount)
    {
      cards := NewDeck(draws);
      selected := [];
      moves := 0;
    }

    /** `addXP(amount)`. */
    method AddXp(amount: int)
      modifies this`xp
      ensures xp == old(xp) + amount
    {
      xp := xp + amount;
    }

    /**
     * `handlePress(index)`: a face-up or matched card, or a press while an
     * unequal pair waits, changes nothing. Otherwise the card turns up; as
     * the second of a turn it costs a move and either matches the first (both
     * stay up, +50 XP once every card is matched) or waits to be turned back.
     */
    method HandlePress(index: int)
      requires Valid() && 0 <= index < DeckSize
      modifies cards, this`selected, this`moves, this`xp
      ensures Valid()
      ensures hintCount == old(hintCount)
      ensures old(cards[index].flipped || cards[index].matched || |selected| == 2) ==>
        cards[..] == old(cards[..]) && selected == old(selected) && moves == old(moves) && xp == old(xp)
      ensures !old(cards[index].flipped || cards[index].matched) && old(|selected|) == 0 ==>
        (cards[..] == WithFlipped(old(cards[..]), index, true)
         && selected == [index] && moves == old(moves) && xp == old(xp))
      ensures !old(cards[index].flipped || cards[index].matched) && old(|selected|) == 1 ==>
        var first := old(selected[0]);
        var turned := WithFlipped(old(cards[..]), index, true);
        && moves == old(moves) + 1
        && (turned[first].emoji == turned[index].emoji ==>
              && cards[..] == WithMatched(WithMatched(turned, first), index)
              && selected == []
              && xp == old(xp) + (if AllMatched(cards[..]) then WinReward else 0))
        && (turned[first].emoji != turned[index].emoji ==>
              cards[..] == turned && selected == [first, index] && xp == old(xp))
      ensures forall i :: 0 <= i < DeckSize && old(cards[i].flipped && !cards[i].matched) && i !in old(selected) ==>
        cards[i] == old(cards[i]) && i !in selected
    {
      if cards[index].flipped || cards[index].matched || |selected| == 2 {
        return;
      }
      ghost var before := cards[..];
      ghost var pending := selected;
      cards[index] := cards[index].(flipped := true);
      assert cards[..] == WithFlipped(before, index, true);
      var newSelected := selected + [index];
      selected := newSelected;
      if |newSelected| == 2 {
        moves := moves + 1;
        var first, second := newSelected[0], newSelected[1];
        assert pending == [first];
        if cards[first].emoji == cards[second].emoji {
          PressMatchConsistent(before, first, second);
          ghost var turned := cards[..];
          cards[first] := cards[first].(matched := true);
          cards[second] := cards[second].(matched := true);
          assert cards[..] == WithMatched(WithMatched(turned, first), second);
          selected := [];
          if forall i :: 0 <= i < cards.Length ==> cards[i].matched {
            AddXp(WinReward);
          }
        } else {
          PressMismatchConsistent(before, first, second);
        }
      } else {
        assert pending == [];
        PressFirstConsistent(before, index);
      }
    }

    /** The delayed turn-back of an unequal pair: both cards face down again, nothing selected. */
    method ResolveMismatch()
      requires Valid() && |selected| == 2
      modifies cards, this`selected
      ensures Valid()
      ensures cards[..] == WithFlipped(WithFlipped(old(cards[..]), old(selected[0]), false), old(selected[1]), false)
      ensures selected == []
      ensures forall i :: 0 <= i < DeckSize ==> cards[i].matched == old(cards[i].matched)
      ensures forall i :: 0 <= i < DeckSize && old(cards[i].flipped && !cards[i].matched) && i !in old(selected) ==>
        cards[i] == old(cards[i]) && i !in selected
    {
      var first, second := selected[0], selected[1];
      ghost var before := cards[..];
      cards[first] := cards[first].(flipped := false);
      cards[second] := cards[second].(flipped := false);
      assert cards[..] == WithFlipped(WithFlipped(before, first, false), second, false);
      ResolveConsistent(before, selected);
      selected := [];
    }

    /**
     * `useHint`: with hints left and two face-down unmatched cards showing
     * the same emoji, turn up the first such pair and spend a hint. Otherwise
     * nothing changes. Moves, matches and the selection are untouched.
     */
    method UseHint() returns (pair: Option<(int, int)>)
      requires Valid()
      modifies cards, this`hintCount
      ensures Valid()
      ensures pair.None? <==> old(hintCount) <= 0 || HintPair(old(cards[..])).None?
      ensures pair.None? ==> cards[..] == old(cards[..]) && hintCount == old(hintCount)
      ensures pair.Some? ==>
        && pair == HintPair(old(cards[..]))
        && 0 <= pair.value.0 < pair.value.1 < DeckSize
        && old(Hidden(cards[pair.value.0])) && old(Hidden(cards[pair.value.1]))
        && old(cards[pair.value.0].emoji == cards[pair.value.1].emoji)
        && cards[..] == WithFlipped(WithFlipped(old(cards[..]), pair.value.0, true), pair.value.1, true)
        && hintCount == old(hintCount) - 1
      ensures selected == old(selected) && moves == old(moves) && xp == old(xp)
      ensures forall i :: 0 <= i < DeckSize && old(cards[i].flipped && !cards[i].matched) && i !in old(selected) ==>
        cards[i] == old(cards[i]) && i !in selected
    {
      if hintCount <= 0 {
        return None;
      }
      pair := FindHintPair(cards[..]);
      if pair.None? {
        return None;
      }
      ghost var before := cards[..];
      HintPairSound(before);
      var (a, b) := pair.value;
      cards[a] := cards[a].(flipped := true);
      cards[b] := cards[b].(flipped := true);
      assert cards[..] == WithFlipped(WithFlipped(before, a, true), b, true);
      HintConsistent(before, selected, a, b);
      hintCount := hintCount - 1;
    }
  }
}
