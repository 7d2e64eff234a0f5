/** The frame store: profile frames bought with mana. */
module Store {
  import opened Collections

  datatype Frame = Frame(id: string, name: string, cost: int)

  /** The catalogue; the images are left out. */
  const Frames: seq<Frame> := [
    Frame("frame1", "Gold Frame", 50),
    Frame("frame2", "Crystal Frame", 75),
    Frame("frame3", "Flame Frame", 100)
  ]

  /** The catalogue has three frames with distinct ids and positive costs. */
  lemma CatalogueWellFormed()
    ensures |Frames| == 3
    ensures forall i, j :: 0 <= i < j < |Frames| ==> Frames[i].id != Frames[j].id
    ensures forall i :: 0 <= i < |Frames| ==> Frames[i].cost > 0
  {
  }

  /** The player's mana and the ids of the frames they own. */
  datatype StoreState = StoreState(mana: int, purchased: seq<string>)

  /** What the alert after pressing "Buy" says. */
  datatype Outcome = AlreadyOwned | NotEnoughMana | Bought

  /**
   * `purchase(frameId, cost)`: an owned frame is refused, then a frame the
   * mana does not cover; otherwise its id is added at the end and its cost
   * is paid.
   */
  function Purchase(st: StoreState, frameId: string, cost: int): (r: (StoreState, Outcome))
    ensures frameId in st.purchased <==> r.1 == AlreadyOwned
    ensures frameId !in st.purchased && st.mana < cost <==> r.1 == NotEnoughMana
    ensures r.1 != Bought ==> r.0 == st
    ensures r.1 == Bought ==> r.0 == StoreState(st.mana - cost, st.purchased + [frameId])
  {
    if frameId in st.purchased then (st, AlreadyOwned)
    else if st.mana < cost then (st, NotEnoughMana)
    else (StoreState(st.mana - cost, st.purchased + [frameId]), Bought)
  }

  /** A purchase never leaves a frame owned twice. */
  lemma PurchaseKeepsDistinct(st: StoreState, frameId: string, cost: int)
    requires AllDistinct(st.purchased)
    ensures AllDistinct(Purchase(st, frameId, cost).0.purchased)
  {
    var p := Purchase(st, frameId, cost).0.purchased;
    if frameId !in st.purchased {
      forall i, j | 0 <= i < j < |p| ensures p[i] != p[j] {
        if j == |st.purchased| {
          assert p[i] == st.purchased[i];
        }
      }
    }
  }

  /** A purchase never spends mana the player does not have. */
  lemma PurchaseKeepsManaNonNegative(st: StoreState, frameId: string, cost: int)
    requires st.mana >= 0
    ensures Purchase(st, frameId, cost).0.mana >= 0
  {
  }

  /** Owning is for good: a purchase only ever adds the frame it was for. */
  lemma PurchaseOnlyAdds(st: StoreState, frameId: string, cost: int)
    ensures forall f :: f in Purchase(st, frameId, cost).0.purchased <==>
      (f in st.purchased || (f == frameId && Purchase(st, frameId, cost).1 == Bought))
  {
  }
}
