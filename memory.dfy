/**
 * The memory-match deck dealt by `startGameMemory`: the eight catalog images
 * each appear twice, in a shuffled order, as cards numbered by their position
 * with both flags cleared. The shuffle itself (a `sort` with a random
 * comparator) is not modelled; the deck is built from whatever permutation of
 * the doubled catalog it produced.
 */
module Memory {
  import opened JsValue
  import Registry

  /** The face images of the memory game, by their served paths. */
  const Catalog: seq<string> := [
    "/images/rubber-duck.png",
    "/images/smiling.png",
    "/images/golf-club.png",
    "/images/dolphin.png",
    "/images/Tea-Rex.png",
    "/images/koala.png",
    "/images/cat.png",
    "/images/dog.png"
  ]

  datatype Card = Card(id: nat, emoji: string, isFlipped: bool, isMatched: bool)

  /** The game state the server stores and broadcasts; `winner` is always JavaScript's `null` here. */
  datatype MemoryState = MemoryState(cards: seq<Card>, moves: nat, winner: Value)

  /** `[...EMOJIS, ...EMOJIS]`. */
  function Doubled(): (d: seq<string>)
    ensures |d| == 2 * |Catalog|
    ensures forall i | 0 <= i < |Catalog| :: d[i] == Catalog[i] && d[i + |Catalog|] == Catalog[i]
  {
    Catalog + Catalog
  }

  /** What the random sort may return: any rearrangement of the doubled catalog. */
  ghost predicate IsShuffle(shuffled: seq<string>)
  {
    multiset(shuffled) == multiset(Doubled())
  }

  /** `shuffled.map((emoji, index) => ({ id: index, emoji, isFlipped: false, isMatched: false }))`. */
  function Deal(shuffled: seq<string>): (cards: seq<Card>)
    ensures Faces(cards) == shuffled
    ensures forall i | 0 <= i < |cards| :: cards[i].id == i && !cards[i].isFlipped && !cards[i].isMatched
  {
    seq(|shuffled|, i requires 0 <= i < |shuffled| => Card(i, shuffled[i], false, false))
  }

  /** The state `startGameMemory` assigns to `gameState`. */
  function FreshState(shuffled: seq<string>): (state: MemoryState)
    ensures Faces(state.cards) == shuffled
    ensures forall i | 0 <= i < |state.cards| ::
              state.cards[i].id == i && !state.cards[i].isFlipped && !state.cards[i].isMatched
    ensures state.moves == 0 && state.winner == Null
  {
    MemoryState(Deal(shuffled), 0, Null)
  }

  /** The face values of a deck, in deck order. */
  function Faces(cards: seq<Card>): (faces: seq<string>)
    ensures |faces| == |cards|
    ensures forall i | 0 <= i < |cards| :: faces[i] == cards[i].emoji
  {
    if cards == [] then [] else [cards[0].emoji] + Faces(cards[1..])
  }

  /** No image is listed twice in the catalog. */
  lemma CatalogDistinct()
    ensures Registry.NoDups(Catalog)
  {
  }

  /** In a list without repeats every element occurs once. */
  lemma {:induction false} DistinctOccursOnce(s: seq<string>, e: string)
    requires Registry.NoDups(s)
    ensures multiset(s)[e] == if e in s then 1 else 0
  {
    if s != [] {
      assert s == [s[0]] + s[1..];
      assert Registry.NoDups(s[1..]);
      DistinctOccursOnce(s[1..], e);
      assert s[0] !in s[1..];
    }
  }

  /**
   * A fresh deck has 16 cards; card `i` has id `i` and both flags cleared;
   * no moves have been made and there is no winner.
   */
  lemma FreshStateShape(shuffled: seq<string>)
    requires IsShuffle(shuffled)
    ensures |FreshState(shuffled).cards| == 16
    ensures forall i | 0 <= i < 16 ::
              && FreshState(shuffled).cards[i].id == i
              && !FreshState(shuffled).cards[i].isFlipped
              && !FreshState(shuffled).cards[i].isMatched
    ensures FreshState(shuffled).moves == 0 && FreshState(shuffled).winner == Null
  {
    assert |shuffled| == |multiset(shuffled)| == |multiset(Doubled())| == 16;
  }

  /**
   * The faces of a fresh deck are the shuffle, in order, and together hold
   * each catalog image exactly twice and nothing else.
   */
  lemma FreshStatePairs(shuffled: seq<string>)
    requires IsShuffle(shuffled)
    ensures Faces(FreshState(shuffled).cards) == shuffled
    ensures forall e :: multiset(Faces(FreshState(shuffled).cards))[e] == if e in Catalog then 2 else 0
  {
    var faces := Faces(FreshState(shuffled).cards);
    assert faces == shuffled;
    CatalogDistinct();
    forall e ensures multiset(faces)[e] == if e in Catalog then 2 else 0 {
      DistinctOccursOnce(Catalog, e);
      assert multiset(Doubled()) == multiset(Catalog) + multiset(Catalog);
    }
  }
}
