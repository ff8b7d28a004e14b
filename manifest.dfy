/** The parts of a game-table manifest that the export reads
    (main.py, save_player_card and save_player_cards). */
module Manifest {
  import opened Options
  import opened Errors

  const PLAYER_CARDS_ROOT := "All Player Cards"
  const PLAYER_CARD_TAG := "PlayerCard"

  /** One sprite sheet descriptor of a card's CustomDeck. */
  datatype Deck = Deck(faceUrl: string, backUrl: string, uniqueBack: bool, numWidth: nat, numHeight: nat)

  /** An object state.  `noteId` is the "id" field of the JSON in its
      GMNotes; `customDeck` keeps CustomDeck's (deck id, descriptor) entries
      in their document order. */
  datatype Node = Node(
    nickname: string,
    tags: seq<string>,
    contained: seq<Node>,
    noteId: string,
    customDeck: seq<(string, Deck)>,
    cardId: nat,
    sideways: bool)

  datatype Manifest = Manifest(objectStates: seq<Node>)

  /** Position of the first object state named "All Player Cards". */
  function FindRootIndex(states: seq<Node>): (r: Option<nat>)
    ensures r.Some? ==> r.value < |states| && states[r.value].nickname == PLAYER_CARDS_ROOT
    ensures r.Some? ==> forall j :: 0 <= j < r.value ==> states[j].nickname != PLAYER_CARDS_ROOT
    ensures r.None? ==> forall j :: 0 <= j < |states| ==> states[j].nickname != PLAYER_CARDS_ROOT
  {
    if states == [] then None
    else if states[0].nickname == PLAYER_CARDS_ROOT then Some(0)
    else match FindRootIndex(states[1..])
      case None => None
      case Some(i) => Some(i + 1)
  }

  /** The player-card children, in their order: [c for c in cards if
      "PlayerCard" in c["Tags"]]. */
  function PlayerCards(cards: seq<Node>): (r: seq<Node>)
    ensures forall c :: c in r <==> c in cards && PLAYER_CARD_TAG in c.tags
    ensures |r| <= |cards|
  {
    if cards == [] then []
    else (if PLAYER_CARD_TAG in cards[0].tags then [cards[0]] else []) + PlayerCards(cards[1..])
  }

  /** Filtering keeps the order: the player cards of a concatenation are
      those of the first part followed by those of the second. */
  lemma {:induction false} PlayerCardsAppend(a: seq<Node>, b: seq<Node>)
    ensures PlayerCards(a + b) == PlayerCards(a) + PlayerCards(b)
  {
    if a != [] {
      assert (a + b)[1..] == a[1..] + b;
      PlayerCardsAppend(a[1..], b);
    } else {
      assert a + b == b;
    }
  }
}
