/** The driving logic of the export as functions on the store: one card
    (main.py, save_player_card) and the player-card region of a manifest
    (main.py, save_player_cards). */
module Export {
  import opened Errors
  import opened Geometry
  import opened CardIndex
  import opened Manifest
  import opened Cache

  /** The cache id of a descriptor's face sheet and of its back sheet; the
      back is cached under the deck id with a "b" appended. */
  function FrontKey(env: Env, deckId: string, deck: Deck): string {
    SpriteKey(deckId, env.digest(deck.faceUrl))
  }

  function BackKey(env: Env, deckId: string, deck: Deck): string {
    SpriteKey(deckId + "b", env.digest(deck.backUrl))
  }

  /** The files that saving `card` may create. */
  function Targets(env: Env, card: Node): set<string> {
    if card.customDeck == [] then {}
    else
      var (deckId, deck) := card.customDeck[0];
      {SpritePath(FrontKey(env, deckId, deck)), CardPath(card.noteId)}
      + (if deck.uniqueBack then {SpritePath(BackKey(env, deckId, deck)), CardPath(card.noteId + "b")} else {})
  }

  /** Everything saving `card` needs is already on disk, and its index can be
      derived. */
  predicate Done(env: Env, files: map<string, File>, card: Node) {
    && card.customDeck != []
    && var (deckId, deck) := card.customDeck[0];
    && GridIndex(card.cardId, deckId).Ok?
    && SpritePath(FrontKey(env, deckId, deck)) in files
    && CardPath(card.noteId) in files
    && (deck.uniqueBack ==> SpritePath(BackKey(env, deckId, deck)) in files && CardPath(card.noteId + "b") in files)
  }

  /** save_player_card: derive the grid index from the first deck, cache the
      face sheet and extract the face, then, for a unique back only, cache the
      back sheet and extract the back at the same index. */
  function SavePlayerCardSpec(env: Env, st: Store, card: Node): (r: Run<()>)
    ensures Extends(st.files, r.store.files)
    ensures r.store.files.Keys <= st.files.Keys + Targets(env, card)
    ensures st.fetches <= r.store.fetches
    ensures r.result.Ok? ==> Done(env, r.store.files, card)
    ensures card.customDeck == [] ==> r == Run(st, Err(EmptyCustomDeck))
    ensures r.result.Err? ==> !r.result.error.NoPlayerCardRoot?
  {
    if card.customDeck == [] then Run(st, Err(EmptyCustomDeck))
    else
      var (deckId, deck) := card.customDeck[0];
      var idx := GridIndex(card.cardId, deckId);
      if idx.Err? then Run(st, Err(idx.error))
      else
        var front := EnsureSpriteSpec(env, st, deckId, deck.faceUrl);
        if front.result.Err? then Run(front.store, Err(front.result.error))
        else
          var face := ExtractCardSpec(env, front.store, card.noteId, front.result.value,
                                      idx.value, deck.numWidth, deck.numHeight, card.sideways);
          if face.result.Err? || !deck.uniqueBack then face
          else
            var back := EnsureSpriteSpec(env, face.store, deckId + "b", deck.backUrl);
            if back.result.Err? then Run(back.store, Err(back.result.error))
            else ExtractCardSpec(env, back.store, card.noteId + "b", back.result.value,
                                 idx.value, deck.numWidth, deck.numHeight, card.sideways)
  }

  /** Presence of files only grows, so what is done stays done. */
  lemma DoneMonotone(env: Env, before: map<string, File>, after: map<string, File>, card: Node)
    requires Done(env, before, card) && before.Keys <= after.Keys
    ensures Done(env, after, card)
  {
  }

  /** A card whose files are all present is skipped: saving it again fetches
      nothing, writes nothing and succeeds.  This is what lets a later run
      resume a partial one without redoing finished cards. */
  lemma SkipDone(env: Env, st: Store, card: Node)
    requires Done(env, st.files, card)
    ensures SavePlayerCardSpec(env, st, card) == Run(st, Ok(()))
  {
  }

  /** Without a unique back the back file is neither written nor fetched for:
      the store gains at most the face sheet and the face card, and the only
      fetch is of the face URL. */
  lemma NoBackWithoutUniqueBack(env: Env, st: Store, card: Node)
    requires card.customDeck != [] && !card.customDeck[0].1.uniqueBack
    ensures var r := SavePlayerCardSpec(env, st, card);
            && r.store.files.Keys <= st.files.Keys + {SpritePath(FrontKey(env, card.customDeck[0].0, card.customDeck[0].1)), CardPath(card.noteId)}
            && (CardPath(card.noteId + "b") in r.store.files <==> CardPath(card.noteId + "b") in st.files)
            && (r.store.fetches == st.fetches || r.store.fetches == st.fetches + [card.customDeck[0].1.faceUrl])
  {
    var (deckId, deck) := card.customDeck[0];
    CardPathNotSpritePath(card.noteId + "b", FrontKey(env, deckId, deck));
    if CardPath(card.noteId + "b") == CardPath(card.noteId) {
      CardPathInjective(card.noteId + "b", card.noteId);
    }
  }

  /** A successful save has the face file, and the back file exactly when the
      descriptor has a unique back or the back file was there before. */
  lemma BackIffUniqueBack(env: Env, st: Store, card: Node)
    requires SavePlayerCardSpec(env, st, card).result.Ok?
    ensures var r := SavePlayerCardSpec(env, st, card);
            && CardPath(card.noteId) in r.store.files
            && (CardPath(card.noteId + "b") in r.store.files
                <==> card.customDeck[0].1.uniqueBack || CardPath(card.noteId + "b") in st.files)
  {
    if !card.customDeck[0].1.uniqueBack {
      NoBackWithoutUniqueBack(env, st, card);
    }
  }

  /** The face file a save creates is the crop of cell `idx` of the face
      sheet, rotated when the card is sideways. */
  lemma SavedFaceCrop(env: Env, st: Store, card: Node)
    requires SavePlayerCardSpec(env, st, card).result.Ok?
    requires CardPath(card.noteId) !in st.files
    ensures var r := SavePlayerCardSpec(env, st, card);
            var (deckId, deck) := card.customDeck[0];
            var sheet := SpritePath(FrontKey(env, deckId, deck));
            && sheet in r.store.files
            && SheetSize(env, r.store.files[sheet]).Some?
            && deck.numWidth > 0 && deck.numHeight > 0
            && r.store.files[CardPath(card.noteId)]
               == Cropped(FrontKey(env, deckId, deck),
                          CellRect(GridIndex(card.cardId, deckId).value, deck.numWidth, deck.numHeight,
                                   SheetSize(env, r.store.files[sheet]).value),
                          card.sideways)
  {
    var (deckId, deck) := card.customDeck[0];
    var idx := GridIndex(card.cardId, deckId).value;
    var front := EnsureSpriteSpec(env, st, deckId, deck.faceUrl);
    var face := ExtractCardSpec(env, front.store, card.noteId, front.result.value,
                                idx, deck.numWidth, deck.numHeight, card.sideways);
    var r := SavePlayerCardSpec(env, st, card);
    var sheet := SpritePath(FrontKey(env, deckId, deck));
    CardPathNotSpritePath(card.noteId, FrontKey(env, deckId, deck));
    assert r.store.files[sheet] == face.store.files[sheet] == front.store.files[sheet];
    assert r.store.files[CardPath(card.noteId)] == face.store.files[CardPath(card.noteId)];
  }

  /** The back file a save creates is the crop of the same cell, with the
      same grid and rotation, of the back sheet. */
  lemma SavedBackCrop(env: Env, st: Store, card: Node)
    requires SavePlayerCardSpec(env, st, card).result.Ok?
    requires card.customDeck[0].1.uniqueBack && CardPath(card.noteId + "b") !in st.files
    ensures var r := SavePlayerCardSpec(env, st, card);
            var (deckId, deck) := card.customDeck[0];
            var sheet := SpritePath(BackKey(env, deckId, deck));
            && sheet in r.store.files
            && SheetSize(env, r.store.files[sheet]).Some?
            && deck.numWidth > 0 && deck.numHeight > 0
            && r.store.files[CardPath(card.noteId + "b")]
               == Cropped(BackKey(env, deckId, deck),
                          CellRect(GridIndex(card.cardId, deckId).value, deck.numWidth, deck.numHeight,
                                   SheetSize(env, r.store.files[sheet]).value),
                          card.sideways)
  {
    var (deckId, deck) := card.customDeck[0];
    var idx := GridIndex(card.cardId, deckId).value;
    var front := EnsureSpriteSpec(env, st, deckId, deck.faceUrl);
    var face := ExtractCardSpec(env, front.store, card.noteId, front.result.value,
                                idx, deck.numWidth, deck.numHeight, card.sideways);
    var back := EnsureSpriteSpec(env, face.store, deckId + "b", deck.backUrl);
    var sheet := SpritePath(BackKey(env, deckId, deck));
    CardPathNotSpritePath(card.noteId + "b", FrontKey(env, deckId, deck));
    CardPathNotSpritePath(card.noteId + "b", BackKey(env, deckId, deck));
    if CardPath(card.noteId + "b") == CardPath(card.noteId) {
      CardPathInjective(card.noteId + "b", card.noteId);
    }
    assert CardPath(card.noteId + "b") !in face.store.files;
    assert CardPath(card.noteId + "b") !in back.store.files;
  }

  /** The back of a card is cached apart from its face, even when both come
      from the same URL. */
  lemma FrontBackCachedApart(env: Env, deckId: string, deck: Deck)
    ensures SpritePath(FrontKey(env, deckId, deck)) != SpritePath(BackKey(env, deckId, deck))
  {
    if SpritePath(FrontKey(env, deckId, deck)) == SpritePath(BackKey(env, deckId, deck)) {
      SpritePathInjective(FrontKey(env, deckId, deck), BackKey(env, deckId, deck));
      SpriteKeyInjective(deckId, env.digest(deck.faceUrl), deckId + "b", env.digest(deck.backUrl));
    }
  }

  /** A sheet is downloaded once however many cards use it: after one card
      was saved, saving another card of the same deck fetches nothing. */
  lemma SharedDeckFetchedOnce(env: Env, st: Store, first: Node, second: Node)
    requires first.customDeck != [] && second.customDeck != [] && first.customDeck[0] == second.customDeck[0]
    requires SavePlayerCardSpec(env, st, first).result.Ok?
    ensures var r := SavePlayerCardSpec(env, st, first);
            SavePlayerCardSpec(env, r.store, second).store.fetches == r.store.fetches
  {
  }

  /** An existing card file does not stop its sheet from being downloaded:
      the face sheet is ensured before the card file is looked at. */
  lemma CardPresentSheetStillFetched(env: Env, st: Store, card: Node)
    requires card.customDeck != [] && GridIndex(card.cardId, card.customDeck[0].0).Ok?
    requires CardPath(card.noteId) in st.files
    requires SpritePath(FrontKey(env, card.customDeck[0].0, card.customDeck[0].1)) !in st.files
    ensures var r := SavePlayerCardSpec(env, st, card);
            |r.store.fetches| > |st.fetches| && r.store.fetches[|st.fetches|] == card.customDeck[0].1.faceUrl
  {
  }

  /** The loop of save_player_cards: save each card in order, stopping at the
      first that raises. */
  function SaveCardsSpec(env: Env, st: Store, cards: seq<Node>): (r: Run<()>)
    ensures Extends(st.files, r.store.files)
    ensures st.fetches <= r.store.fetches
    ensures forall p :: p in r.store.files && p !in st.files ==>
              exists i :: 0 <= i < |cards| && p in Targets(env, cards[i])
    ensures r.result.Ok? ==> forall i :: 0 <= i < |cards| ==> Done(env, r.store.files, cards[i])
    ensures r.result.Err? ==> !r.result.error.NoPlayerCardRoot?
    decreases |cards|
  {
    if cards == [] then Run(st, Ok(()))
    else
      var first := SavePlayerCardSpec(env, st, cards[0]);
      if first.result.Err? then first
      else
        var rest := SaveCardsSpec(env, first.store, cards[1..]);
        SaveCardsStep(env, st.files, first.store.files, rest.store.files, cards, rest.result.Ok?);
        rest
  }

  /** One step of the loop: the first card's effect followed by the rest's
      keeps the loop's contract. */
  lemma SaveCardsStep(env: Env, before: map<string, File>, mid: map<string, File>, after: map<string, File>,
                      cards: seq<Node>, ok: bool)
    requires cards != []
    requires Extends(before, mid) && mid.Keys <= before.Keys + Targets(env, cards[0])
    requires Done(env, mid, cards[0]) && Extends(mid, after)
    requires forall p :: p in after && p !in mid ==> exists i :: 0 <= i < |cards[1..]| && p in Targets(env, cards[1..][i])
    requires ok ==> forall i :: 0 <= i < |cards[1..]| ==> Done(env, after, cards[1..][i])
    ensures Extends(before, after)
    ensures forall p :: p in after && p !in before ==> exists i :: 0 <= i < |cards| && p in Targets(env, cards[i])
    ensures ok ==> forall i :: 0 <= i < |cards| ==> Done(env, after, cards[i])
  {
    DoneMonotone(env, mid, after, cards[0]);
    assert forall i :: 1 <= i < |cards| ==> cards[i] == cards[1..][i - 1];
    forall p | p in after && p !in before
      ensures exists i :: 0 <= i < |cards| && p in Targets(env, cards[i])
    {
      if p in mid {
        assert p in Targets(env, cards[0]);
      } else {
        var i :| 0 <= i < |cards[1..]| && p in Targets(env, cards[1..][i]);
        assert cards[1..][i] == cards[i + 1];
      }
    }
  }

  /** Saving a concatenation saves the first part, then, if that succeeded,
      the second part: cards are handled strictly in list order. */
  lemma {:induction false} SaveCardsAppend(env: Env, st: Store, a: seq<Node>, b: seq<Node>)
    ensures SaveCardsSpec(env, st, a + b)
         == var ra := SaveCardsSpec(env, st, a);
            if ra.result.Err? then ra else SaveCardsSpec(env, ra.store, b)
    decreases |a|
  {
    if a == [] {
      assert a + b == b;
    } else {
      assert (a + b)[0] == a[0] && (a + b)[1..] == a[1..] + b;
      var first := SavePlayerCardSpec(env, st, a[0]);
      if first.result.Ok? {
        SaveCardsAppend(env, first.store, a[1..], b);
      }
    }
  }

  /** Once every card is done, saving them all again fetches nothing, writes
      nothing and succeeds. */
  lemma {:induction false} SaveCardsIdempotent(env: Env, st: Store, cards: seq<Node>)
    requires forall i :: 0 <= i < |cards| ==> Done(env, st.files, cards[i])
    ensures SaveCardsSpec(env, st, cards) == Run(st, Ok(()))
    decreases |cards|
  {
    if cards != [] {
      SkipDone(env, st, cards[0]);
      assert forall i :: 0 <= i < |cards| - 1 ==> cards[1..][i] == cards[i + 1];
      SaveCardsIdempotent(env, st, cards[1..]);
    }
  }

  /** save_player_cards: the PlayerCard-tagged children of the first object
      state named "All Player Cards", saved in order; without such an object
      the run fails before touching anything. */
  function SavePlayerCardsSpec(env: Env, st: Store, m: Manifest): (r: Run<()>)
    ensures r.result == Err(NoPlayerCardRoot)
            <==> forall j :: 0 <= j < |m.objectStates| ==> m.objectStates[j].nickname != PLAYER_CARDS_ROOT
    ensures r.result == Err(NoPlayerCardRoot) ==> r.store == st
    ensures Extends(st.files, r.store.files)
  {
    match FindRootIndex(m.objectStates)
    case None => Run(st, Err(NoPlayerCardRoot))
    case Some(i) => SaveCardsSpec(env, st, PlayerCards(m.objectStates[i].contained))
  }

  /** Only the player-card children of the root produce files: every file a
      run creates belongs to such a child. */
  lemma OnlyTaggedChildren(env: Env, st: Store, m: Manifest)
    requires FindRootIndex(m.objectStates).Some?
    ensures var root := m.objectStates[FindRootIndex(m.objectStates).value];
            var r := SavePlayerCardsSpec(env, st, m);
            forall p :: p in r.store.files && p !in st.files ==>
              exists c :: c in root.contained && PLAYER_CARD_TAG in c.tags && p in Targets(env, c)
  {
    var root := m.objectStates[FindRootIndex(m.objectStates).value];
    var cards := PlayerCards(root.contained);
    var r := SaveCardsSpec(env, st, cards);
    forall p | p in r.store.files && p !in st.files
      ensures exists c :: c in root.contained && PLAYER_CARD_TAG in c.tags && p in Targets(env, c)
    {
      var i :| 0 <= i < |cards| && p in Targets(env, cards[i]);
      assert cards[i] in cards;
    }
  }

  /** Running the export a second time after a successful run fetches
      nothing, writes nothing and succeeds. */
  lemma RunTwice(env: Env, st: Store, m: Manifest)
    requires SavePlayerCardsSpec(env, st, m).result.Ok?
    ensures var r := SavePlayerCardsSpec(env, st, m);
            SavePlayerCardsSpec(env, r.store, m) == Run(r.store, Ok(()))
  {
    var i := FindRootIndex(m.objectStates).value;
    var r := SavePlayerCardsSpec(env, st, m);
    SaveCardsIdempotent(env, r.store, PlayerCards(m.objectStates[i].contained));
  }
}
