/** The script's own procedures, which change the file store step by step:
    a workspace holds the files on disk and the log of URLs fetched, and each
    method is proved to have exactly the effect of its specification
    function. */
module Workspace {
  import opened Options
  import opened Errors
  import opened Geometry
  import opened CardIndex
  import opened Manifest
  import opened Cache
  import opened Export

  class Workspace {
    const env: Env
    var files: map<string, File>
    var fetches: seq<string>

    function State(): Store
      reads this
    {
      Store(files, fetches)
    }

    constructor (env: Env, files: map<string, File>)
      ensures this.env == env && State() == Store(files, [])
    {
      this.env := env;
      this.files := files;
      this.fetches := [];
    }

    /** ensure_sprite (main.py:16-31). */
    method EnsureSprite(spriteId: string, url: string) returns (r: Result<string>)
      modifies this
      ensures Run(State(), r) == EnsureSpriteSpec(env, old(State()), spriteId, url)
    {
      var key := SpriteKey(spriteId, env.digest(url));
      var path := SpritePath(key);
      if path !in files {
        var response := env.fetch(url);
        fetches := fetches + [url];
        if response.status == 200 {
          files := files[path := Downloaded(response.body)];
        } else {
          return Err(DownloadFailed(url));
        }
      }
      return Ok(key);
    }

    /** extract_card (main.py:34-46). */
    method ExtractCard(cardId: string, key: string, idx: nat, cols: nat, rows: nat, rotate: bool) returns (r: Result<()>)
      modifies this
      ensures Run(State(), r) == ExtractCardSpec(env, old(State()), cardId, key, idx, cols, rows, rotate)
    {
      var out := CardPath(cardId);
      if out !in files {
        var src := SpritePath(key);
        if src !in files {
          return Err(SheetMissing(src));
        }
        var size := SheetSize(env, files[src]);
        if size.None? {
          return Err(SheetUndecodable(src));
        }
        if cols == 0 || rows == 0 {
          return Err(ZeroGrid);
        }
        var box := CellRect(idx, cols, rows, size.value);
        if box.w == 0 || box.h == 0 {
          return Err(EmptyCell);
        }
        files := files[out := Cropped(key, box, rotate)];
      }
      return Ok(());
    }

    /** save_player_card (main.py:49-63). */
    method SavePlayerCard(card: Node) returns (r: Result<()>)
      modifies this
      ensures Run(State(), r) == SavePlayerCardSpec(env, old(State()), card)
    {
      if card.customDeck == [] {
        return Err(EmptyCustomDeck);
      }
      var (deckId, deck) := card.customDeck[0];
      var idx := GridIndex(card.cardId, deckId);
      if idx.Err? {
        return Err(idx.error);
      }
      var cols, rows := deck.numWidth, deck.numHeight;
      var front := EnsureSprite(deckId, deck.faceUrl);
      if front.Err? {
        return Err(front.error);
      }
      r := ExtractCard(card.noteId, front.value, idx.value, cols, rows, card.sideways);
      if r.Err? || !deck.uniqueBack {
        return r;
      }
      var back := EnsureSprite(deckId + "b", deck.backUrl);
      if back.Err? {
        return Err(back.error);
      }
      r := ExtractCard(card.noteId + "b", back.value, idx.value, cols, rows, card.sideways);
    }

    /** save_player_cards (main.py:66-74). */
    method SavePlayerCards(m: Manifest) returns (r: Result<()>)
      modifies this
      ensures Run(State(), r) == SavePlayerCardsSpec(env, old(State()), m)
    {
      var root := FindRootIndex(m.objectStates);
      if root.None? {
        return Err(NoPlayerCardRoot);
      }
      var cards := PlayerCards(m.objectStates[root.value].contained);
      ghost var start := State();
      for i := 0 to |cards|
        invariant SaveCardsSpec(env, start, cards) == SaveCardsSpec(env, State(), cards[i..])
      {
        assert cards[i..][1..] == cards[i + 1..];
        r := SavePlayerCard(cards[i]);
        if r.Err? {
          return r;
        }
      }
      return Ok(());
    }
  }
}
