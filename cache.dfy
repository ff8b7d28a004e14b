/** The file store the script works on and the two existence-gated writes
    into it: the sprite cache (main.py, ensure_sprite) and the extracted card
    files (main.py, extract_card), as functions from the store before to the
    store after. */
module Cache {
  import opened Options
  import opened Errors
  import opened Geometry

  /** A SHA-1 hex digest as hexdigest() prints it: 40 lower-case hex digits. */
  type Digest = s: string | |s| == 40 && forall i :: 0 <= i < |s| ==> s[i] in "0123456789abcdef"
    witness "0000000000000000000000000000000000000000"

  /** What a GET of a URL answers. */
  datatype Response = Response(status: int, body: seq<bv8>)

  /** The collaborators the script calls but does not define: SHA-1 of the
      URL's UTF-8 bytes, the HTTP GET, and PIL's reading of an image's size
      (None when the bytes are not an image). */
  datatype Env = Env(
    digest: string -> Digest,
    fetch: string -> Response,
    decode: seq<bv8> -> Option<Size>)

  /** A file's contents: a downloaded sheet holds the response body verbatim;
      a card image is the named sheet's crop box, rotated or not (its pixels
      are not modelled). */
  datatype File =
    | Downloaded(body: seq<bv8>)
    | Cropped(sheet: string, box: Rect, rotated: bool)

  /** The files on disk by path, and the URLs fetched so far, in order. */
  datatype Store = Store(files: map<string, File>, fetches: seq<string>)

  /** A store after an operation, and what the operation returned or raised. */
  datatype Run<+T> = Run(store: Store, result: Result<T>)

  const SPRITE_DIR := "./data/sprite_cache/"
  const CARD_DIR := "./data/cards/"

  /** The cache id of a sheet: f"{sprite_id}_{hash}". */
  function SpriteKey(spriteId: string, digest: Digest): (k: string)
    ensures spriteId + "_" <= k && |k| == |spriteId| + 41
  {
    spriteId + "_" + digest
  }

  /** The cache file of a sheet: f"./data/sprite_cache/{sprite_id}.jpg". */
  function SpritePath(key: string): (p: string)
    ensures SPRITE_DIR <= p && |p| == |SPRITE_DIR| + |key| + 4
  {
    SPRITE_DIR + key + ".jpg"
  }

  /** The output file of a card: f"./data/cards/{card_id}.png". */
  function CardPath(cardId: string): (p: string)
    ensures CARD_DIR <= p && |p| == |CARD_DIR| + |cardId| + 4
  {
    CARD_DIR + cardId + ".png"
  }

  /** `after` keeps every file of `before`, unchanged. */
  ghost predicate Extends(before: map<string, File>, after: map<string, File>) {
    before.Keys <= after.Keys && forall p :: p in before ==> after[p] == before[p]
  }

  /** The image size PIL reads from a file. */
  function SheetSize(env: Env, f: File): Option<Size> {
    match f
    case Downloaded(body) => env.decode(body)
    case Cropped(_, box, rotated) => Some(OutputSize(box, rotated))
  }

  /** A cache id determines the deck id and the digest it was made from,
      because every digest has the same length. */
  lemma SpriteKeyInjective(a: string, da: Digest, b: string, db: Digest)
    requires SpriteKey(a, da) == SpriteKey(b, db)
    ensures a == b && da == db
  {
    var k := SpriteKey(a, da);
    assert |a| == |b|;
    assert a == k[..|a|] == b;
    assert da == k[|a| + 1..] == db;
  }

  /** Different cache ids are stored in different files. */
  lemma SpritePathInjective(k: string, k': string)
    requires SpritePath(k) == SpritePath(k')
    ensures k == k'
  {
    var p := SpritePath(k);
    assert k == p[|SPRITE_DIR|..|p| - 4] == k';
  }

  /** Different card ids are written to different files. */
  lemma CardPathInjective(c: string, c': string)
    requires CardPath(c) == CardPath(c')
    ensures c == c'
  {
    var p := CardPath(c);
    assert c == p[|CARD_DIR|..|p| - 4] == c';
  }

  /** A card file never lands in the sprite cache. */
  lemma CardPathNotSpritePath(c: string, k: string)
    ensures CardPath(c) != SpritePath(k)
  {
    assert CardPath(c)[7] == 'c' && SpritePath(k)[7] == 's';
  }

  /** ensure_sprite: returns the cache id of (spriteId, url), fetching the
      url into the cache only when its file is absent, and raising when that
      fetch does not answer 200. */
  function EnsureSpriteSpec(env: Env, st: Store, spriteId: string, url: string): (r: Run<string>)
    // the id does not depend on the store, and a success leaves the sheet cached
    ensures r.result.Ok? ==> r.result.value == SpriteKey(spriteId, env.digest(url))
    ensures r.result.Ok? ==> SpritePath(SpriteKey(spriteId, env.digest(url))) in r.store.files
    // a cached sheet is used as it is: no fetch, no write
    ensures SpritePath(SpriteKey(spriteId, env.digest(url))) in st.files ==> r == Run(st, Ok(SpriteKey(spriteId, env.digest(url))))
    // otherwise exactly one fetch, of url
    ensures SpritePath(SpriteKey(spriteId, env.digest(url))) !in st.files ==> r.store.fetches == st.fetches + [url]
    // a failure is exactly a non-200 answer, and writes nothing
    ensures r.result.Err? <==> SpritePath(SpriteKey(spriteId, env.digest(url))) !in st.files && env.fetch(url).status != 200
    ensures r.result.Err? ==> r.result.error == DownloadFailed(url) && r.store.files == st.files
    // a fetched sheet is stored as the response body, verbatim
    ensures r.result.Ok? && SpritePath(SpriteKey(spriteId, env.digest(url))) !in st.files ==>
              r.store.files == st.files[SpritePath(SpriteKey(spriteId, env.digest(url))) := Downloaded(env.fetch(url).body)]
    // at most the one cache file is added, and nothing is changed
    ensures Extends(st.files, r.store.files)
    ensures r.store.files.Keys <= st.files.Keys + {SpritePath(SpriteKey(spriteId, env.digest(url)))}
    ensures st.fetches <= r.store.fetches
  {
    var key := SpriteKey(spriteId, env.digest(url));
    var path := SpritePath(key);
    if path in st.files then Run(st, Ok(key))
    else
      var response := env.fetch(url);
      var fetched := st.fetches + [url];
      if response.status == 200 then Run(Store(st.files[path := Downloaded(response.body)], fetched), Ok(key))
      else Run(Store(st.files, fetched), Err(DownloadFailed(url)))
  }

  /** Calling ensure_sprite again after it succeeded fetches nothing and
      changes nothing. */
  lemma EnsureSpriteIdempotent(env: Env, st: Store, spriteId: string, url: string)
    requires EnsureSpriteSpec(env, st, spriteId, url).result.Ok?
    ensures var r := EnsureSpriteSpec(env, st, spriteId, url);
            EnsureSpriteSpec(env, r.store, spriteId, url) == r
  {
  }

  /** extract_card: when the card file is absent, crops cell `idx` of the
      cached sheet `key` into it, rotated when `rotate` is set; when it is
      present, does nothing at all.  A cell less than one pixel wide or high
      cannot be saved as an image, so it raises and writes nothing. */
  function ExtractCardSpec(env: Env, st: Store, cardId: string, key: string, idx: nat, cols: nat, rows: nat, rotate: bool): (r: Run<()>)
    ensures CardPath(cardId) in st.files ==> r == Run(st, Ok(()))
    ensures r.store.fetches == st.fetches
    ensures r.result.Err? ==> r.store == st
    ensures r.result.Ok? ==> CardPath(cardId) in r.store.files
    // a new card file is the crop of the sheet's cell, and the only change
    ensures r.result.Ok? && CardPath(cardId) !in st.files ==>
              && SpritePath(key) in st.files
              && SheetSize(env, st.files[SpritePath(key)]).Some?
              && cols > 0 && rows > 0
              && CellRect(idx, cols, rows, SheetSize(env, st.files[SpritePath(key)]).value).w > 0
              && CellRect(idx, cols, rows, SheetSize(env, st.files[SpritePath(key)]).value).h > 0
              && r.store.files == st.files[CardPath(cardId) :=
                   Cropped(key, CellRect(idx, cols, rows, SheetSize(env, st.files[SpritePath(key)]).value), rotate)]
    // the errors, in the order Python meets them
    ensures r.result == Err(SheetMissing(SpritePath(key))) <==> CardPath(cardId) !in st.files && SpritePath(key) !in st.files
    ensures r.result == Err(SheetUndecodable(SpritePath(key))) <==>
              CardPath(cardId) !in st.files && SpritePath(key) in st.files && SheetSize(env, st.files[SpritePath(key)]).None?
    ensures r.result == Err(ZeroGrid) <==>
              && CardPath(cardId) !in st.files && SpritePath(key) in st.files
              && SheetSize(env, st.files[SpritePath(key)]).Some? && (cols == 0 || rows == 0)
    ensures r.result == Err(EmptyCell) <==>
              && CardPath(cardId) !in st.files && SpritePath(key) in st.files
              && SheetSize(env, st.files[SpritePath(key)]).Some? && cols > 0 && rows > 0
              && (CellRect(idx, cols, rows, SheetSize(env, st.files[SpritePath(key)]).value).w == 0
                  || CellRect(idx, cols, rows, SheetSize(env, st.files[SpritePath(key)]).value).h == 0)
    ensures Extends(st.files, r.store.files)
  {
    var out := CardPath(cardId);
    var src := SpritePath(key);
    if out in st.files then Run(st, Ok(()))
    else if src !in st.files then Run(st, Err(SheetMissing(src)))
    else match SheetSize(env, st.files[src])
      case None => Run(st, Err(SheetUndecodable(src)))
      case Some(size) =>
        if cols == 0 || rows == 0 then Run(st, Err(ZeroGrid))
        else
          var box := CellRect(idx, cols, rows, size);
          if box.w == 0 || box.h == 0 then Run(st, Err(EmptyCell))
          else Run(st.(files := st.files[out := Cropped(key, box, rotate)]), Ok(()))
  }

  /** A card written sideways has the cell's width and height swapped. */
  lemma ExtractSideways(env: Env, st: Store, cardId: string, key: string, idx: nat, cols: nat, rows: nat)
    requires CardPath(cardId) !in st.files
    requires ExtractCardSpec(env, st, cardId, key, idx, cols, rows, true).result.Ok?
    ensures var upright := ExtractCardSpec(env, st, cardId, key, idx, cols, rows, false);
            var sideways := ExtractCardSpec(env, st, cardId, key, idx, cols, rows, true);
            && upright.result.Ok?
            && SheetSize(env, sideways.store.files[CardPath(cardId)]).Some?
            && SheetSize(env, sideways.store.files[CardPath(cardId)]).value
               == Size(SheetSize(env, upright.store.files[CardPath(cardId)]).value.height,
                       SheetSize(env, upright.store.files[CardPath(cardId)]).value.width)
  {
  }
}
