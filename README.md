# Player-card export, modelled in Dafny

The script `main.py` reads a game-table manifest. It finds the object named
"All Player Cards", and for each child tagged `PlayerCard` it writes the card
image `./data/cards/<id>.png`. A card with a unique back also gets
`./data/cards/<id>b.png`. Each image is cut out of a sprite sheet. Sheets are
downloaded once into `./data/sprite_cache/<deck id>_<sha1 of url>.jpg`. Both
kinds of file are written only when they are absent.

The model has two layers:

- Specification functions on a file `Store`: a map from path to `File`, plus
  the log of URLs fetched. They give the whole behaviour: the cells of a sheet
  (`Geometry`), the grid index (`CardIndex`), the manifest (`Manifest`) and the
  two existence-gated writes (`Cache`). `Export` holds the per-card and
  per-manifest driving logic. Lemmas prove the properties about them.
- The class `Workspace.Workspace`, whose fields are the file map and the
  fetch log. Its four methods follow the script's four procedures statement by
  statement. Each method is proved to have exactly its spec function's effect.

The collaborators the script calls are fields of `Cache.Env`:

- SHA-1, left uninterpreted apart from its output shape of 40 hex digits;
- the HTTP GET, a function from URL to status and body;
- PIL's reading of an image size, which gives `None` for bytes that are not an
  image.

The script catches no exception, so a failing card ends the loop and leaves in
place the files written before it. Each exception of the modelled part is an
`Errors.Error` value: a failed download, a missing or unreadable sheet, a zero
grid, an empty cell, an empty index literal, an empty `CustomDeck` and a
missing root. The empty-cell error stands for what saving a 0-pixel image
does in the imaging library, which is outside the model.

Facts about `main.py` that the model makes explicit:

- The grid index is `int(str(CardID).removeprefix(deck id))`, not the last two
  digits of CardID. The deck id is the first key of `CustomDeck`.
  `CardIndex.GridIndexLastTwoDigits` shows the two agree when CardID is
  `deck * 100 + k`.
- Cell sizes use integer division. A 300 by 200 sheet with 3 columns and 2
  rows has 100 by 100 cells, so cell 4 is (100, 100) to (200, 200). 100 by 66
  cells need 3 rows, and then cell 4 is (100, 66) to (200, 132)
  (`Geometry.ExampleSheets`).
- An existing card PNG does not stop its sheet from being downloaded.
  `save_player_card` calls `ensure_sprite` before `extract_card` checks for
  the output file (`Export.CardPresentSheetStillFetched`).
- Only the direct children of "All Player Cards" are visited, with no
  recursion into nested containers. The back sheet is fetched only when
  `UniqueBack` is set. Nothing guards a single card, so its error ends the run.

## Model

| member | source | states |
|---|---|---|
| Geometry.CellRect | main.py:39-43 | the cell extent is exactly width/cols by height/rows, and the whole cols by rows grid of cells fits in the sheet |
| Geometry.CellInBounds | main.py:39-43 | for cols, rows > 0 and idx < cols*rows the crop box lies within [0,width] by [0,height] |
| Geometry.CellsDisjoint | main.py:41-43 | two different cell indices never give crop boxes that share a pixel |
| Geometry.RowMajor | main.py:41-42 | the cell in column col of row row has index row*cols+col < cols*rows, the index gives back (idx%cols, idx/cols), and its box starts at (col*w, row*h) |
| Geometry.ExampleSheets | main.py:39-43 | 300x200 sheet: 3x2 grid gives cell 4 = (100,100)-(200,200); 3x3 grid gives cell 4 = (100,66)-(200,132) |
| Geometry.OutputSize | main.py:44-45 | rotate(90, expand=True), abstracted to its effect on size: a rotated card has the cell's width and height swapped, an upright one keeps them |
| Geometry.EmptyCellIff | main.py:39-40 | a cell is 0 pixels wide or high exactly when the sheet is narrower than NumWidth or lower than NumHeight |
| CardIndex.Decimal | main.py:53 | str() of a natural number is a non-empty digit string with no leading zero, one digit exactly below 10 |
| CardIndex.RemovePrefix | main.py:53 | removeprefix: the prefix followed by the result is the input when the prefix is there, otherwise the input is returned as is |
| CardIndex.GridIndex | main.py:53 | int() of what is left fails (ValueError) exactly when the deck id is the whole CardID text |
| CardIndex.DecimalRoundTrip | main.py:53 | reading back the decimal text of n gives n |
| CardIndex.GridIndexWithoutPrefix | main.py:53 | when the deck id is not a prefix of the CardID text the grid index is CardID itself |
| CardIndex.GridIndexLastTwoDigits | main.py:53 | for CardID = deck*100+k with k < 100 and deck id str(deck) the grid index is k |
| Manifest.FindRootIndex | main.py:69-71 | the position of the first object state named "All Player Cards", or none when no object has that name |
| Manifest.PlayerCards | main.py:73 | a card is selected exactly when it is a child and carries the PlayerCard tag |
| Manifest.PlayerCardsAppend | main.py:73 | the filter keeps list order: selecting from a+b gives the selection of a followed by that of b |
| Cache.SpriteKey | main.py:17-18 | the cache id starts with the sprite id and an underscore and is 41 characters longer (the 40-digit hex digest follows) |
| Cache.SpritePath | main.py:20 | the sheet file lies under ./data/sprite_cache/ and its name is the cache id plus a 4-character extension |
| Cache.CardPath | main.py:35 | the card file lies under ./data/cards/ and its name is the card id plus a 4-character extension |
| Cache.SpriteKeyInjective | main.py:17-18 | the cache id sprite_id_digest determines both the sprite id and the digest |
| Cache.SpritePathInjective | main.py:20 | different cache ids give different sheet files |
| Cache.CardPathInjective | main.py:35 | different card ids give different card files |
| Cache.CardPathNotSpritePath | main.py:20-35 | a card file path is never a sprite cache path |
| Cache.EnsureSpriteSpec | main.py:16-31 | returns sprite_id_digest(url); a cached sheet causes no fetch and no change; otherwise exactly one fetch of url; a 200 answer adds exactly the cache file holding the response body; a non-200 answer raises and writes nothing; no existing file changes |
| Cache.EnsureSpriteIdempotent | main.py:22-27 | after a successful call a second call with the same arguments fetches nothing and changes nothing |
| Cache.ExtractCardSpec | main.py:34-46 | an existing card file leaves the store unchanged; otherwise exactly the card file is added, holding the non-empty crop of cell idx of the cached sheet, rotated iff rotate; a missing sheet, an undecodable sheet, a zero grid and an empty cell each raise exactly in their case and change nothing; no fetch |
| Cache.ExtractSideways | main.py:44-46 | writing the same cell sideways gives an image with width and height swapped |
| Export.SavePlayerCardSpec | main.py:49-63 | saving a card changes no existing file, creates only its face and back sheets and card files, and on success leaves all of them on disk; an empty CustomDeck raises before anything happens |
| Export.SkipDone | main.py:58-63 | a card whose files are all present is skipped: no fetch, no write, success |
| Export.NoBackWithoutUniqueBack | main.py:61-63 | without UniqueBack only the face sheet and face card may be created, the back file's presence is unchanged, and only the face URL may be fetched |
| Export.BackIffUniqueBack | main.py:58-63 | after a successful save the face file exists, and the back file exists iff UniqueBack holds or it existed before |
| Export.SavedFaceCrop | main.py:53-59 | a newly written face file is the crop of the derived grid index on the face sheet, with NumWidth and NumHeight and rotated iff SidewaysCard |
| Export.SavedBackCrop | main.py:61-63 | a newly written back file is the crop of the same grid index, grid and rotation on the back sheet |
| Export.FrontBackCachedApart | main.py:58-62 | the back sheet has its own cache file (deck id + "b"), even when both faces share a URL |
| Export.CardPresentSheetStillFetched | main.py:58-59 | an existing face PNG does not prevent the fetch of a face sheet that is not cached: the next fetch is of FaceURL |
| Export.SharedDeckFetchedOnce | main.py:58-62 | after one card of a deck was saved, saving another card of the same deck fetches nothing |
| Export.SaveCardsSpec | main.py:73-74 | the loop changes no existing file, creates only files of the listed cards, and on success leaves every listed card done |
| Export.SaveCardsAppend | main.py:73-74 | cards are saved in list order: saving a+b saves a, then b only if a succeeded |
| Export.SaveCardsIdempotent | main.py:73-74 | when every card is done, the loop fetches nothing, writes nothing and succeeds |
| Export.SavePlayerCardsSpec | main.py:66-74 | fails with the missing-root error exactly when no object state is named "All Player Cards", and then changes nothing; never changes an existing file |
| Export.OnlyTaggedChildren | main.py:69-74 | every file a run creates belongs to a PlayerCard-tagged child of the root |
| Export.RunTwice | main.py:66-74 | running the export again after a successful run fetches nothing, writes nothing and succeeds |
| Workspace.Workspace.EnsureSprite | main.py:16-31 | new files, fetch log and result are exactly those of EnsureSpriteSpec on the old state |
| Workspace.Workspace.ExtractCard | main.py:34-46 | new files and result are exactly those of ExtractCardSpec on the old state |
| Workspace.Workspace.SavePlayerCard | main.py:49-63 | new files, fetch log and result are exactly those of SavePlayerCardSpec on the old state |
| Workspace.Workspace.SavePlayerCards | main.py:66-74 | the loop over the tagged children has exactly the effect of SavePlayerCardsSpec on the old state |

## Left out

- HTTP transport (`requests.get`, `shutil.copyfileobj`): the fetch is a function from URL to status and body. So the model does not capture that two fetches of one URL could answer differently. A connection error that `requests.get` raises instead of answering is not modelled either.
- SHA-1: the digest is an uninterpreted function whose result is 40 lower-case hex digits. Its cryptographic properties are not used.
- PIL decode, crop, rotate and encode: a card file records the sheet id, the crop box and the rotation, not pixels. A box past the sheet edge, which PIL pads, is recorded the same way. Saving a 0-pixel crop is taken to raise (the empty-cell error); the library itself is not modelled. Decoding gives a size or nothing: other library errors are not modelled.
- Float division in `int(im.width / cols)` and `math.floor(idx / cols)` is natural-number division. Float rounding for huge sizes is not modelled.
- `NumWidth`, `NumHeight` and `CardID` are natural numbers. Negative values in the JSON are not modelled; a zero grid size is modelled as the division error.
- JSON parsing of the manifest and of `GMNotes`: the parsed `id` is a field of the node. Malformed JSON, a missing key and a non-integer `CardID` are not modelled.
- `ensure_dir` and `main` (argument handling, opening the manifest) are directory and command-line plumbing.
- A failed or interrupted write of a file is not modelled: every write completes.
