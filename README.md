# BANI mask inserter, modelled in Dafny

The BANI Mask Images Inserter is a browser tool. It takes BANI animation
files, which are JSON documents with the `.bani` extension, and adds a mask
image over every 48x48 head sprite. This project models the tool's core,
`main.js`, and proves properties of that model:

- **Relaxed parsing** (`parseJSON`): a comma and the white space after it
  are deleted when `]` or `}` follows, before the text is parsed. This is
  `CommaStrip.StripTrailingCommas`.
- **Validation** (`validateBaniFile`, `checkProperties`): thirteen required
  keys are checked in a fixed order: six at top level, four in `options`,
  three in `defaults`. The first missing key is reported. After that,
  `options.blockingbounds` must be a four-element array and `sprites` must
  be an object. This is `Validator.Validate`.
- **Per-document preparation**, in the class `Document.BaniDocument`. Each
  loaded document is changed in place:
  - `defaults.MASK` gets a default image name if it is falsy;
  - `online` is set to 2;
  - four MASK sprites are written into the sprite table (`createMaskSprites`);
  - masks are placed over the heads (`updateFramesWithMasks`);
  - the stored file name is computed (`FileName.UpdatedFileName`).
- **Mask sprites** (`MaskSprites`). The sprites are created in the order down,
  up, right, left. The i-th one gets the key `String(size of the sprite table
  + i)`, where the size is read after the earlier insertions. Nothing checks
  whether a key is taken, so an existing sprite can be overwritten.
- **Mask placement** (`HeadMasks` for the first pass, `MaskPlacement` for the
  second).
  - The first pass scans each frame's direction lists. They are stored as
    `[up, left, down, right]` and scanned in the order down, up, left, right.
    For every 48x48 HEAD sprite it records the mask position: an offset that
    depends on the scan index, at most one entry per frame and position.
  - If nothing was recorded, this is reported as a flag and the frames stay
    unchanged.
  - Otherwise the second pass appends `[maskKey, x, y]` to the entry's own
    list in its own frame, unless that list already holds something at
    `(x, y)`.

The two list orders are separate constants, `BaniModel.StorageOrder` and
`BaniModel.ScanOrder`. A `headCoords` entry stores its frame's index in
`data.frames`. The source compares frame objects instead; `JSON.parse`
creates a distinct object per frame, so the two identify the same frame.

Some consequences of `main.js` as written:

- The second required top-level key is spelled `modificatedDate`.
- Mask keys are `String(|sprites| + i)` and are not checked against keys
  already taken. For a table whose only sprite is a head under "5", the third
  mask sprite is written under "5". The head is gone, so no entry is recorded
  and no mask is placed (`MaskSprites.KeyReuseOverwrites`,
  `Document.EndToEndKeyCollision`). With the head under "0"
  (`Document.EndToEndWithFreeKeys`), the masks get keys 1, 3, 5 and 7 and the
  down list gains `["1", 10, -6]`.
- The stored name replaces the first occurrence of ".bani" anywhere in the
  name, case-sensitively. It is not a trailing extension.
- When no head is found, the document is still stored, with its mask sprites.

## Model

| member | source | states |
|---|---|---|
| CommaStrip.StripTrailingCommas | main.js:29 | `replace(/,\s*([\]}])/g, '$1')`: the result is never longer than the text; its exact effect is stated by the lemmas below |
| CommaStrip.SkipSpaces | main.js:29 | the greedy `\s*` stops at the first character that is not JavaScript white space, having passed only white space |
| CommaStrip.StripDeletesOnlyCommasAndSpaces | main.js:29 | the pre-pass output is the input with some commas and white-space characters deleted and nothing else changed |
| CommaStrip.StripKeepsEssentials | main.js:29 | every character that is neither a comma nor white space survives the pre-pass, in its order |
| CommaStrip.StripWithoutMatchIsIdentity | main.js:29 | text with no comma-before-closer match is returned unchanged |
| CommaStrip.StripWithMatchShortens | main.js:29 | a match anywhere makes the result strictly shorter than the input |
| CommaStrip.StripChangesIffMatch | main.js:29 | the pre-pass changes the text if and only if the pattern `,\s*[\]}]` occurs in it |
| CommaStrip.SinglePassOnDoubleComma | main.js:29 | a single global replace turns ",,]" into ",]", because matches do not overlap; a second replace is needed to reach "]" |
| CommaStrip.StripsSpacedTrailingComma | main.js:29 | the white space between the comma and the closer is removed with it: "[1, \n]" becomes "[1]" |
| Decimal.NatToString | main.js:100 | `toString()` of a non-negative integer: at least one digit, only digits, no leading zero |
| Decimal.ValueOfNatToString | main.js:100 | reading the numeral back gives the number, so the key names the number it came from |
| Decimal.NatToStringInjective | main.js:100 | different numbers give different keys |
| Json.Truthy | main.js:45 | JavaScript truthiness: null is falsy, and every object and array is truthy, even an empty one |
| Json.Element | main.js:124 | `bounds[2]` on an array is defined exactly for an index inside it, and on values other than arrays, objects and strings is undefined |
| Validator.HasOwnProperty | main.js:52 | `obj.hasOwnProperty(prop)` throws a `TypeError` exactly when the container is null or shadows `hasOwnProperty`; otherwise it is true exactly when prop is an own key of an object |
| Validator.CheckProperties | main.js:50-56 | passes if and only if every property is an own key of the object (for arrays and strings, an own key as the model's `HasOwnProperty` defines it). Otherwise it fails at the first property that is not: `MissingProperty(prefix + prop)` when `hasOwnProperty` can be called, and a `TypeError` when the container is null or shadows `hasOwnProperty` |
| Validator.Validate | main.js:32-48 | an accepted document is an object with all six top-level keys, a four-element `options.blockingbounds` array and a truthy object or array under `sprites`; the converse and the error order are in the lemmas below |
| Validator.CheckTop | main.js:33-37 | the top-level check passes if and only if all six top-level keys are present |
| Validator.CheckOptions | main.js:34-38 | once the top-level keys exist, the options check passes if and only if its four keys are present |
| Validator.CheckDefaults | main.js:35-39 | once the top-level keys exist, the defaults check passes if and only if its three keys are present |
| Validator.ValidateWhenAllPresent | main.js:41-47 | with every key present, validation gives `InvalidBlockingBounds`, then `InvalidSprites`, or success |
| Validator.ValidateWhenSomeMissing | main.js:37-39 | if any required key is absent, validation fails with a missing-property or type error before any shape check |
| Validator.ValidateAcceptsExactly | main.js:32-48 | a document is accepted if and only if all thirteen keys are present, `options.blockingbounds` is a four-element array, and `sprites` is a truthy object or array |
| Validator.CheckFailsAtFirst | main.js:50-56 | with the first k properties present and the k-th absent, `checkProperties` reports the k-th, or a `TypeError` when the container cannot be asked |
| Validator.FirstFailureIsReported | main.js:32-39 | validation fails at the first of the thirteen paths, in the fixed order, that is not present |
| Validator.FirstMissingIsReported | main.js:32-39 | the first absent path, in the fixed order, is the one named in the error |
| Validator.ReportedMissingIsFirst | main.js:32-39 | a reported missing path is absent, and every path checked before it is present |
| Validator.FirstNotPresent | main.js:32-39 | when some required path is not present, there is a first one in the fixed checking order |
| Validator.ShapeErrors | main.js:41-47 | `InvalidBlockingBounds` if and only if every key is present and blockingbounds is not a four-element array; `InvalidSprites` if and only if, in addition, blockingbounds is fine but `sprites` is not an object |
| Validator.MissingCenterIsReported | main.js:34-38 | removing `options.center` from a valid document makes validation report `MissingProperty("options.center")` |
| BaniModel.StorageIndex | main.js:117 | each direction's list is at the position `[up, left, down, right]` gives it |
| BaniModel.IsHeadSprite | main.js:123-124 | `sprite?.gfx === "HEAD" && sprite.bounds && sprite.bounds[2] === 48 && sprite.bounds[3] === 48`: a head is an object with `bounds`, which is an object or an array of at least four elements |
| BaniModel.IsMaskableHead | main.js:123-124 | `data.sprites[spriteId]` is such a head; an id that is not in the table is never one |
| MaskSprites.MaskSprite | main.js:90-105 | the sprite written for each direction, built from the bounds table; its shape is stated by `MaskSpriteShape` |
| MaskSprites.KeyAt | main.js:100 | the key `(Object.keys(data.sprites).length + index).toString()`; what it denotes is stated by `ChosenKeyAt` and `KeysIncrease` |
| MaskSprites.SpritesAfter | main.js:99-107 | the table after k insertions keeps every old key and has between |s| and |s| + k entries |
| MaskSprites.ChosenKeys | main.js:99-106 | one key per insertion; `ChosenKeyAt` says which key each insertion uses |
| MaskSprites.MaskSpriteShape | main.js:90-105 | each mask sprite has exactly the fields `gfx` = MASK and `bounds` = its direction's bounds, plus `scale` = `[-1, 1]` on the left one only; none is a 48x48 head |
| MaskSprites.ChosenKeyAt | main.js:99-100 | the i-th key is the numeral of the table size after i insertions plus i, and later insertions do not change it |
| MaskSprites.SizeMonotone | main.js:100-101 | the sprite table never shrinks while the masks are inserted |
| MaskSprites.KeysIncrease | main.js:99-106 | the four keys are numerals of strictly increasing numbers, so they are pairwise distinct |
| MaskSprites.EntryKept | main.js:101-105 | a mask sprite written under a key is still there after the later insertions |
| MaskSprites.KeptByStep | main.js:100-101 | a later insertion writes under a different key, so an existing entry written earlier survives it |
| MaskSprites.StepSize | main.js:100-101 | one insertion grows the table by one exactly when its key was free, and leaves the size alone when it overwrites |
| MaskSprites.MaskEntries | main.js:99-106 | after creation each returned key holds its direction's mask sprite, whatever was stored there before |
| MaskSprites.OthersUntouchedAfter | main.js:99-107 | after k insertions the table's keys are the old keys plus the chosen ones, and every unchosen old entry is unchanged |
| MaskSprites.OthersUntouched | main.js:99-107 | no entry is removed, and every entry whose key was not chosen keeps its value |
| MaskSprites.FreshKeys | main.js:100 | when the numerals of size+0, size+2, size+4 and size+6 are all free, those are the four keys and the table grows by four |
| MaskSprites.KeyReuseOverwrites | main.js:100-101 | for a table with keys 0, 1 and 5, the up mask is written under "5", overwriting that sprite, and the table grows by three, not four |
| HeadMasks.MaskPosition | main.js:128-141 | for a scan index below 4 the mask is 10 to 16 pixels above the head and at most one pixel to either side; otherwise it is at the head's position |
| HeadMasks.OffsetFollowsScanOrder | main.js:119-141 | the offset for scan index i is the offset of direction `[down, up, left, right][i]`: down (0,-16), up (0,-10), left (-1,-15), right (+1,-15) |
| HeadMasks.Record | main.js:143-147 | `find` then `push`: `headCoords` only grows, by at most one entry, and afterwards holds an entry at the offered frame and position |
| HeadMasks.RecordAll | main.js:143-147 | offering entries in turn keeps the start of `headCoords` and adds at most one entry per offer |
| HeadMasks.Dedup | main.js:143-147 | the de-duplicated list is no longer than the offers |
| HeadMasks.Candidates | main.js:113-151 | there are at most as many recorded entries as head placements; the Candidates lemmas below give their meaning |
| HeadMasks.RecordNextFrame | main.js:115-150 | recording frame f after the frames before it is recording the first f + 1 frames |
| HeadMasks.RecordListHeads | main.js:120-149 | scanning one list offers each of its 48x48 heads' entries, in list order, to the `headCoords` it was given, adding an entry only when its frame and position are not yet taken |
| HeadMasks.RecordFrameHeads | main.js:117-150 | scanning a frame's four lists in scan order offers that frame's head entries to `headCoords` in the order down, up, left, right |
| HeadMasks.RecordAllConcat | main.js:115-150 | offering one batch of entries and then another leaves `headCoords` as offering both in one go, so the per-list and per-frame scans compose into the whole pass |
| HeadMasks.CollectHeadCoords | main.js:113-151 | the first pass yields exactly `Candidates`: the de-duplicated entries of all heads, in scan order |
| HeadMasks.ListHitsExactly | main.js:120-124 | a list yields an entry exactly for each placement of a 48x48 head in it |
| HeadMasks.FrameHitsExactly | main.js:117-124 | a frame's first k scanned lists yield exactly the entries of the heads placed in them |
| HeadMasks.HitsExactly | main.js:115-151 | the scan's entries are exactly those of the 48x48 heads placed anywhere in the document |
| HeadMasks.ListHitsShape | main.js:119-146 | every entry from a list carries that list's frame and scan index |
| HeadMasks.FrameHitsShape | main.js:119-146 | a frame's entries carry its index and a scan index below k, in scan order |
| HeadMasks.HitsShape | main.js:115-151 | all entries carry a scan index below 4 and come in frame-then-direction order |
| HeadMasks.DedupFirstAt | main.js:143-147 | when an entry was kept for a spot, it was offered no later than any other offer at that spot |
| HeadMasks.DedupFacts | main.js:143-147 | de-duplication keeps only offered entries and covers every offered position. No two kept entries share a frame and a position, and each kept entry comes no later than any other offer at its spot |
| HeadMasks.CandidatesSound | main.js:113-151 | every recorded entry is the entry of a head, in the list scanned at its direction index of its frame |
| HeadMasks.CandidatesComplete | main.js:113-151 | every head placement has a recorded entry at the same frame and mask position |
| HeadMasks.CandidatesUnique | main.js:143-147 | no two recorded entries share a frame and a mask position |
| HeadMasks.CandidatesFirstInScanOrder | main.js:119-147 | of several heads wanting one spot, the entry kept has the smallest scan index |
| HeadMasks.NoCandidatesIffNoHeads | main.js:153-156 | nothing is recorded if and only if no frame holds a 48x48 head |
| MaskPlacement.PlaceOne | main.js:163-172 | one entry keeps the number of lists and only appends, at most one placement per list |
| MaskPlacement.PlaceAll | main.js:162-174 | offering entries never changes the number of direction lists of a frame |
| MaskPlacement.Placed | main.js:158-175 | the second pass keeps the number of frames, and every frame still has at least four lists |
| MaskPlacement.PlaceFrameMasks | main.js:160-174 | the if-chain over `headCoords` for one frame computes the frame's lists as specified by `PlaceAll` |
| MaskPlacement.PlaceOneCases | main.js:163-172 | one entry leaves every list alone, or appends its mask to its own list of its own frame when that position is free there |
| MaskPlacement.PlaceAllAppends | main.js:158-175 | lists are only appended to. Every appended placement is the mask of an entry of that frame aimed at that list, at a position no earlier placement in the list holds |
| MaskPlacement.PlaceAllCovers | main.js:162-174 | afterwards every entry of the frame has its mask position taken in its own list |
| MaskPlacement.PlaceAllCoveredIsIdentity | main.js:164-171 | if every entry's position is already taken, nothing is appended |
| MaskPlacement.PlacedIdempotent | main.js:158-175 | a second placement pass with the same entries, whatever the mask keys, leaves the frames as the first pass left them |
| MaskPlacement.MaskPushedWhereFree | main.js:164-171 | an entry whose position was free gets exactly `[key of its direction, maskX, maskY]` in its list |
| MaskPlacement.ListHitsIgnoresNonHeads | main.js:120-124 | appending placements that are not 48x48 heads adds no entry to the scan |
| MaskPlacement.SecondRunAddsNothing | main.js:112-176 | running `updateFramesWithMasks` again on its own output, with the same sprites, finds the same entries and appends nothing |
| FileName.UpdatedFileName | main.js:78 | the stored name is as long as the loaded one, or eight characters longer when ".bani" became "_updated.bani" |
| FileName.FindFrom | main.js:78 | returns the first occurrence of the pattern at or after the start, and None only if there is none |
| FileName.ReplacesFirstOccurrence | main.js:78 | the name is cut at the first ".bani" and "_updated.bani" is put in its place |
| FileName.UnchangedIffNoExtension | main.js:78 | the stored name equals the loaded name if and only if it contains no ".bani" |
| FileName.UpdatedNameParts | main.js:78 | the text before and after the replaced ".bani" is kept |
| FileName.FirstOccurrenceOnly | main.js:78 | "a.bani.bani" is stored as "a_updated.bani.bani" |
| FileName.CaseSensitive | main.js:78 | "HERO.BANI" is stored under its own name |
| Document.DefaultedMask | main.js:67-69 | afterwards `defaults.MASK` is truthy. A truthy value is kept as it was, an absent or falsy one becomes "bbuilder_enueanbumask.png", and every other key of `defaults` is unchanged |
| Document.BaniDocument.CreateMaskSprites | main.js:89-110 | the loop writes the table `SpritesAfter(old, 4)` and returns the keys chosen in the order down, up, right, left |
| Document.BaniDocument.PlaceMasks | main.js:158-175 | the second pass turns the frames into `Placed(old frames, keys, entries)` |
| Document.BaniDocument.UpdateFramesWithMasks | main.js:112-176 | the flag is set if and only if a head entry exists. Without one the frames are unchanged; with one they are the placed frames |
| Document.BaniDocument.MarkForServer | main.js:67-71 | `defaults` becomes `DefaultedMask` of the old one and `online` is set to 2, nothing else changes |
| Document.BaniDocument.Prepare | main.js:66-78 | defaults the mask, sets `online` to 2, creates the sprites, places masks using the new sprite table, and names the file |
| Document.MaskKeysAreNotHeads | main.js:99-124 | after creation no returned key names a 48x48 head in the new sprite table |
| Document.PreparedFramesAreStable | main.js:73-176 | after preparation, another mask placement with any keys finds the same entries and adds nothing |
| Document.OneHeadFrameHits | main.js:117-141 | a single head at (10, 10) in the down list of a frame is found once, at scan index 0, with the mask position (10, -6) |
| Document.OneHeadCandidates | main.js:119-147 | a single head at (10, 10) in the down list yields one entry, at (10, -6) in frame 0 |
| Document.EndToEndWithFreeKeys | main.js:66-78 | with a lone head under "0", the masks get keys 1, 3, 5 and 7, and the down list becomes the head followed by `["1", 10, -6]` |
| Document.CollidingKeys | main.js:99-106 | for a table holding only "5", the keys are 1, 3, 5 and 6, and "5" ends up holding the right mask |
| Document.EndToEndKeyCollision | main.js:66-106 | with a lone head under "5", the head is overwritten, so no entry is recorded and no mask is placed |

## Left out

- Reading files, `FileReader`, alerts, console output, the zip archive, the
  `Blob`, the download link, and the session arrays `baniData` and
  `filenames` are left out. The "No BANI files loaded" notice goes with them.
  `Prepare` models the body run for one document, with its file name as a
  parameter.
- `JSON.parse` and `JSON.stringify` are left out. A parse error, the 4-space
  pretty-printing and the order of keys in the output are not modelled.
  Decoding the parsed value into the typed document (`BaniDocument` fields,
  `Frame`, `SpriteRef`) is also left out.
- Numbers are integers. Fractional coordinates, `NaN` and floating-point
  arithmetic are not modelled.
- A placement is `[string id, x, y]`. A numeric sprite id, which JavaScript
  turns into a property key, and a placement with missing or extra elements
  are not modelled. Lookups that reach inherited properties (`constructor`
  and the like) are never HEAD sprites, so they are treated as missing keys.
- The sprite table is a string-keyed object. Validation also accepts an
  array there, but preparing a document with an array sprite table is not
  modelled.
- A frame holds only its direction lists. Its other members are never read
  or written.
- Document.BaniDocument.UpdateFramesWithMasks requires every frame to have
  at least four direction lists. In the source, a frame without
  `directions`, or with fewer than four lists, makes the destructuring or
  the `forEach` throw. That throw is not modelled. It escapes
  `baniData.forEach` in `downloadBaniFile`, so it ends the whole download:
  later documents are not processed and no archive is produced.
- A document without a `frames` array is not modelled. Validation does not
  check `frames`, so such a document is accepted, and `data.frames.forEach`
  then throws after `defaults.MASK`, `online` and the four mask sprites
  have been written, ending the whole download as above. `BaniDocument`
  always holds a sequence of frames, so this path cannot be represented.
- Document.BaniDocument.Prepare requires four direction lists in every
  frame, for the same reason. `defaults` is an object here; `defaults` as a
  primitive or null is not modelled.
- Validator.HasOwnProperty answers false for every array, string, number
  and boolean. JavaScript answers true for `"length"` and for an index of an
  array or a string. None of the required property names is such a key, so
  validation is unaffected.
- HeadMasks.CollectHeadCoords records a frame's index where the source
  records the frame object. The two coincide because parsed frames are
  distinct objects, so aliasing between frames is not modelled.
