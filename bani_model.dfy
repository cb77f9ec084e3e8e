/** The typed parts of a BANI document that the mask transformation reads
    and writes: frames of four direction lists of sprite placements, the
    two orders those lists are visited in, and the head-sprite test. */
module BaniModel {
  import opened Json

  datatype Direction = Up | Left | Down | Right

  /** The order of a frame's direction lists: `[up, left, down, right]`. */
  const StorageOrder: seq<Direction> := [Up, Left, Down, Right]

  /** The order the head scan visits them in; a list's position here is
      its direction index, which picks the mask offset and the mask key. */
  const ScanOrder: seq<Direction> := [Down, Up, Left, Right]

  /** Where a direction's list sits in a frame. */
  function StorageIndex(d: Direction): (i: nat)
    ensures i < 4 && StorageOrder[i] == d
  {
    match d
    case Up => 0
    case Left => 1
    case Down => 2
    case Right => 3
  }

  /** A placement `[spriteKey, x, y]` in a direction list. */
  datatype SpriteRef = SpriteRef(id: string, x: int, y: int)

  /** A frame; only its direction lists are read or written. */
  datatype Frame = Frame(directions: seq<seq<SpriteRef>>)

  /** Every frame has at least the four lists the destructuring reads. */
  predicate HasFourDirections(frames: seq<Frame>) {
    forall f :: 0 <= f < |frames| ==> |frames[f].directions| >= 4
  }

  /** The list the scan visits at direction index `scan`. */
  function ScannedList(frame: Frame, scan: nat): seq<SpriteRef>
    requires |frame.directions| >= 4 && scan < 4
  {
    frame.directions[StorageIndex(ScanOrder[scan])]
  }

  /** The keys `createMaskSprites` chose, by direction name. */
  datatype MaskKeys = MaskKeys(down: string, up: string, right: string, left: string)

  function KeyFor(keys: MaskKeys, d: Direction): string {
    match d
    case Down => keys.down
    case Up => keys.up
    case Right => keys.right
    case Left => keys.left
  }

  /** A sprite the scan treats as a 48x48 head: `gfx` is "HEAD", `bounds` is
      truthy and `bounds[2]` and `bounds[3]` are both the number 48. */
  predicate IsHeadSprite(sprite: Json)
    ensures IsHeadSprite(sprite) ==> sprite.JObj? && "bounds" in sprite.fields
    ensures IsHeadSprite(sprite) ==> var b := sprite.fields["bounds"]; b.JObj? || (b.JArr? && |b.items| >= 4)
  {
    && sprite.JObj?
    && "gfx" in sprite.fields && sprite.fields["gfx"] == JStr("HEAD")
    && "bounds" in sprite.fields && Truthy(sprite.fields["bounds"])
    && Element(sprite.fields["bounds"], 2) == Wrappers.Some(JNum(48))
    && Element(sprite.fields["bounds"], 3) == Wrappers.Some(JNum(48))
  }

  /** `data.sprites[spriteId]` exists and is such a head. */
  predicate IsMaskableHead(sprites: map<string, Json>, id: string)
    ensures id !in sprites ==> !IsMaskableHead(sprites, id)
  {
    id in sprites && IsHeadSprite(sprites[id])
  }
}
