/** One loaded BANI document and the per-document body of main.js
    `downloadBaniFile`: default the mask image, mark the document for the online
    server, write the four mask sprites, place the masks, and pick the name
    the result is stored under. */
module Document {
  import opened Json
  import opened BaniModel
  import opened HeadMasks
  import opened MaskPlacement
  import opened MaskSprites
  import opened FileName
  import Decimal

  /** The mask image `defaults.MASK` falls back to. */
  const DefaultMaskImage: string := "bbuilder_enueanbumask.png"

  /** The value `online` is set to, which selects the online server's files. */
  const OnlineServer: int := 2

  /** `defaults` after `if (!data.defaults.MASK) data.defaults.MASK = ...`. */
  function DefaultedMask(defaults: map<string, Json>): (r: map<string, Json>)
    ensures "MASK" in r && Truthy(r["MASK"])
    ensures "MASK" in defaults && Truthy(defaults["MASK"]) ==> r == defaults
    ensures !("MASK" in defaults && Truthy(defaults["MASK"])) ==> r["MASK"] == JStr(DefaultMaskImage)
    ensures forall key :: key != "MASK" ==> (key in r <==> key in defaults)
    ensures forall key :: key != "MASK" && key in defaults ==> r[key] == defaults[key]
  {
    if "MASK" in defaults && Truthy(defaults["MASK"]) then defaults
    else defaults["MASK" := JStr(DefaultMaskImage)]
  }

  /** A parsed document. `defaults`, `sprites` and `frames` are the members the
      transformation works on; `members` holds every other top-level member
      (name, options, online, ...) as it was parsed. */
  class BaniDocument {
    var members: map<string, Json>
    var defaults: map<string, Json>
    var sprites: map<string, Json>
    var frames: seq<Frame>

    constructor (members: map<string, Json>, defaults: map<string, Json>, sprites: map<string, Json>, frames: seq<Frame>)
      ensures this.members == members && this.defaults == defaults
      ensures this.sprites == sprites && this.frames == frames
    {
      this.members := members;
      this.defaults := defaults;
      this.sprites := sprites;
      this.frames := frames;
    }

    /** `createMaskSprites`: the four mask sprites are written under the keys
        the sprite-table size selects, and the keys are returned by name. */
    method CreateMaskSprites() returns (keys: MaskKeys)
      modifies this`sprites
      ensures sprites == SpritesAfter(old(sprites), 4)
      ensures keys == KeysByName(ChosenKeys(old(sprites), 4))
    {
      ghost var start := sprites;
      var chosen: seq<string> := [];
      for i := 0 to 4
        invariant sprites == SpritesAfter(start, i)
        invariant chosen == ChosenKeys(start, i)
      {
        var key := Decimal.NatToString(|sprites| + i);
        StepTable(start, i);
        StepKeys(start, i);
        sprites := sprites[key := MaskSprite(CreationOrder[i])];
        chosen := chosen + [key];
      }
      keys := KeysByName(chosen);
    }

    /** The second pass of `updateFramesWithMasks`: every frame's lists
        receive the masks of that frame's entries. */
    method PlaceMasks(keys: MaskKeys, headCoords: seq<HeadCoord>)
      requires HasFourDirections(frames)
      modifies this`frames
      ensures frames == Placed(old(frames), keys, headCoords)
    {
      ghost var start := frames;
      ghost var target := Placed(start, keys, headCoords);
      for f := 0 to |frames|
        invariant |frames| == |start|
        invariant forall i :: 0 <= i < f ==> frames[i] == target[i]
        invariant forall i :: f <= i < |frames| ==> frames[i] == start[i]
      {
        var dirs := PlaceFrameMasks(frames[f].directions, keys, headCoords, f);
        assert target[f] == Frame(dirs);
        frames := frames[f := Frame(dirs)];
      }
      assert frames == target;
    }

    /** `updateFramesWithMasks`: the first pass collects the head entries; if
        there are none the frames are left alone and false is returned (the
        "no HEAD sprites" notice), otherwise the second pass places them. */
    method UpdateFramesWithMasks(keys: MaskKeys) returns (found: bool)
      requires HasFourDirections(frames)
      modifies this`frames
      ensures found <==> Candidates(old(frames), sprites) != []
      ensures frames == if found then Placed(old(frames), keys, Candidates(old(frames), sprites)) else old(frames)
    {
      var headCoords := CollectHeadCoords(frames, sprites);
      if |headCoords| == 0 {
        return false;
      }
      PlaceMasks(keys, headCoords);
      found := true;
    }

    /** The first two statements of the per-document body of
        `downloadBaniFile`: default the mask image and set `online`. */
    method MarkForServer()
      modifies this`defaults, this`members
      ensures defaults == DefaultedMask(old(defaults))
      ensures members == old(members)["online" := JNum(OnlineServer)]
    {
      if !("MASK" in defaults && Truthy(defaults["MASK"])) {
        defaults := defaults["MASK" := JStr(DefaultMaskImage)];
      }
      members := members["online" := JNum(OnlineServer)];
    }

    /** The per-document body of `downloadBaniFile`, in its order: default the
        mask image, set `online`, create the mask sprites, place the masks,
        and compute the stored file name. */
    method Prepare(fileName: string) returns (storedName: string, keys: MaskKeys, found: bool)
      requires HasFourDirections(frames)
      modifies this
      ensures defaults == DefaultedMask(old(defaults))
      ensures members == old(members)["online" := JNum(OnlineServer)]
      ensures sprites == SpritesAfter(old(sprites), 4)
      ensures keys == KeysByName(ChosenKeys(old(sprites), 4))
      ensures found <==> Candidates(old(frames), sprites) != []
      ensures frames == if found then Placed(old(frames), keys, Candidates(old(frames), sprites)) else old(frames)
      ensures storedName == UpdatedFileName(fileName)
    {
      MarkForServer();
      keys := CreateMaskSprites();
      found := UpdateFramesWithMasks(keys);
      storedName := UpdatedFileName(fileName);
    }
  }

  // ---------------------------------------------------------------------
  // Properties of a prepared document

  /** The sprite table after `createMaskSprites` maps each returned key to a
      mask sprite, which is never taken for a 48x48 head. */
  lemma MaskKeysAreNotHeads(s: map<string, Json>)
    ensures forall d :: !IsMaskableHead(SpritesAfter(s, 4), KeyFor(KeysByName(ChosenKeys(s, 4)), d))
  {
    MaskEntries(s);
    forall d ensures !IsMaskableHead(SpritesAfter(s, 4), KeyFor(KeysByName(ChosenKeys(s, 4)), d)) {
      var i := match d case Down => 0 case Up => 1 case Right => 2 case Left => 3;
      assert KeyFor(KeysByName(ChosenKeys(s, 4)), d) == ChosenKeys(s, 4)[i];
      MaskSpriteShape(CreationOrder[i]);
    }
  }

  /** Placing masks again in a prepared document, with the same sprite table
      and any mask keys, finds the same heads and adds nothing. */
  lemma PreparedFramesAreStable(s: map<string, Json>, frames: seq<Frame>, keys': MaskKeys)
    requires HasFourDirections(frames)
    ensures var sprites := SpritesAfter(s, 4);
      var cs := Candidates(frames, sprites);
      var placed := Placed(frames, KeysByName(ChosenKeys(s, 4)), cs);
      Candidates(placed, sprites) == cs && Placed(placed, keys', cs) == placed
  {
    MaskKeysAreNotHeads(s);
    SecondRunAddsNothing(frames, SpritesAfter(s, 4), KeysByName(ChosenKeys(s, 4)), keys');
  }

  // ---------------------------------------------------------------------
  // A document with one head

  /** A head sprite whose bounds are 48x48. */
  function HeadSprite(): Json {
    JObj(map["gfx" := JStr("HEAD"), "bounds" := Ints([0, 0, 48, 48])])
  }

  /** One frame whose down list holds the sprite id at (10, 10). */
  function OneHeadFrames(id: string): seq<Frame> {
    [Frame([[], [], [SpriteRef(id, 10, 10)], []])]
  }

  lemma HeadSpriteIsHead()
    ensures IsHeadSprite(HeadSprite())
  {
    assert Element(Ints([0, 0, 48, 48]), 2) == Wrappers.Some(JNum(48));
    assert Element(Ints([0, 0, 48, 48]), 3) == Wrappers.Some(JNum(48));
  }

  /** The single head is the one entry the scan of its frame yields. */
  lemma OneHeadFrameHits(id: string, sprites: map<string, Json>)
    requires IsMaskableHead(sprites, id)
    ensures FrameHits(OneHeadFrames(id)[0], sprites, 0, 4) == [HeadCoord(id, 10, -6, 0, 0)]
  {
    var frame := OneHeadFrames(id)[0];
    var h := HeadCoord(id, 10, -6, 0, 0);
    assert FrameHits(frame, sprites, 0, 1) == [h] by {
      var list := [SpriteRef(id, 10, 10)];
      assert ScannedList(frame, 0) == list;
      assert list[..0] == [];
      assert ListHits(list, sprites, 0, 0) == [h];
      FrameHitsSnoc(frame, sprites, 0, 0);
    }
    assert FrameHits(frame, sprites, 0, 2) == [h] by {
      assert ScannedList(frame, 1) == [];
      FrameHitsSnoc(frame, sprites, 0, 1);
    }
    assert FrameHits(frame, sprites, 0, 3) == [h] by {
      assert ScannedList(frame, 2) == [];
      FrameHitsSnoc(frame, sprites, 0, 2);
    }
    assert ScannedList(frame, 3) == [];
    FrameHitsSnoc(frame, sprites, 0, 3);
  }

  /** The single head's entry: its mask goes 16 pixels above it, in frame 0. */
  lemma OneHeadCandidates(id: string, sprites: map<string, Json>)
    requires IsMaskableHead(sprites, id)
    ensures Candidates(OneHeadFrames(id), sprites) == [HeadCoord(id, 10, -6, 0, 0)]
  {
    var frames := OneHeadFrames(id);
    var h := HeadCoord(id, 10, -6, 0, 0);
    assert Hits(frames, sprites, 1) == [h] by {
      OneHeadFrameHits(id, sprites);
      HitsSnoc(frames, sprites, 0);
    }
    assert Dedup([h]) == [h] by {
      RecordAllSnoc([], [], h);
      assert [] + [h] == [h];
      assert !HasSpot([], h);
    }
    assert Candidates(frames, sprites) == Dedup(Hits(frames, sprites, 1));
  }

  /** Four mask sprites added to a one-entry table under "0" take the free
      keys 1, 3, 5 and 7 and leave the entry under "0" as it was. */
  lemma LoneEntryKeys(s: map<string, Json>)
    requires s.Keys == {"0"}
    ensures ChosenKeys(s, 4) == ["1", "3", "5", "7"]
    ensures "0" in SpritesAfter(s, 4) && SpritesAfter(s, 4)["0"] == s["0"]
  {
    assert FreeKeys(s) == {"1", "3", "5", "7"} by {
      assert |s| == |s.Keys| == 1;
      assert FreeKey(s, 0) == "1" && FreeKey(s, 1) == "3" && FreeKey(s, 2) == "5" && FreeKey(s, 3) == "7";
    }
    var keys := ChosenKeys(s, 4);
    assert keys == ["1", "3", "5", "7"] by {
      FreshKeys(s);
    }
    assert "0" !in keys;
    OthersUntouched(s);
  }

  /** The down mask placed for the single head. */
  lemma OneHeadPlaced(keys: MaskKeys)
    ensures Placed(OneHeadFrames("0"), keys, [HeadCoord("0", 10, -6, 0, 0)])
         == [Frame([[], [], [SpriteRef("0", 10, 10), SpriteRef(keys.down, 10, -6)], []])]
  {
    var c := HeadCoord("0", 10, -6, 0, 0);
    var dirs := OneHeadFrames("0")[0].directions;
    assert !HasPosition(dirs[2], 10, -6);
    assert [c][..0] == [];
    assert MaskRef(keys, c) == SpriteRef(keys.down, 10, -6);
    assert dirs == [[], [], [SpriteRef("0", 10, 10)], []];
    assert TargetIndex(c) == 2;
    var r := PlaceAll(dirs, keys, [c], 0);
    assert r == PlaceOne(PlaceAll(dirs, keys, [], 0), keys, c, 0);
    assert PlaceAll(dirs, keys, [], 0) == dirs;
    assert r == dirs[2 := dirs[2] + [MaskRef(keys, c)]];
    assert dirs[2] + [MaskRef(keys, c)] == [SpriteRef("0", 10, 10), SpriteRef(keys.down, 10, -6)];
    assert r == [[], [], [SpriteRef("0", 10, 10), SpriteRef(keys.down, 10, -6)], []];
    var placed := Placed(OneHeadFrames("0"), keys, [c]);
    assert |placed| == 1 && placed[0] == Frame(r);
  }

  /** A table holding only a head under "0": the masks get the free keys 1, 3,
      5 and 7, the head survives, and the down list gains the down mask
      16 pixels above the head. */
  lemma EndToEndWithFreeKeys()
    ensures var s := map["0" := HeadSprite()];
      var sprites := SpritesAfter(s, 4);
      var keys := KeysByName(ChosenKeys(s, 4));
      && keys == MaskKeys("1", "3", "5", "7")
      && Candidates(OneHeadFrames("0"), sprites) == [HeadCoord("0", 10, -6, 0, 0)]
      && Placed(OneHeadFrames("0"), keys, Candidates(OneHeadFrames("0"), sprites))
         == [Frame([[], [], [SpriteRef("0", 10, 10), SpriteRef("1", 10, -6)], []])]
  {
    var s := map["0" := HeadSprite()];
    LoneEntryKeys(s);
    HeadSpriteIsHead();
    OneHeadCandidates("0", SpritesAfter(s, 4));
    OneHeadPlaced(KeysByName(ChosenKeys(s, 4)));
  }

  lemma CollidingFirstTwo(s: map<string, Json>)
    requires s.Keys == {"5"}
    ensures SpritesAfter(s, 2).Keys == {"5", "1", "3"} && ChosenKeys(s, 2) == ["1", "3"]
  {
    var p1 := SpritesAfter(s, 1);
    assert p1.Keys == {"5", "1"} && ChosenKeys(s, 1) == ["1"] by {
      Step(s, 0);
      assert KeyAt(s, 0) == "1";
    }
    Step(s, 1);
    assert |p1| == 2;
    assert KeyAt(p1, 1) == "3";
  }

  lemma CollidingThird(s: map<string, Json>)
    requires s.Keys == {"5"}
    ensures SpritesAfter(s, 3).Keys == {"5", "1", "3"} && ChosenKeys(s, 3) == ["1", "3", "5"]
    ensures SpritesAfter(s, 3)["5"] == MaskSprite(Right)
  {
    var p2 := SpritesAfter(s, 2);
    CollidingFirstTwo(s);
    Step(s, 2);
    assert |p2| == 3;
    assert KeyAt(p2, 2) == "5";
  }

  /** The keys chosen for a one-entry table under "5": the third is "5". */
  lemma CollidingKeys(s: map<string, Json>)
    requires s.Keys == {"5"}
    ensures ChosenKeys(s, 4) == ["1", "3", "5", "6"]
    ensures "5" in SpritesAfter(s, 4) && SpritesAfter(s, 4)["5"] == MaskSprite(Right)
  {
    var p3 := SpritesAfter(s, 3);
    CollidingThird(s);
    Step(s, 3);
    assert |p3| == 3;
    assert KeyAt(p3, 3) == "6";
  }

  /** A table holding only a head under "5": the third mask sprite is written
      under "5" (three entries, plus two), replacing the head, so no head is
      left to mask and the frames are not changed. */
  lemma EndToEndKeyCollision()
    ensures var s := map["5" := HeadSprite()];
      var sprites := SpritesAfter(s, 4);
      && ChosenKeys(s, 4) == ["1", "3", "5", "6"]
      && sprites["5"] == MaskSprite(Right)
      && Candidates(OneHeadFrames("5"), sprites) == []
  {
    var s := map["5" := HeadSprite()];
    CollidingKeys(s);
    var sprites := SpritesAfter(s, 4);
    MaskSpriteShape(Right);
    NoCandidatesIffNoHeads(OneHeadFrames("5"), sprites);
    forall h ensures !IsHit(OneHeadFrames("5"), sprites, h) {
      NotHitIn(sprites, h);
    }
  }

  lemma NotHitIn(sprites: map<string, Json>, h: HeadCoord)
    requires !IsMaskableHead(sprites, "5")
    ensures !IsHit(OneHeadFrames("5"), sprites, h)
  {
    var frame := OneHeadFrames("5")[0];
    forall scan | 0 <= scan < 4 ensures !InList(ScannedList(frame, scan), sprites, scan, 0, h) {
      assert forall j :: 0 <= j < |ScannedList(frame, scan)| ==> ScannedList(frame, scan)[j].id == "5";
    }
  }
}
