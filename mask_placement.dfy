/** The second pass of main.js `updateFramesWithMasks`: every `headCoords`
    entry appends a mask placement to its own direction list of its own
    frame, unless that list already holds a placement at the mask position.
    Lists are only ever appended to. */
module MaskPlacement {
  import opened Json
  import opened BaniModel
  import opened HeadMasks

  /** `list.some(item => item[1] === x && item[2] === y)`. */
  predicate HasPosition(list: seq<SpriteRef>, x: int, y: int) {
    exists i :: 0 <= i < |list| && list[i].x == x && list[i].y == y
  }

  /** Where in a frame the mask for c goes: the list scanned at c's direction index. */
  function TargetIndex(c: HeadCoord): nat
    requires c.direction < 4
  {
    StorageIndex(ScanOrder[c.direction])
  }

  /** The placement pushed for c: the mask sprite of c's direction at c's mask position. */
  function MaskRef(keys: MaskKeys, c: HeadCoord): SpriteRef
    requires c.direction < 4
  {
    SpriteRef(KeyFor(keys, ScanOrder[c.direction]), c.maskX, c.maskY)
  }

  /** c offered to the lists of frame f. An entry of another frame, or with a
      direction index outside 0..3 (which the scan never makes), matches no
      branch of the if-chain and changes nothing. */
  function PlaceOne(dirs: seq<seq<SpriteRef>>, keys: MaskKeys, c: HeadCoord, f: nat): (r: seq<seq<SpriteRef>>)
    requires |dirs| >= 4
    ensures |r| == |dirs|
    ensures forall i :: 0 <= i < |dirs| ==> dirs[i] <= r[i] && |r[i]| <= |dirs[i]| + 1
  {
    if c.frame != f || c.direction >= 4 then dirs
    else if HasPosition(dirs[TargetIndex(c)], c.maskX, c.maskY) then dirs
    else dirs[TargetIndex(c) := dirs[TargetIndex(c)] + [MaskRef(keys, c)]]
  }

  /** The lists of frame f after the entries cs have been offered in turn. */
  function PlaceAll(dirs: seq<seq<SpriteRef>>, keys: MaskKeys, cs: seq<HeadCoord>, f: nat): (r: seq<seq<SpriteRef>>)
    requires |dirs| >= 4
    ensures |r| == |dirs|
    decreases |cs|
  {
    if cs == [] then dirs
    else PlaceOne(PlaceAll(dirs, keys, cs[..|cs| - 1], f), keys, cs[|cs| - 1], f)
  }

  /** The frames after the second pass; frame i sees the entries whose frame is i. */
  function Placed(frames: seq<Frame>, keys: MaskKeys, cs: seq<HeadCoord>): (r: seq<Frame>)
    requires HasFourDirections(frames)
    ensures |r| == |frames| && HasFourDirections(r)
  {
    seq(|frames|, i requires 0 <= i < |frames| => Frame(PlaceAll(frames[i].directions, keys, cs, i)))
  }

  /** The second pass over one frame f (`headCoords.forEach(...)` inside
      `data.frames.forEach(...)`): each entry of frame f pushes its mask onto
      the list its direction index selects, unless that list already holds
      something at the mask position. */
  method PlaceFrameMasks(dirs: seq<seq<SpriteRef>>, keys: MaskKeys, headCoords: seq<HeadCoord>, f: nat)
    returns (result: seq<seq<SpriteRef>>)
    requires |dirs| >= 4
    ensures result == PlaceAll(dirs, keys, headCoords, f)
  {
    var up, left, down, right := StorageIndex(Up), StorageIndex(Left), StorageIndex(Down), StorageIndex(Right);
    result := dirs;
    for n := 0 to |headCoords|
      invariant |result| == |dirs|
      invariant result == PlaceAll(dirs, keys, headCoords[..n], f)
    {
      var c := headCoords[n];
      assert headCoords[..n + 1][..n] == headCoords[..n];
      if c.frame == f {
        if c.direction == 0 && !HasPosition(result[down], c.maskX, c.maskY) {
          result := result[down := result[down] + [SpriteRef(keys.down, c.maskX, c.maskY)]];
        } else if c.direction == 1 && !HasPosition(result[up], c.maskX, c.maskY) {
          result := result[up := result[up] + [SpriteRef(keys.up, c.maskX, c.maskY)]];
        } else if c.direction == 2 && !HasPosition(result[left], c.maskX, c.maskY) {
          result := result[left := result[left] + [SpriteRef(keys.left, c.maskX, c.maskY)]];
        } else if c.direction == 3 && !HasPosition(result[right], c.maskX, c.maskY) {
          result := result[right := result[right] + [SpriteRef(keys.right, c.maskX, c.maskY)]];
        }
      }
    }
    assert headCoords[..|headCoords|] == headCoords;
  }

  // ---------------------------------------------------------------------
  // Append-only

  /** after is before with, at the end of some lists, mask placements for
      entries of cs that belong to frame f and to that list, each at a
      position nothing earlier in its list occupies. */
  ghost predicate AppendsMasks(before: seq<seq<SpriteRef>>, after: seq<seq<SpriteRef>>,
                               keys: MaskKeys, cs: seq<HeadCoord>, f: nat) {
    && |after| == |before|
    && (forall i :: 0 <= i < |before| ==> before[i] <= after[i])
    && (forall i, j :: 0 <= i < |before| && |before[i]| <= j < |after[i]| ==> IsMaskFor(after[i][j], keys, cs, f, i))
    && (forall i, j, k :: 0 <= i < |before| && 0 <= k < j < |after[i]| && |before[i]| <= j ==>
          after[i][k].x != after[i][j].x || after[i][k].y != after[i][j].y)
  }

  /** p is the mask placement of an entry of cs that belongs to frame f and
      to the list at index i. */
  ghost predicate IsMaskFor(p: SpriteRef, keys: MaskKeys, cs: seq<HeadCoord>, f: nat, i: nat) {
    exists c :: c in cs && c.frame == f && c.direction < 4 && TargetIndex(c) == i && p == MaskRef(keys, c)
  }

  lemma PlaceOneCases(dirs: seq<seq<SpriteRef>>, keys: MaskKeys, c: HeadCoord, f: nat)
    requires |dirs| >= 4
    ensures var r := PlaceOne(dirs, keys, c, f);
      && |r| == |dirs|
      && forall i :: 0 <= i < |dirs| ==>
           || r[i] == dirs[i]
           || (&& c.frame == f && c.direction < 4 && i == TargetIndex(c)
               && !HasPosition(dirs[i], c.maskX, c.maskY)
               && r[i] == dirs[i] + [MaskRef(keys, c)])
  {
  }

  /** Offering entries only appends to the lists, and only mask placements
      for the frame's own entries at positions not yet taken. */
  lemma {:induction false} PlaceAllAppends(dirs: seq<seq<SpriteRef>>, keys: MaskKeys, cs: seq<HeadCoord>, f: nat)
    requires |dirs| >= 4
    ensures AppendsMasks(dirs, PlaceAll(dirs, keys, cs, f), keys, cs, f)
    decreases |cs|
  {
    if cs != [] {
      var init, c := cs[..|cs| - 1], cs[|cs| - 1];
      PlaceAllAppends(dirs, keys, init, f);
      var r := PlaceAll(dirs, keys, init, f);
      var r' := PlaceAll(dirs, keys, cs, f);
      PlaceOneCases(r, keys, c, f);
      forall i | 0 <= i < |dirs| ensures dirs[i] <= r'[i] {
        assert dirs[i] <= r[i] && r[i] <= r'[i];
      }
      forall i, j | 0 <= i < |dirs| && |dirs[i]| <= j < |r'[i]| ensures IsMaskFor(r'[i][j], keys, cs, f, i) {
        if j < |r[i]| {
          assert r'[i][j] == r[i][j] && IsMaskFor(r[i][j], keys, init, f, i);
          var c0 :| c0 in init && c0.frame == f && c0.direction < 4 && TargetIndex(c0) == i && r[i][j] == MaskRef(keys, c0);
          assert c0 in cs;
        } else {
          assert r'[i][j] == MaskRef(keys, c) && c in cs;
        }
      }
      forall i, j, k | 0 <= i < |dirs| && 0 <= k < j < |r'[i]| && |dirs[i]| <= j
        ensures r'[i][k].x != r'[i][j].x || r'[i][k].y != r'[i][j].y
      {
        if j < |r[i]| {
          assert r'[i][j] == r[i][j] && r'[i][k] == r[i][k];
        } else {
          assert r'[i][k] == r[i][k];
        }
      }
      assert AppendsMasks(dirs, r', keys, cs, f);
    }
  }

  // ---------------------------------------------------------------------
  // Coverage

  /** c's mask position is taken in c's list. */
  predicate Covered(dirs: seq<seq<SpriteRef>>, c: HeadCoord)
    requires |dirs| >= 4 && c.direction < 4
  {
    HasPosition(dirs[TargetIndex(c)], c.maskX, c.maskY)
  }

  /** Every entry of frame f in cs is covered in dirs. */
  predicate AllCovered(dirs: seq<seq<SpriteRef>>, cs: seq<HeadCoord>, f: nat)
    requires |dirs| >= 4
  {
    forall c :: c in cs && c.frame == f && c.direction < 4 ==> Covered(dirs, c)
  }

  lemma PositionKept(a: seq<SpriteRef>, b: seq<SpriteRef>, x: int, y: int)
    requires a <= b
    ensures HasPosition(a, x, y) ==> HasPosition(b, x, y)
  {
    if HasPosition(a, x, y) {
      var i :| 0 <= i < |a| && a[i].x == x && a[i].y == y;
      assert b[i] == a[i];
    }
  }

  /** Afterwards every entry of the frame has its mask position taken in its
      list: by the mask just pushed, or by whatever held it before. */
  lemma {:induction false} PlaceAllCovers(dirs: seq<seq<SpriteRef>>, keys: MaskKeys, cs: seq<HeadCoord>, f: nat)
    requires |dirs| >= 4
    ensures AllCovered(PlaceAll(dirs, keys, cs, f), cs, f)
    decreases |cs|
  {
    if cs != [] {
      var init, c := cs[..|cs| - 1], cs[|cs| - 1];
      PlaceAllCovers(dirs, keys, init, f);
      var r := PlaceAll(dirs, keys, init, f);
      var r' := PlaceAll(dirs, keys, cs, f);
      PlaceOneCases(r, keys, c, f);
      forall c' | c' in cs && c'.frame == f && c'.direction < 4 ensures Covered(r', c') {
        var t := TargetIndex(c');
        if c' in init {
          PositionKept(r[t], r'[t], c'.maskX, c'.maskY);
        } else if !Covered(r, c') {
          assert c' == c;
          assert r'[t][|r[t]|] == MaskRef(keys, c);
        }
      }
    }
  }

  /** Entries that are all covered already change nothing. */
  lemma {:induction false} PlaceAllCoveredIsIdentity(dirs: seq<seq<SpriteRef>>, keys: MaskKeys, cs: seq<HeadCoord>, f: nat)
    requires |dirs| >= 4
    requires AllCovered(dirs, cs, f)
    ensures PlaceAll(dirs, keys, cs, f) == dirs
    decreases |cs|
  {
    if cs != [] {
      var init := cs[..|cs| - 1];
      assert forall c :: c in init ==> c in cs;
      PlaceAllCoveredIsIdentity(dirs, keys, init, f);
    }
  }

  /** A second pass with the same entries, whatever the mask keys, adds nothing. */
  lemma PlacedIdempotent(frames: seq<Frame>, keys: MaskKeys, keys': MaskKeys, cs: seq<HeadCoord>)
    requires HasFourDirections(frames)
    ensures Placed(Placed(frames, keys, cs), keys', cs) == Placed(frames, keys, cs)
  {
    var once := Placed(frames, keys, cs);
    forall i | 0 <= i < |frames| ensures Placed(once, keys', cs)[i] == once[i] {
      PlaceAllCovers(frames[i].directions, keys, cs, i);
      PlaceAllCoveredIsIdentity(once[i].directions, keys', cs, i);
    }
  }

  /** A position held by a placement in a prefix of a list is held in the list. */
  lemma PrefixPosition(a: seq<SpriteRef>, b: seq<SpriteRef>, j: int)
    ensures a <= b && 0 <= j < |a| ==> HasPosition(a, b[j].x, b[j].y)
  {
    if a <= b && 0 <= j < |a| {
      assert a[j] == b[j];
    }
  }

  lemma SameListSameMask(keys: MaskKeys, a: HeadCoord, b: HeadCoord)
    requires a.direction < 4 && b.direction < 4
    requires TargetIndex(a) == TargetIndex(b) && a.maskX == b.maskX && a.maskY == b.maskY
    ensures MaskRef(keys, a) == MaskRef(keys, b)
  {
    assert ScanOrder[a.direction] == StorageOrder[TargetIndex(a)] == ScanOrder[b.direction];
  }

  /** An entry whose position was free in its list gets exactly its own mask
      placement there: the mask sprite of its direction at its mask position. */
  lemma MaskPushedWhereFree(dirs: seq<seq<SpriteRef>>, keys: MaskKeys, cs: seq<HeadCoord>, f: nat, c: HeadCoord)
    requires |dirs| >= 4
    requires c in cs && c.frame == f && c.direction < 4
    requires !Covered(dirs, c)
    ensures MaskRef(keys, c) in PlaceAll(dirs, keys, cs, f)[TargetIndex(c)]
  {
    var r := PlaceAll(dirs, keys, cs, f);
    var t := TargetIndex(c);
    var list: seq<SpriteRef> := r[t];
    assert HasPosition(list, c.maskX, c.maskY) by {
      PlaceAllCovers(dirs, keys, cs, f);
    }
    var j :| 0 <= j < |list| && list[j].x == c.maskX && list[j].y == c.maskY;
    PlaceAllAppends(dirs, keys, cs, f);
    PrefixPosition(dirs[t], list, j);
    assert IsMaskFor(list[j], keys, cs, f, t);
    var c0 :| c0 in cs && c0.frame == f && c0.direction < 4 && TargetIndex(c0) == t && list[j] == MaskRef(keys, c0);
    SameListSameMask(keys, c0, c);
  }

  // ---------------------------------------------------------------------
  // Running the transformation again

  /** after extends every list of before with placements that are not 48x48 heads. */
  ghost predicate ExtendsWithoutHeads(before: seq<seq<SpriteRef>>, after: seq<seq<SpriteRef>>, sprites: map<string, Json>) {
    && |after| == |before|
    && forall i :: 0 <= i < |before| ==>
         && before[i] <= after[i]
         && forall j :: |before[i]| <= j < |after[i]| ==> !IsMaskableHead(sprites, after[i][j].id)
  }

  lemma {:induction false} ListHitsIgnoresNonHeads(list: seq<SpriteRef>, extra: seq<SpriteRef>,
                                                   sprites: map<string, Json>, scan: nat, f: nat)
    requires forall j :: 0 <= j < |extra| ==> !IsMaskableHead(sprites, extra[j].id)
    ensures ListHits(list + extra, sprites, scan, f) == ListHits(list, sprites, scan, f)
    decreases |extra|
  {
    if extra != [] {
      var init := extra[..|extra| - 1];
      var whole := list + extra;
      assert whole[..|whole| - 1] == list + init;
      assert whole[|whole| - 1] == extra[|extra| - 1];
      assert !IsMaskableHead(sprites, extra[|extra| - 1].id);
      assert forall j :: 0 <= j < |init| ==> init[j] == extra[j];
      ListHitsIgnoresNonHeads(list, init, sprites, scan, f);
      assert HitsOf(whole[|whole| - 1], sprites, scan, f) == [];
      assert ListHits(whole, sprites, scan, f) == ListHits(list + init, sprites, scan, f) + [];
    } else {
      assert list + extra == list;
    }
  }

  lemma {:induction false} FrameHitsIgnoresNonHeads(before: Frame, after: Frame, sprites: map<string, Json>, f: nat, k: nat)
    requires |before.directions| >= 4 && k <= 4
    requires ExtendsWithoutHeads(before.directions, after.directions, sprites)
    ensures FrameHits(after, sprites, f, k) == FrameHits(before, sprites, f, k)
    decreases k
  {
    if k > 0 {
      FrameHitsIgnoresNonHeads(before, after, sprites, f, k - 1);
      var t := StorageIndex(ScanOrder[k - 1]);
      var a, b := before.directions[t], after.directions[t];
      assert b == a + b[|a|..];
      ListHitsIgnoresNonHeads(a, b[|a|..], sprites, k - 1, f);
    }
  }

  lemma {:induction false} HitsIgnoreNonHeads(before: seq<Frame>, after: seq<Frame>, sprites: map<string, Json>, n: nat)
    requires HasFourDirections(before) && |after| == |before| && n <= |before|
    requires forall i :: 0 <= i < |before| ==> ExtendsWithoutHeads(before[i].directions, after[i].directions, sprites)
    ensures HasFourDirections(after)
    ensures Hits(after, sprites, n) == Hits(before, sprites, n)
    decreases n
  {
    forall i | 0 <= i < |after| ensures |after[i].directions| >= 4 {
      assert ExtendsWithoutHeads(before[i].directions, after[i].directions, sprites);
    }
    if n > 0 {
      var a, b := after[n - 1], before[n - 1];
      assert Hits(after, sprites, n - 1) == Hits(before, sprites, n - 1) by {
        HitsIgnoreNonHeads(before, after, sprites, n - 1);
      }
      assert FrameHits(a, sprites, n - 1, 4) == FrameHits(b, sprites, n - 1, 4) by {
        assert ExtendsWithoutHeads(b.directions, a.directions, sprites);
        FrameHitsIgnoresNonHeads(b, a, sprites, n - 1, 4);
      }
      HitsSnoc(after, sprites, n - 1);
      HitsSnoc(before, sprites, n - 1);
    }
  }

  /** Running `updateFramesWithMasks` again over its own output, with the
      same sprite table and any mask keys, finds the same heads and adds
      nothing, provided the first run's mask keys do not name 48x48 heads. */
  lemma SecondRunAddsNothing(frames: seq<Frame>, sprites: map<string, Json>, keys: MaskKeys, keys': MaskKeys)
    requires HasFourDirections(frames)
    requires forall d :: !IsMaskableHead(sprites, KeyFor(keys, d))
    ensures Candidates(Placed(frames, keys, Candidates(frames, sprites)), sprites) == Candidates(frames, sprites)
    ensures Placed(Placed(frames, keys, Candidates(frames, sprites)), keys', Candidates(frames, sprites))
         == Placed(frames, keys, Candidates(frames, sprites))
  {
    var cs := Candidates(frames, sprites);
    var once := Placed(frames, keys, cs);
    forall i | 0 <= i < |frames| ensures ExtendsWithoutHeads(frames[i].directions, once[i].directions, sprites) {
      PlaceAllAppends(frames[i].directions, keys, cs, i);
      var a: seq<seq<SpriteRef>>, b: seq<seq<SpriteRef>> := frames[i].directions, once[i].directions;
      assert b == PlaceAll(a, keys, cs, i);
      forall t, j | 0 <= t < |a| && |a[t]| <= j < |b[t]| ensures !IsMaskableHead(sprites, b[t][j].id) {
        assert IsMaskFor(b[t][j], keys, cs, i, t);
        var c :| c in cs && c.frame == i && c.direction < 4 && TargetIndex(c) == t && b[t][j] == MaskRef(keys, c);
      }
    }
    HitsIgnoreNonHeads(frames, once, sprites, |frames|);
    PlacedIdempotent(frames, keys, keys', cs);
  }
}
