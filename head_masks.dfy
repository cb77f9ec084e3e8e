/** main.js `updateFramesWithMasks`, as specification functions. The first
    pass scans every frame's lists in the order down, up, left, right and
    records a `headCoords` entry for each 48x48 head, skipping a position
    already recorded for the same frame; the second pass appends a mask
    placement for each entry to its own direction list of its own frame,
    unless that list already holds something at that position. Frames are
    identified by their index. */
module HeadMasks {
  import opened Json
  import opened BaniModel

  /** A `headCoords` entry: the head's sprite key, where its mask goes, the
      direction index it was scanned at, and its frame. */
  datatype HeadCoord = HeadCoord(id: string, maskX: int, maskY: int, direction: nat, frame: nat)

  /** The mask position for a head at (x, y) found at direction index scan. */
  function MaskPosition(scan: nat, x: int, y: int): (r: (int, int))
    ensures scan < 4 ==> y - 16 <= r.1 <= y - 10 && x - 1 <= r.0 <= x + 1
    ensures scan >= 4 ==> r == (x, y)
  {
    if scan == 0 then (x, y - 16)        // down
    else if scan == 1 then (x, y - 10)   // up
    else if scan == 2 then (x - 1, y - 15)  // left
    else if scan == 3 then (x + 1, y - 15)  // right
    else (x, y)
  }

  /** The offset of the mask from the head, by direction name. */
  function DirectionOffset(d: Direction): (int, int) {
    match d
    case Down => (0, -16)
    case Up => (0, -10)
    case Left => (-1, -15)
    case Right => (1, -15)
  }

  /** The offsets by direction index agree with the scan order's direction names. */
  lemma OffsetFollowsScanOrder(scan: nat, x: int, y: int)
    requires scan < 4
    ensures MaskPosition(scan, x, y) == (x + DirectionOffset(ScanOrder[scan]).0, y + DirectionOffset(ScanOrder[scan]).1)
  {
  }

  /** The entry the scan makes for placement r. */
  function Hit(r: SpriteRef, scan: nat, f: nat): HeadCoord {
    var pos := MaskPosition(scan, r.x, r.y);
    HeadCoord(r.id, pos.0, pos.1, scan, f)
  }

  function HitsOf(r: SpriteRef, sprites: map<string, Json>, scan: nat, f: nat): seq<HeadCoord> {
    if IsMaskableHead(sprites, r.id) then [Hit(r, scan, f)] else []
  }

  /** The entries one direction list yields, in list order, before de-duplication. */
  function ListHits(list: seq<SpriteRef>, sprites: map<string, Json>, scan: nat, f: nat): seq<HeadCoord>
    decreases |list|
  {
    if list == [] then []
    else ListHits(list[..|list| - 1], sprites, scan, f) + HitsOf(list[|list| - 1], sprites, scan, f)
  }

  /** The entries of the first k lists of a frame, in scan order. */
  function FrameHits(frame: Frame, sprites: map<string, Json>, f: nat, k: nat): seq<HeadCoord>
    requires |frame.directions| >= 4 && k <= 4
  {
    if k == 0 then []
    else FrameHits(frame, sprites, f, k - 1) + ListHits(ScannedList(frame, k - 1), sprites, k - 1, f)
  }

  /** The entries of the first n frames, in scan order. */
  function Hits(frames: seq<Frame>, sprites: map<string, Json>, n: nat): seq<HeadCoord>
    requires HasFourDirections(frames) && n <= |frames|
  {
    if n == 0 then [] else Hits(frames, sprites, n - 1) + FrameHits(frames[n - 1], sprites, n - 1, 4)
  }

  /** Two entries ask for a mask at the same place of the same frame. */
  predicate SameSpot(a: HeadCoord, b: HeadCoord) {
    a.frame == b.frame && a.maskX == b.maskX && a.maskY == b.maskY
  }

  /** `headCoords.find(...)` succeeds. */
  predicate HasSpot(acc: seq<HeadCoord>, h: HeadCoord) {
    exists i :: 0 <= i < |acc| && SameSpot(acc[i], h)
  }

  function Record(acc: seq<HeadCoord>, h: HeadCoord): (r: seq<HeadCoord>)
    ensures acc <= r && |r| <= |acc| + 1
    ensures HasSpot(r, h)
  {
    if HasSpot(acc, h) then acc
    else
      var r := acc + [h];
      assert SameSpot(r[|acc|], h);
      r
  }

  /** `headCoords` after the entries hs have been offered in turn to acc. */
  function RecordAll(acc: seq<HeadCoord>, hs: seq<HeadCoord>): (r: seq<HeadCoord>)
    ensures acc <= r && |r| <= |acc| + |hs|
    decreases |hs|
  {
    if hs == [] then acc else Record(RecordAll(acc, hs[..|hs| - 1]), hs[|hs| - 1])
  }

  /** `headCoords` after the entries hs have been offered in turn to an empty list. */
  function Dedup(hs: seq<HeadCoord>): (r: seq<HeadCoord>)
    ensures |r| <= |hs|
  {
    RecordAll([], hs)
  }

  /** `headCoords` at the end of the first pass. */
  function Candidates(frames: seq<Frame>, sprites: map<string, Json>): (r: seq<HeadCoord>)
    requires HasFourDirections(frames)
    ensures |r| <= |Hits(frames, sprites, |frames|)|
  {
    Dedup(Hits(frames, sprites, |frames|))
  }

  lemma RecordAllSnoc(acc: seq<HeadCoord>, hs: seq<HeadCoord>, c: HeadCoord)
    ensures RecordAll(acc, hs + [c]) == Record(RecordAll(acc, hs), c)
  {
    assert (hs + [c])[..|hs|] == hs;
  }

  /** Offering a then b is offering a + b. */
  lemma {:induction false} RecordAllConcat(acc: seq<HeadCoord>, a: seq<HeadCoord>, b: seq<HeadCoord>)
    ensures RecordAll(acc, a + b) == RecordAll(RecordAll(acc, a), b)
    decreases |b|
  {
    if b == [] {
      assert a + b == a;
    } else {
      var init, last := b[..|b| - 1], b[|b| - 1];
      RecordAllConcat(acc, a, init);
      assert a + b == (a + init) + [last];
      assert b == init + [last];
      RecordAllSnoc(acc, a + init, last);
      RecordAllSnoc(RecordAll(acc, a), init, last);
    }
  }

  lemma ListHitsSnoc(list: seq<SpriteRef>, j: nat, sprites: map<string, Json>, scan: nat, f: nat)
    requires j < |list|
    ensures ListHits(list[..j + 1], sprites, scan, f) == ListHits(list[..j], sprites, scan, f) + HitsOf(list[j], sprites, scan, f)
  {
    assert list[..j + 1][..j] == list[..j];
  }

  lemma FrameHitsSnoc(frame: Frame, sprites: map<string, Json>, f: nat, k: nat)
    requires |frame.directions| >= 4 && k < 4
    ensures FrameHits(frame, sprites, f, k + 1) == FrameHits(frame, sprites, f, k) + ListHits(ScannedList(frame, k), sprites, k, f)
  {
  }

  lemma HitsSnoc(frames: seq<Frame>, sprites: map<string, Json>, n: nat)
    requires HasFourDirections(frames) && n < |frames|
    ensures Hits(frames, sprites, n + 1) == Hits(frames, sprites, n) + FrameHits(frames[n], sprites, n, 4)
  {
  }

  /** The first pass over one direction list (`direction.forEach(...)`):
      each 48x48 head's entry is recorded unless its spot is already taken. */
  method RecordListHeads(list: seq<SpriteRef>, sprites: map<string, Json>, scan: nat, f: nat,
                         headCoords: seq<HeadCoord>)
    returns (result: seq<HeadCoord>)
    ensures result == RecordAll(headCoords, ListHits(list, sprites, scan, f))
  {
    result := headCoords;
    for j := 0 to |list|
      invariant result == RecordAll(headCoords, ListHits(list[..j], sprites, scan, f))
    {
      var r := list[j];
      ListHitsSnoc(list, j, sprites, scan, f);
      if IsMaskableHead(sprites, r.id) {
        var c := Hit(r, scan, f);
        RecordAllSnoc(headCoords, ListHits(list[..j], sprites, scan, f), c);
        if !HasSpot(result, c) {
          result := result + [c];
        }
      } else {
        assert ListHits(list[..j + 1], sprites, scan, f) == ListHits(list[..j], sprites, scan, f);
      }
    }
    assert list[..|list|] == list;
  }

  /** The first pass over one frame (`[down, up, left, right].forEach(...)`):
      its four lists are scanned in scan order. */
  method RecordFrameHeads(frame: Frame, sprites: map<string, Json>, f: nat, headCoords: seq<HeadCoord>)
    returns (result: seq<HeadCoord>)
    requires |frame.directions| >= 4
    ensures result == RecordAll(headCoords, FrameHits(frame, sprites, f, 4))
  {
    result := headCoords;
    for scan := 0 to 4
      invariant result == RecordAll(headCoords, FrameHits(frame, sprites, f, scan))
    {
      var list := ScannedList(frame, scan);
      result := RecordListHeads(list, sprites, scan, f, result);
      FrameHitsSnoc(frame, sprites, f, scan);
      RecordAllConcat(headCoords, FrameHits(frame, sprites, f, scan), ListHits(list, sprites, scan, f));
    }
  }

  /** The first pass of `updateFramesWithMasks`: it reads the frames and the
      sprite table and builds the `headCoords` list. */
  method CollectHeadCoords(frames: seq<Frame>, sprites: map<string, Json>) returns (headCoords: seq<HeadCoord>)
    requires HasFourDirections(frames)
    ensures headCoords == Candidates(frames, sprites)
  {
    headCoords := [];
    for f := 0 to |frames|
      invariant headCoords == RecordAll([], Hits(frames, sprites, f))
    {
      headCoords := RecordFrameHeads(frames[f], sprites, f, headCoords);
      RecordNextFrame(frames, sprites, f);
    }
  }

  /** Recording frame f's entries after those of the frames before it is
      recording the entries of the first f + 1 frames. */
  lemma RecordNextFrame(frames: seq<Frame>, sprites: map<string, Json>, f: nat)
    requires HasFourDirections(frames) && f < |frames|
    ensures RecordAll([], Hits(frames, sprites, f + 1))
         == RecordAll(RecordAll([], Hits(frames, sprites, f)), FrameHits(frames[f], sprites, f, 4))
  {
    HitsSnoc(frames, sprites, f);
    RecordAllConcat([], Hits(frames, sprites, f), FrameHits(frames[f], sprites, f, 4));
  }

  // ---------------------------------------------------------------------
  // What the scan finds

  /** h is the entry of a 48x48 head placed in `list`. */
  ghost predicate InList(list: seq<SpriteRef>, sprites: map<string, Json>, scan: nat, f: nat, h: HeadCoord) {
    exists j :: 0 <= j < |list| && IsMaskableHead(sprites, list[j].id) && Hit(list[j], scan, f) == h
  }

  /** h is the entry of a 48x48 head placed in one of the four lists of frame f. */
  ghost predicate InFrame(frame: Frame, sprites: map<string, Json>, f: nat, h: HeadCoord)
    requires |frame.directions| >= 4
  {
    exists scan :: 0 <= scan < 4 && InList(ScannedList(frame, scan), sprites, scan, f, h)
  }

  /** h is the entry of a 48x48 head placed anywhere in the document. */
  ghost predicate IsHit(frames: seq<Frame>, sprites: map<string, Json>, h: HeadCoord)
    requires HasFourDirections(frames)
  {
    h.frame < |frames| && InFrame(frames[h.frame], sprites, h.frame, h)
  }

  lemma {:induction false} ListHitsExactly(list: seq<SpriteRef>, sprites: map<string, Json>, scan: nat, f: nat)
    ensures forall h :: h in ListHits(list, sprites, scan, f) <==> InList(list, sprites, scan, f, h)
    decreases |list|
  {
    if list != [] {
      var init := list[..|list| - 1];
      ListHitsExactly(init, sprites, scan, f);
      forall h | InList(init, sprites, scan, f, h) ensures InList(list, sprites, scan, f, h) {
        var j :| 0 <= j < |init| && IsMaskableHead(sprites, init[j].id) && Hit(init[j], scan, f) == h;
        assert list[j] == init[j];
      }
      forall h | InList(list, sprites, scan, f, h) ensures h in ListHits(list, sprites, scan, f) {
        var j :| 0 <= j < |list| && IsMaskableHead(sprites, list[j].id) && Hit(list[j], scan, f) == h;
        if j < |init| {
          assert init[j] == list[j];
          assert InList(init, sprites, scan, f, h);
        }
      }
    }
  }

  lemma {:induction false} FrameHitsExactly(frame: Frame, sprites: map<string, Json>, f: nat, k: nat)
    requires |frame.directions| >= 4 && k <= 4
    ensures forall h :: h in FrameHits(frame, sprites, f, k) <==>
      exists scan :: 0 <= scan < k && InList(ScannedList(frame, scan), sprites, scan, f, h)
    decreases k
  {
    if k > 0 {
      FrameHitsExactly(frame, sprites, f, k - 1);
      ListHitsExactly(ScannedList(frame, k - 1), sprites, k - 1, f);
    }
  }

  lemma {:induction false} HitsUpTo(frames: seq<Frame>, sprites: map<string, Json>, n: nat)
    requires HasFourDirections(frames) && n <= |frames|
    ensures forall h :: h in Hits(frames, sprites, n) <==> h.frame < n && IsHit(frames, sprites, h)
    decreases n
  {
    if n > 0 {
      HitsUpTo(frames, sprites, n - 1);
      FrameHitsExactly(frames[n - 1], sprites, n - 1, 4);
      forall h | h in FrameHits(frames[n - 1], sprites, n - 1, 4) ensures h.frame == n - 1 {
        var scan :| 0 <= scan < 4 && InList(ScannedList(frames[n - 1], scan), sprites, scan, n - 1, h);
      }
    }
  }

  /** The scan's entries are exactly those of the 48x48 heads in the document. */
  lemma HitsExactly(frames: seq<Frame>, sprites: map<string, Json>)
    requires HasFourDirections(frames)
    ensures forall h :: h in Hits(frames, sprites, |frames|) <==> IsHit(frames, sprites, h)
  {
    HitsUpTo(frames, sprites, |frames|);
  }

  // ---------------------------------------------------------------------
  // Scan order

  /** a comes no later than b in the scan: an earlier frame, or the same
      frame and a direction index no greater. */
  predicate ScannedBefore(a: HeadCoord, b: HeadCoord) {
    a.frame < b.frame || (a.frame == b.frame && a.direction <= b.direction)
  }

  ghost predicate InScanOrder(hs: seq<HeadCoord>) {
    forall p, q :: 0 <= p < q < |hs| ==> ScannedBefore(hs[p], hs[q])
  }

  lemma ConcatInScanOrder(a: seq<HeadCoord>, b: seq<HeadCoord>)
    requires InScanOrder(a) && InScanOrder(b)
    requires forall x, y :: x in a && y in b ==> ScannedBefore(x, y)
    ensures InScanOrder(a + b)
  {
    forall p, q | 0 <= p < q < |a + b| ensures ScannedBefore((a + b)[p], (a + b)[q]) {
      if q < |a| {
        assert (a + b)[p] == a[p] && (a + b)[q] == a[q];
      } else if p >= |a| {
        assert (a + b)[p] == b[p - |a|] && (a + b)[q] == b[q - |a|];
      } else {
        assert (a + b)[p] in a && (a + b)[q] in b;
      }
    }
  }

  lemma {:induction false} ListHitsShape(list: seq<SpriteRef>, sprites: map<string, Json>, scan: nat, f: nat)
    ensures forall h :: h in ListHits(list, sprites, scan, f) ==> h.frame == f && h.direction == scan
    ensures InScanOrder(ListHits(list, sprites, scan, f))
    decreases |list|
  {
    if list != [] {
      ListHitsShape(list[..|list| - 1], sprites, scan, f);
      ConcatInScanOrder(ListHits(list[..|list| - 1], sprites, scan, f), HitsOf(list[|list| - 1], sprites, scan, f));
    }
  }

  lemma {:induction false} FrameHitsShape(frame: Frame, sprites: map<string, Json>, f: nat, k: nat)
    requires |frame.directions| >= 4 && k <= 4
    ensures forall h :: h in FrameHits(frame, sprites, f, k) ==> h.frame == f && h.direction < k
    ensures InScanOrder(FrameHits(frame, sprites, f, k))
    decreases k
  {
    if k > 0 {
      FrameHitsShape(frame, sprites, f, k - 1);
      ListHitsShape(ScannedList(frame, k - 1), sprites, k - 1, f);
      ConcatInScanOrder(FrameHits(frame, sprites, f, k - 1), ListHits(ScannedList(frame, k - 1), sprites, k - 1, f));
    }
  }

  lemma {:induction false} HitsShape(frames: seq<Frame>, sprites: map<string, Json>, n: nat)
    requires HasFourDirections(frames) && n <= |frames|
    ensures forall h :: h in Hits(frames, sprites, n) ==> h.frame < n && h.direction < 4
    ensures InScanOrder(Hits(frames, sprites, n))
    decreases n
  {
    if n > 0 {
      HitsShape(frames, sprites, n - 1);
      FrameHitsShape(frames[n - 1], sprites, n - 1, 4);
      ConcatInScanOrder(Hits(frames, sprites, n - 1), FrameHits(frames[n - 1], sprites, n - 1, 4));
    }
  }

  // ---------------------------------------------------------------------
  // De-duplication

  /** A spot already recorded for x is recorded for anything at the same spot. */
  lemma SpotTransfer(d: seq<HeadCoord>, x: HeadCoord, h: HeadCoord)
    ensures HasSpot(d, x) && SameSpot(x, h) ==> HasSpot(d, h)
  {
    if HasSpot(d, x) && SameSpot(x, h) {
      var i :| 0 <= i < |d| && SameSpot(d[i], x);
      assert SameSpot(d[i], h);
    }
  }

  lemma DedupLast(hs: seq<HeadCoord>)
    requires hs != []
    ensures Dedup(hs) == Record(Dedup(hs[..|hs| - 1]), hs[|hs| - 1])
  {
  }

  /** De-duplication only keeps entries it was offered. */
  lemma {:induction false} DedupSubset(hs: seq<HeadCoord>)
    ensures forall c :: c in Dedup(hs) ==> c in hs
    decreases |hs|
  {
    if hs != [] {
      var init := hs[..|hs| - 1];
      DedupSubset(init);
      DedupLast(hs);
      assert forall x :: x in init ==> x in hs;
    }
  }

  /** Every offered entry has its spot recorded. */
  lemma {:induction false} DedupCovers(hs: seq<HeadCoord>)
    ensures forall h :: h in hs ==> HasSpot(Dedup(hs), h)
    decreases |hs|
  {
    if hs != [] {
      var init, h := hs[..|hs| - 1], hs[|hs| - 1];
      DedupCovers(init);
      DedupLast(hs);
      var d := Dedup(init);
      forall x | x in hs ensures HasSpot(Dedup(hs), x) {
        if x in init {
          var i :| 0 <= i < |d| && SameSpot(d[i], x);
          assert Dedup(hs)[i] == d[i];
        } else {
          assert x == h;
          if !HasSpot(d, h) {
            assert Dedup(hs)[|d|] == h;
          }
        }
      }
    }
  }

  /** No two recorded entries share a spot. */
  lemma {:induction false} DedupDistinct(hs: seq<HeadCoord>)
    ensures forall p, q :: 0 <= p < q < |Dedup(hs)| ==> !SameSpot(Dedup(hs)[p], Dedup(hs)[q])
    decreases |hs|
  {
    if hs != [] {
      DedupDistinct(hs[..|hs| - 1]);
      DedupLast(hs);
    }
  }

  /** A recorded entry c at the spot of hs[j] is offered at or before j. */
  lemma {:induction false} DedupFirstAt(hs: seq<HeadCoord>, c: HeadCoord, j: nat) returns (i: nat)
    requires c in Dedup(hs) && j < |hs| && SameSpot(hs[j], c)
    ensures i <= j && hs[i] == c
    decreases |hs|
  {
    var init, h := hs[..|hs| - 1], hs[|hs| - 1];
    DedupLast(hs);
    var d := Dedup(init);
    if c in d {
      if j < |init| {
        assert init[j] == hs[j];
        i := DedupFirstAt(init, c, j);
        assert hs[i] == init[i];
      } else {
        DedupSubset(init);
        i :| 0 <= i < |init| && init[i] == c;
        assert hs[i] == init[i];
      }
    } else {
      assert c == h && !HasSpot(d, h);
      DedupCovers(init);
      if j < |init| {
        assert hs[j] == init[j];
      }
      SpotTransfer(d, hs[j], h);
      i := j;
    }
  }

  /** A recorded entry is the first offered entry at its spot. */
  lemma DedupFirst(hs: seq<HeadCoord>)
    ensures forall c, j :: c in Dedup(hs) && 0 <= j < |hs| && SameSpot(hs[j], c) ==>
      exists i :: 0 <= i <= j && hs[i] == c
  {
    forall c, j | c in Dedup(hs) && 0 <= j < |hs| && SameSpot(hs[j], c)
      ensures exists i :: 0 <= i <= j && hs[i] == c
    {
      var i := DedupFirstAt(hs, c, j);
    }
  }

  lemma DedupFacts(hs: seq<HeadCoord>)
    ensures forall c :: c in Dedup(hs) ==> c in hs
    ensures forall h :: h in hs ==> HasSpot(Dedup(hs), h)
    ensures forall p, q :: 0 <= p < q < |Dedup(hs)| ==> !SameSpot(Dedup(hs)[p], Dedup(hs)[q])
    ensures forall c, j :: c in Dedup(hs) && 0 <= j < |hs| && SameSpot(hs[j], c) ==>
      exists i :: 0 <= i <= j && hs[i] == c
  {
    DedupSubset(hs);
    DedupCovers(hs);
    DedupDistinct(hs);
    DedupFirst(hs);
  }

  /** Every candidate is the entry of a 48x48 head: in its frame, in the list
      scanned at its direction index, at the offset that index selects. */
  lemma CandidatesSound(frames: seq<Frame>, sprites: map<string, Json>)
    requires HasFourDirections(frames)
    ensures forall c :: c in Candidates(frames, sprites) ==>
      && c.frame < |frames| && c.direction < 4
      && InList(ScannedList(frames[c.frame], c.direction), sprites, c.direction, c.frame, c)
  {
    var hs := Hits(frames, sprites, |frames|);
    DedupFacts(hs);
    HitsExactly(frames, sprites);
    HitsShape(frames, sprites, |frames|);
  }

  /** Every 48x48 head gets a candidate at its mask position in its frame. */
  lemma CandidatesComplete(frames: seq<Frame>, sprites: map<string, Json>, h: HeadCoord)
    requires HasFourDirections(frames)
    requires IsHit(frames, sprites, h)
    ensures exists c :: c in Candidates(frames, sprites) && SameSpot(c, h)
  {
    HitsExactly(frames, sprites);
    DedupFacts(Hits(frames, sprites, |frames|));
    var d := Candidates(frames, sprites);
    var i :| 0 <= i < |d| && SameSpot(d[i], h);
    assert d[i] in d;
  }

  /** No two candidates share a frame and a mask position. */
  lemma CandidatesUnique(frames: seq<Frame>, sprites: map<string, Json>)
    requires HasFourDirections(frames)
    ensures forall p, q :: 0 <= p < q < |Candidates(frames, sprites)| ==>
      !SameSpot(Candidates(frames, sprites)[p], Candidates(frames, sprites)[q])
  {
    DedupFacts(Hits(frames, sprites, |frames|));
  }

  /** Of several heads asking for the same spot of a frame, the one scanned
      first wins: the candidate's direction index is the smallest among them. */
  lemma CandidatesFirstInScanOrder(frames: seq<Frame>, sprites: map<string, Json>, c: HeadCoord, h: HeadCoord)
    requires HasFourDirections(frames)
    requires c in Candidates(frames, sprites)
    requires IsHit(frames, sprites, h) && SameSpot(h, c)
    ensures c.direction <= h.direction
  {
    var hs := Hits(frames, sprites, |frames|);
    assert h in hs by {
      HitsExactly(frames, sprites);
    }
    var j :| 0 <= j < |hs| && hs[j] == h;
    assert exists i :: 0 <= i <= j && hs[i] == c by {
      DedupFacts(hs);
    }
    var i :| 0 <= i <= j && hs[i] == c;
    assert ScannedBefore(c, h) by {
      HitsShape(frames, sprites, |frames|);
      if i < j {
        assert ScannedBefore(hs[i], hs[j]);
      }
    }
  }

  /** There is no candidate exactly when no frame holds a 48x48 head. */
  lemma NoCandidatesIffNoHeads(frames: seq<Frame>, sprites: map<string, Json>)
    requires HasFourDirections(frames)
    ensures Candidates(frames, sprites) == [] <==> forall h :: !IsHit(frames, sprites, h)
  {
    var hs := Hits(frames, sprites, |frames|);
    HitsExactly(frames, sprites);
    DedupFacts(hs);
    if Candidates(frames, sprites) != [] {
      assert Candidates(frames, sprites)[0] in hs;
    }
    if hs != [] {
      assert hs[0] in hs;
    }
  }
}
