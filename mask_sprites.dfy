/** main.js `createMaskSprites`: four MASK sprites are written into the
    sprite table, the i-th (in the order down, up, right, left) under the
    key `toString(|sprites| + i)` with |sprites| read after the earlier
    insertions. Nothing checks whether that key is already taken. */
module MaskSprites {
  import opened Json
  import opened BaniModel
  import Decimal

  /** The order the four mask sprites are created in. */
  const CreationOrder: seq<Direction> := [Down, Up, Right, Left]

  function Ints(xs: seq<int>): Json {
    JArr(seq(|xs|, i requires 0 <= i < |xs| => JNum(xs[i])))
  }

  /** The sheet rectangle `[x, y, w, h]` of each direction's mask. */
  function MaskBounds(d: Direction): seq<int> {
    match d
    case Down => [0, 0, 48, 72]
    case Up => [48, 0, 48, 72]
    case Right => [96, 0, 48, 72]
    case Left => [96, 0, 48, 72]
  }

  /** The sprite definition `{gfx: "MASK", bounds: [x, y, w, h]}`, with
      `scale: [-1, 1]` only when mirrored. */
  function MaskDefinition(b: seq<int>, mirrored: bool): Json
    requires |b| == 4
  {
    var base := map["gfx" := JStr("MASK"), "bounds" := JArr([JNum(b[0]), JNum(b[1]), JNum(b[2]), JNum(b[3])])];
    JObj(if mirrored then base["scale" := JArr([JNum(-1), JNum(1)])] else base)
  }

  const DownMask: Json := MaskDefinition(MaskBounds(Down), false)
  const UpMask: Json := MaskDefinition(MaskBounds(Up), false)
  const RightMask: Json := MaskDefinition(MaskBounds(Right), false)
  const LeftMask: Json := MaskDefinition(MaskBounds(Left), true)

  /** The sprite definition written for direction d; only left is mirrored. */
  function MaskSprite(d: Direction): Json {
    match d
    case Down => DownMask
    case Up => UpMask
    case Right => RightMask
    case Left => LeftMask
  }

  /** The key the i-th insertion uses on a table s. */
  function KeyAt(s: map<string, Json>, i: nat): string {
    Decimal.NatToString(|s| + i)
  }

  /** The sprite table after the first k insertions. */
  function SpritesAfter(s: map<string, Json>, k: nat): (r: map<string, Json>)
    requires k <= 4
    ensures s.Keys <= r.Keys && |s| <= |r| <= |s| + k
  {
    if k == 0 then s
    else
      var p := SpritesAfter(s, k - 1);
      p[KeyAt(p, k - 1) := MaskSprite(CreationOrder[k - 1])]
  }

  /** The keys of the first k insertions, in creation order. */
  function ChosenKeys(s: map<string, Json>, k: nat): (keys: seq<string>)
    requires k <= 4
    ensures |keys| == k
  {
    if k == 0 then [] else ChosenKeys(s, k - 1) + [KeyAt(SpritesAfter(s, k - 1), k - 1)]
  }

  /** The numeric value of the i-th chosen key. */
  ghost function KeyNumber(s: map<string, Json>, i: nat): nat
    requires i < 4
  {
    |SpritesAfter(s, i)| + i
  }

  function KeysByName(keys: seq<string>): MaskKeys
    requires |keys| == 4
  {
    MaskKeys(down := keys[0], up := keys[1], right := keys[2], left := keys[3])
  }

  /** The mask sprites have exactly the fields gfx (MASK) and bounds (the
      bounds table), plus scale [-1, 1] on the left one only, and are never
      taken for 48x48 heads. */
  lemma MaskSpriteShape(d: Direction)
    ensures MaskSprite(d).fields.Keys == {"gfx", "bounds"} + (if d == Left then {"scale"} else {})
    ensures MaskSprite(d).fields["gfx"] == JStr("MASK")
    ensures MaskSprite(d).fields["bounds"] == Ints(MaskBounds(d))
    ensures "scale" in MaskSprite(d).fields <==> d == Left
    ensures d == Left ==> MaskSprite(d).fields["scale"] == Ints([-1, 1])
    ensures !IsHeadSprite(MaskSprite(d))
  {
  }

  /** One insertion: the k-th key is read from the table the earlier ones left. */
  lemma Step(s: map<string, Json>, k: nat)
    requires k < 4
    ensures var p := SpritesAfter(s, k);
      && SpritesAfter(s, k + 1) == p[KeyAt(p, k) := MaskSprite(CreationOrder[k])]
      && ChosenKeys(s, k + 1) == ChosenKeys(s, k) + [KeyAt(p, k)]
      && |SpritesAfter(s, k + 1)| == if KeyAt(p, k) in p then |p| else |p| + 1
  {
    StepTable(s, k);
    StepKeys(s, k);
    StepSize(s, k);
  }

  lemma StepTable(s: map<string, Json>, k: nat)
    requires k < 4
    ensures SpritesAfter(s, k + 1) == SpritesAfter(s, k)[KeyAt(SpritesAfter(s, k), k) := MaskSprite(CreationOrder[k])]
  {
  }

  lemma StepKeys(s: map<string, Json>, k: nat)
    requires k < 4
    ensures ChosenKeys(s, k + 1) == ChosenKeys(s, k) + [KeyAt(SpritesAfter(s, k), k)]
  {
  }

  /** The table grows by one exactly when the k-th key is new. */
  lemma StepSize(s: map<string, Json>, k: nat)
    requires k < 4
    ensures var p := SpritesAfter(s, k);
      |SpritesAfter(s, k + 1)| == if KeyAt(p, k) in p then |p| else |p| + 1
  {
    StepTable(s, k);
  }

  /** A chosen key keeps its place as later keys are chosen. */
  lemma ChosenKeyAt(s: map<string, Json>, i: nat, k: nat)
    requires i < k <= 4
    ensures ChosenKeys(s, k)[i] == Decimal.NatToString(KeyNumber(s, i))
  {
    var key := KeyAt(SpritesAfter(s, i), i);
    LastChosen(s, i);
    for j := i + 1 to k
      invariant ChosenKeys(s, j)[i] == key
    {
      ChosenKept(s, i, j);
    }
  }

  /** Later steps only append, so earlier keys stay where they are. */
  lemma ChosenKept(s: map<string, Json>, i: nat, j: nat)
    requires i < j < 4
    ensures ChosenKeys(s, j + 1)[i] == ChosenKeys(s, j)[i]
  {
    StepKeys(s, j);
  }

  /** The key appended by step i is the one that step writes. */
  lemma LastChosen(s: map<string, Json>, i: nat)
    requires i < 4
    ensures ChosenKeys(s, i + 1)[i] == KeyAt(SpritesAfter(s, i), i)
  {
    StepKeys(s, i);
  }

  /** Insertions never shrink the table. */
  lemma {:induction false} SizeMonotone(s: map<string, Json>, i: nat, j: nat)
    requires i <= j <= 4
    ensures |SpritesAfter(s, i)| <= |SpritesAfter(s, j)|
    decreases j
  {
    if i < j {
      SizeMonotone(s, i, j - 1);
      StepSize(s, j - 1);
    }
  }

  /** The chosen keys are the numerals of strictly increasing numbers, so
      they are pairwise distinct. */
  lemma KeysIncrease(s: map<string, Json>)
    ensures forall i :: 0 <= i < 4 ==> ChosenKeys(s, 4)[i] == Decimal.NatToString(KeyNumber(s, i))
    ensures forall i, j :: 0 <= i < j < 4 ==> KeyNumber(s, i) < KeyNumber(s, j)
    ensures forall i, j :: 0 <= i < j < 4 ==> ChosenKeys(s, 4)[i] != ChosenKeys(s, 4)[j]
  {
    forall i | 0 <= i < 4 ensures ChosenKeys(s, 4)[i] == Decimal.NatToString(KeyNumber(s, i)) {
      ChosenKeyAt(s, i, 4);
    }
    forall i, j | 0 <= i < j < 4 ensures KeyNumber(s, i) < KeyNumber(s, j) {
      SizeMonotone(s, i, j);
    }
    forall i, j | 0 <= i < j < 4 ensures ChosenKeys(s, 4)[i] != ChosenKeys(s, 4)[j] {
      Decimal.NatToStringInjective(KeyNumber(s, i), KeyNumber(s, j));
    }
  }

  /** The i-th mask sprite survives every later insertion. */
  lemma EntryKept(s: map<string, Json>, i: nat, k: nat)
    requires i < k <= 4
    ensures var key := Decimal.NatToString(KeyNumber(s, i));
      key in SpritesAfter(s, k) && SpritesAfter(s, k)[key] == MaskSprite(CreationOrder[i])
  {
    var key := Decimal.NatToString(KeyNumber(s, i));
    var sprite := MaskSprite(CreationOrder[i]);
    WrittenAt(s, i);
    for j := i + 1 to k
      invariant key in SpritesAfter(s, j) && SpritesAfter(s, j)[key] == sprite
    {
      KeptByStep(s, i, j);
    }
  }

  /** The i-th insertion writes its sprite under the numeral of KeyNumber(s, i). */
  lemma WrittenAt(s: map<string, Json>, i: nat)
    requires i < 4
    ensures var key := Decimal.NatToString(KeyNumber(s, i));
      key in SpritesAfter(s, i + 1) && SpritesAfter(s, i + 1)[key] == MaskSprite(CreationOrder[i])
  {
  }

  /** A later insertion uses a different key, so it keeps the i-th entry. */
  lemma KeptByStep(s: map<string, Json>, i: nat, j: nat)
    requires i < j < 4
    ensures var key := Decimal.NatToString(KeyNumber(s, i));
      key in SpritesAfter(s, j) ==> key in SpritesAfter(s, j + 1) && SpritesAfter(s, j + 1)[key] == SpritesAfter(s, j)[key]
  {
    var p := SpritesAfter(s, j);
    assert KeyAt(p, j) != Decimal.NatToString(KeyNumber(s, i)) by {
      SizeMonotone(s, i, j);
      Decimal.NatToStringInjective(KeyNumber(s, i), KeyNumber(s, j));
    }
    StepTable(s, j);
  }

  /** After the four insertions every chosen key holds its direction's mask
      sprite, whatever was stored under it before. */
  lemma MaskEntries(s: map<string, Json>)
    ensures forall i :: 0 <= i < 4 ==>
      ChosenKeys(s, 4)[i] in SpritesAfter(s, 4) && SpritesAfter(s, 4)[ChosenKeys(s, 4)[i]] == MaskSprite(CreationOrder[i])
  {
    forall i | 0 <= i < 4
      ensures ChosenKeys(s, 4)[i] in SpritesAfter(s, 4) && SpritesAfter(s, 4)[ChosenKeys(s, 4)[i]] == MaskSprite(CreationOrder[i])
    {
      ChosenKeyAt(s, i, 4);
      EntryKept(s, i, 4);
    }
  }

  /** The first k insertions add exactly the chosen keys and change no other entry. */
  lemma {:induction false} OthersUntouchedAfter(s: map<string, Json>, k: nat)
    requires k <= 4
    ensures forall key :: key in SpritesAfter(s, k) <==> key in s || key in ChosenKeys(s, k)
    ensures forall key :: key in s && key !in ChosenKeys(s, k) ==> SpritesAfter(s, k)[key] == s[key]
    decreases k
  {
    if k > 0 {
      OthersUntouchedAfter(s, k - 1);
      StepTable(s, k - 1);
      StepKeys(s, k - 1);
    }
  }

  /** No other entry changes, and no entry is removed. */
  lemma OthersUntouched(s: map<string, Json>)
    ensures forall key :: key in SpritesAfter(s, 4) <==> key in s || key in ChosenKeys(s, 4)
    ensures forall key :: key in s && key !in ChosenKeys(s, 4) ==> SpritesAfter(s, 4)[key] == s[key]
  {
    OthersUntouchedAfter(s, 4);
  }

  /** The numeral n + 2i, n being the size of the table. */
  function FreeKey(s: map<string, Json>, i: nat): string {
    Decimal.NatToString(|s| + 2 * i)
  }

  function FreeKeys(s: map<string, Json>): set<string> {
    {FreeKey(s, 0), FreeKey(s, 1), FreeKey(s, 2), FreeKey(s, 3)}
  }

  lemma FreeKeysDistinct(s: map<string, Json>, i: nat, j: nat)
    requires i < j
    ensures FreeKey(s, i) != FreeKey(s, j)
  {
    Decimal.NatToStringInjective(|s| + 2 * i, |s| + 2 * j);
  }

  /** One insertion when the earlier ones took the first free keys: the next
      key is free too, so it is new and the table grows by one. */
  lemma FreshKeyStep(s: map<string, Json>, k: nat)
    requires k < 4
    requires FreeKeys(s) !! s.Keys
    requires forall i :: 0 <= i < k ==> ChosenKeys(s, k)[i] == FreeKey(s, i)
    requires |SpritesAfter(s, k)| == |s| + k
    ensures ChosenKeys(s, k + 1) == ChosenKeys(s, k) + [FreeKey(s, k)]
    ensures |SpritesAfter(s, k + 1)| == |s| + k + 1
  {
    var p := SpritesAfter(s, k);
    var key := FreeKey(s, k);
    assert |p| + k == |s| + 2 * k;
    assert KeyAt(p, k) == key;
    assert key !in p by {
      OthersUntouchedAfter(s, k);
      assert key in FreeKeys(s) by {
        assert k == 0 || k == 1 || k == 2 || k == 3;
      }
      var prev := ChosenKeys(s, k);
      forall i | 0 <= i < k ensures prev[i] != key {
        FreeKeysDistinct(s, i, k);
      }
    }
    StepKeys(s, k);
    StepSize(s, k);
  }

  lemma {:induction false} FreshKeysAfter(s: map<string, Json>, k: nat)
    requires k <= 4
    requires FreeKeys(s) !! s.Keys
    ensures forall i :: 0 <= i < k ==> ChosenKeys(s, k)[i] == FreeKey(s, i)
    ensures |SpritesAfter(s, k)| == |s| + k
    decreases k
  {
    if k > 0 {
      FreshKeysAfter(s, k - 1);
      FreshKeyStep(s, k - 1);
      var prev := ChosenKeys(s, k - 1);
      forall i | 0 <= i < k ensures ChosenKeys(s, k)[i] == FreeKey(s, i) {
        if i < k - 1 {
          assert ChosenKeys(s, k)[i] == prev[i];
        }
      }
    }
  }

  /** When n, n+2, n+4, n+6 (n the table's size) are all free, those are
      the keys chosen and the table grows by exactly four. */
  lemma FreshKeys(s: map<string, Json>)
    requires FreeKeys(s) !! s.Keys
    ensures forall i :: 0 <= i < 4 ==> ChosenKeys(s, 4)[i] == FreeKey(s, i)
    ensures |SpritesAfter(s, 4)| == |s| + 4
  {
    FreshKeysAfter(s, 4);
  }

  /** With keys "0", "1" and "5" taken, the up mask lands on "5" and replaces
      the sprite stored there: the allocation does not avoid collisions, and
      the table grows by three instead of four. */
  lemma KeyReuseOverwrites(s: map<string, Json>)
    requires s.Keys == {"0", "1", "5"}
    ensures ChosenKeys(s, 4)[1] == "5"
    ensures "5" in SpritesAfter(s, 4) && SpritesAfter(s, 4)["5"] == MaskSprite(Up)
    ensures |SpritesAfter(s, 4)| == 6
  {
    ReuseSizes(s);
    ChosenKeyAt(s, 1, 4);
    MaskEntries(s);
  }

  /** The first two insertions into a table keyed "0", "1", "5": "3" is
      added, then "5" is reused. */
  lemma ReuseFirstTwo(s: map<string, Json>)
    requires s.Keys == {"0", "1", "5"}
    ensures |SpritesAfter(s, 1)| == 4
    ensures SpritesAfter(s, 2).Keys == {"0", "1", "5", "3"}
  {
    var p1 := SpritesAfter(s, 1);
    assert p1.Keys == {"0", "1", "5", "3"} by {
      assert |s| == |s.Keys| == 3;
      assert Decimal.NatToString(3) == "3";
      StepTable(s, 0);
    }
    assert |p1| == |p1.Keys| == 4;
    assert Decimal.NatToString(5) == "5";
    StepTable(s, 1);
  }

  lemma ReuseSizes(s: map<string, Json>)
    requires s.Keys == {"0", "1", "5"}
    ensures |SpritesAfter(s, 1)| == 4 && |SpritesAfter(s, 4)| == 6
  {
    var p2 := SpritesAfter(s, 2);
    ReuseFirstTwo(s);
    var p3 := SpritesAfter(s, 3);
    assert p3.Keys == {"0", "1", "5", "3", "6"} by {
      assert |p2| == |p2.Keys| == 4;
      assert Decimal.NatToString(6) == "6";
      StepTable(s, 2);
    }
    assert |p3| == |p3.Keys| == 5;
    assert Decimal.NatToString(8) == "8";
    StepSize(s, 3);
  }
}
