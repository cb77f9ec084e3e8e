/** main.js `validateBaniFile` and `checkProperties`: presence checks in a
    fixed order that stop at the first missing key, then two shape checks.
    Both are functions of the document, so validation cannot change it. */
module Validator {
  import opened Wrappers
  import opened Json

  datatype ValidationError =
    | MissingProperty(path: string)
    /** `hasOwnProperty` could not be called on the container at this prefix:
        the container is null, or it has an own key named "hasOwnProperty". */
    | TypeError(prefix: string)
    | InvalidBlockingBounds
    | InvalidSprites

  const RequiredProps: seq<string> := ["name", "modificatedDate", "filetype", "options", "sprites", "defaults"]
  const RequiredOptionsProps: seq<string> := ["looping", "continuous", "blockingbounds", "center"]
  const RequiredDefaultsProps: seq<string> := ["BODY", "HEAD", "HAT"]

  /** `obj.hasOwnProperty(prop)` on a parsed JSON value. */
  function HasOwnProperty(obj: Json, prop: string, prefix: string): (r: Result<bool, ValidationError>)
    ensures r.Failure? <==> !CanAsk(obj)
    ensures r.Failure? ==> r.error == TypeError(prefix)
    ensures r.Success? ==> (r.value <==> HasOwn(obj, prop))
  {
    match obj
    case JNull => Failure(TypeError(prefix))
    case JObj(fields) => if "hasOwnProperty" in fields then Failure(TypeError(prefix)) else Success(prop in fields)
    case _ => Success(false)
  }

  /** `obj.hasOwnProperty` can be called: obj is not null and no own key shadows it. */
  predicate CanAsk(obj: Json) {
    obj != JNull && !(obj.JObj? && "hasOwnProperty" in obj.fields)
  }

  /** A container whose own keys can be asked about and which has `prop`. */
  predicate HasOwn(obj: Json, prop: string) {
    CanAsk(obj) && obj.JObj? && prop in obj.fields
  }

  /** `checkProperties(obj, properties, prefix)`: the first property that is
      not an own key of obj fails, naming prefix + property. */
  function CheckProperties(obj: Json, props: seq<string>, prefix: string): (r: Outcome<ValidationError>)
    ensures r == Pass <==> forall k :: 0 <= k < |props| ==> HasOwn(obj, props[k])
    ensures r.Fail? && !r.error.MissingProperty? ==> r.error == TypeError(prefix) && !CanAsk(obj) && props != []
    ensures r.Fail? && r.error.MissingProperty? ==>
      (CanAsk(obj) &&
       exists k :: 0 <= k < |props| && r.error.path == prefix + props[k] && !HasOwn(obj, props[k])
         && (forall m :: 0 <= m < k ==> HasOwn(obj, props[m])))
  {
    if props == [] then Pass
    else match HasOwnProperty(obj, props[0], prefix)
      case Failure(e) => Fail(e)
      case Success(false) => Fail(MissingProperty(prefix + props[0]))
      case Success(true) =>
        var r := CheckProperties(obj, props[1..], prefix);
        assert forall k :: 1 <= k < |props| ==> props[1..][k - 1] == props[k];
        r
  }

  predicate IsArrayOf4(v: Json) {
    v.JArr? && |v.items| == 4
  }

  /** `!v || typeof v !== 'object'` rejects v: only arrays and objects pass. */
  predicate IsObjectLike(v: Json) {
    Truthy(v) && (v.JNull? || v.JArr? || v.JObj?)
  }

  /** `validateBaniFile(data)`: Pass, or the error it throws first. */
  function Validate(data: Json): (r: Outcome<ValidationError>)
    ensures r.Pass? ==> data.JObj? && forall k :: 0 <= k < |RequiredProps| ==> RequiredProps[k] in data.fields
    ensures r.Pass? ==> data.JObj? && "sprites" in data.fields && IsObjectLike(data.fields["sprites"])
    ensures r.Pass? ==> data.JObj? && "options" in data.fields && var options := data.fields["options"];
      options.JObj? && "blockingbounds" in options.fields && IsArrayOf4(options.fields["blockingbounds"])
  {
    match CheckProperties(data, RequiredProps, "")
    case Fail(e) => Fail(e)
    case Pass =>
      assert HasOwn(data, RequiredProps[3]) && HasOwn(data, RequiredProps[5]);
      var options := data.fields["options"];
      var defaults := data.fields["defaults"];
      match CheckProperties(options, RequiredOptionsProps, "options.")
      case Fail(e) => Fail(e)
      case Pass =>
        match CheckProperties(defaults, RequiredDefaultsProps, "defaults.")
        case Fail(e) => Fail(e)
        case Pass =>
          assert HasOwn(options, RequiredOptionsProps[2]) && HasOwn(data, RequiredProps[4]);
          if !IsArrayOf4(options.fields["blockingbounds"]) then Fail(InvalidBlockingBounds)
          else if !IsObjectLike(data.fields["sprites"]) then Fail(InvalidSprites)
          else Pass
  }

  // A declarative reading of the same checks, used to state what Validate decides.

  /** The thirteen required paths, in the order they are checked. */
  function PathCount(): nat { |RequiredProps| + |RequiredOptionsProps| + |RequiredDefaultsProps| }

  function PrefixAt(i: nat): string {
    if i < 6 then "" else if i < 10 then "options." else "defaults."
  }

  function RequiredKeyAt(i: nat): string
    requires i < PathCount()
  {
    if i < 6 then RequiredProps[i] else if i < 10 then RequiredOptionsProps[i - 6] else RequiredDefaultsProps[i - 10]
  }

  /** The value the i-th path is looked up in, once its parent exists. */
  function ContainerAt(data: Json, i: nat): Option<Json> {
    if i < 6 then Some(data)
    else
      var parent := if i < 10 then "options" else "defaults";
      if data.JObj? && parent in data.fields then Some(data.fields[parent]) else None
  }

  ghost predicate PresentAt(data: Json, i: nat)
    requires i < PathCount()
  {
    ContainerAt(data, i).Some? && HasOwn(ContainerAt(data, i).value, RequiredKeyAt(i))
  }

  /** The i-th key is absent from a container that can be asked about it. */
  ghost predicate AbsentAt(data: Json, i: nat)
    requires i < PathCount()
  {
    ContainerAt(data, i).Some? && CanAsk(ContainerAt(data, i).value) && !HasOwn(ContainerAt(data, i).value, RequiredKeyAt(i))
  }

  /** Path i is the first of the thirteen that is absent. */
  ghost predicate IsFirstMissing(data: Json, i: nat) {
    i < PathCount() && (forall j :: 0 <= j < i ==> PresentAt(data, j)) && AbsentAt(data, i)
  }

  ghost predicate AllPresent(data: Json) {
    forall i :: 0 <= i < PathCount() ==> PresentAt(data, i)
  }

  ghost predicate BoundsOk(data: Json) {
    && data.JObj? && "options" in data.fields
    && data.fields["options"].JObj? && "blockingbounds" in data.fields["options"].fields
    && IsArrayOf4(data.fields["options"].fields["blockingbounds"])
  }

  ghost predicate SpritesOk(data: Json) {
    data.JObj? && "sprites" in data.fields && IsObjectLike(data.fields["sprites"])
  }

  /** The shape checks pass (the keys they read are present). */
  ghost predicate ShapesOk(data: Json) {
    BoundsOk(data) && SpritesOk(data)
  }

  lemma CheckTop(data: Json)
    ensures CheckProperties(data, RequiredProps, "") == Pass <==> forall i :: 0 <= i < 6 ==> PresentAt(data, i)
  {
    if forall i :: 0 <= i < 6 ==> PresentAt(data, i) {
      forall k | 0 <= k < 6 ensures HasOwn(data, RequiredProps[k]) {
        assert PresentAt(data, k);
      }
    }
  }

  lemma CheckOptions(data: Json)
    requires forall i :: 0 <= i < 6 ==> PresentAt(data, i)
    ensures PresentAt(data, 3)
    ensures CheckProperties(data.fields["options"], RequiredOptionsProps, "options.") == Pass
      <==> forall i :: 6 <= i < 10 ==> PresentAt(data, i)
  {
    assert PresentAt(data, 3);
    if forall i :: 6 <= i < 10 ==> PresentAt(data, i) {
      forall k | 0 <= k < 4 ensures HasOwn(data.fields["options"], RequiredOptionsProps[k]) {
        assert PresentAt(data, k + 6);
      }
    }
  }

  lemma CheckDefaults(data: Json)
    requires forall i :: 0 <= i < 6 ==> PresentAt(data, i)
    ensures PresentAt(data, 5)
    ensures CheckProperties(data.fields["defaults"], RequiredDefaultsProps, "defaults.") == Pass
      <==> forall i :: 10 <= i < 13 ==> PresentAt(data, i)
  {
    assert PresentAt(data, 5);
    if forall i :: 10 <= i < 13 ==> PresentAt(data, i) {
      forall k | 0 <= k < 3 ensures HasOwn(data.fields["defaults"], RequiredDefaultsProps[k]) {
        assert PresentAt(data, k + 10);
      }
    }
  }

  /** Once every key is present, only the two shape checks remain. */
  lemma ValidateWhenAllPresent(data: Json)
    requires AllPresent(data)
    ensures Validate(data) ==
      if !BoundsOk(data) then Fail(InvalidBlockingBounds)
      else if !SpritesOk(data) then Fail(InvalidSprites)
      else Pass
  {
    CheckTop(data);
    CheckOptions(data);
    CheckDefaults(data);
    assert PresentAt(data, 4) && PresentAt(data, 8);
  }

  /** A missing key, or a container that cannot be asked, fails before any shape check. */
  lemma ValidateWhenSomeMissing(data: Json)
    requires !AllPresent(data)
    ensures Validate(data).Fail? && (Validate(data).error.MissingProperty? || Validate(data).error.TypeError?)
  {
    CheckTop(data);
    if forall i :: 0 <= i < 6 ==> PresentAt(data, i) {
      CheckOptions(data);
      CheckDefaults(data);
    }
  }

  /** Validation accepts exactly the documents with all thirteen keys, a
      four-element `options.blockingbounds` and an object or array `sprites`. */
  lemma ValidateAcceptsExactly(data: Json)
    ensures Validate(data) == Pass <==> AllPresent(data) && ShapesOk(data)
  {
    if AllPresent(data) {
      ValidateWhenAllPresent(data);
    } else {
      ValidateWhenSomeMissing(data);
    }
  }

  /** checkProperties fails at the first key that is not an own key of obj. */
  lemma {:induction false} CheckFailsAtFirst(obj: Json, props: seq<string>, prefix: string, k: nat)
    requires k < |props|
    requires forall m :: 0 <= m < k ==> HasOwn(obj, props[m])
    requires !HasOwn(obj, props[k])
    ensures CheckProperties(obj, props, prefix) ==
      if CanAsk(obj) then Fail(MissingProperty(prefix + props[k])) else Fail(TypeError(prefix))
    decreases k
  {
    if k > 0 {
      assert HasOwn(obj, props[0]);
      CheckFailsAtFirst(obj, props[1..], prefix, k - 1);
    }
  }

  /** Path i is the first of the thirteen that is not present. */
  ghost predicate IsFirstNotPresent(data: Json, i: nat) {
    i < PathCount() && (forall j :: 0 <= j < i ==> PresentAt(data, j)) && !PresentAt(data, i)
  }

  /** Validation fails at the first path that is not present: with that path
      when its container can be asked, with a TypeError on the container otherwise. */
  lemma FirstFailureIsReported(data: Json, i: nat)
    requires IsFirstNotPresent(data, i)
    ensures ContainerAt(data, i).Some?
    ensures Validate(data) ==
      if CanAsk(ContainerAt(data, i).value) then Fail(MissingProperty(PrefixAt(i) + RequiredKeyAt(i)))
      else Fail(TypeError(PrefixAt(i)))
  {
    if i < 6 {
      forall m | 0 <= m < i ensures HasOwn(data, RequiredProps[m]) {
        assert PresentAt(data, m);
      }
      CheckFailsAtFirst(data, RequiredProps, "", i);
    } else {
      forall m | 0 <= m < 6 ensures PresentAt(data, m) { }
      CheckTop(data);
      CheckOptions(data);
      var options := data.fields["options"];
      if i < 10 {
        forall m | 0 <= m < i - 6 ensures HasOwn(options, RequiredOptionsProps[m]) {
          assert PresentAt(data, m + 6);
        }
        CheckFailsAtFirst(options, RequiredOptionsProps, "options.", i - 6);
      } else {
        forall m | 6 <= m < 10 ensures PresentAt(data, m) { }
        CheckDefaults(data);
        var defaults := data.fields["defaults"];
        forall m | 0 <= m < i - 10 ensures HasOwn(defaults, RequiredDefaultsProps[m]) {
          assert PresentAt(data, m + 10);
        }
        CheckFailsAtFirst(defaults, RequiredDefaultsProps, "defaults.", i - 10);
      }
    }
  }

  /** The first missing path, in the fixed order, is the one reported. */
  lemma FirstMissingIsReported(data: Json, i: nat)
    requires IsFirstMissing(data, i)
    ensures Validate(data) == Fail(MissingProperty(PrefixAt(i) + RequiredKeyAt(i)))
  {
    FirstFailureIsReported(data, i);
  }

  /** A reported missing path is the first absent one, all paths before it being present. */
  lemma ReportedMissingIsFirst(data: Json)
    requires Validate(data).Fail? && Validate(data).error.MissingProperty?
    ensures exists i :: IsFirstMissing(data, i) && Validate(data).error.path == PrefixAt(i) + RequiredKeyAt(i)
  {
    if AllPresent(data) {
      ValidateWhenAllPresent(data);
    } else {
      var i := FirstNotPresent(data);
      FirstFailureIsReported(data, i);
      assert IsFirstMissing(data, i);
    }
  }

  /** Some path is not present, so there is a first one. */
  lemma FirstNotPresent(data: Json) returns (i: nat)
    requires !AllPresent(data)
    ensures IsFirstNotPresent(data, i)
  {
    var w :| 0 <= w < PathCount() && !PresentAt(data, w);
    i := 0;
    while PresentAt(data, i)
      invariant i <= w
      invariant forall j :: 0 <= j < i ==> PresentAt(data, j)
      decreases w - i
    {
      i := i + 1;
    }
  }

  /** The shape checks run only once every key is present, blockingbounds first. */
  lemma ShapeErrors(data: Json)
    ensures Validate(data) == Fail(InvalidBlockingBounds) <==> AllPresent(data) && !BoundsOk(data)
    ensures Validate(data) == Fail(InvalidSprites) <==> AllPresent(data) && BoundsOk(data) && !SpritesOk(data)
  {
    if AllPresent(data) {
      ValidateWhenAllPresent(data);
    } else {
      ValidateWhenSomeMissing(data);
    }
  }

  /** A valid document with `options.center` removed is refused naming that path. */
  lemma MissingCenterIsReported(data: Json)
    requires data.JObj? && "options" in data.fields && data.fields["options"].JObj?
    requires Validate(data) == Pass
    ensures
      var options := data.fields["options"].fields - {"center"};
      Validate(data.(fields := data.fields["options" := JObj(options)])) == Fail(MissingProperty("options.center"))
  {
    var options := data.fields["options"].fields - {"center"};
    var cut := data.(fields := data.fields["options" := JObj(options)]);
    ValidateAcceptsExactly(data);
    forall j | 0 <= j < 9 ensures PresentAt(cut, j) {
      assert PresentAt(data, j);
    }
    assert PresentAt(data, 9);
    FirstFailureIsReported(cut, 9);
    assert PrefixAt(9) + RequiredKeyAt(9) == "options.center";
  }
}
