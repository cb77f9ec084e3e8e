/** The name each updated document is stored under in the archive:
    main.js applies `String.prototype.replace('.bani', '_updated.bani')`,
    which replaces the FIRST occurrence of ".bani" anywhere in the name (a
    string pattern, so case-sensitive and not anchored at the end) and
    leaves a name without one unchanged. */
module FileName {
  import opened Wrappers

  const Extension: string := ".bani"
  const Replacement: string := "_updated.bani"

  /** pat occurs in s starting at index i. */
  predicate OccursAt(s: string, pat: string, i: nat) {
    i + |pat| <= |s| && s[i..i + |pat|] == pat
  }

  /** The first occurrence of pat in s at or after index i. */
  function FindFrom(s: string, pat: string, i: nat): (r: Option<nat>)
    ensures r.Some? ==> i <= r.value && OccursAt(s, pat, r.value)
    ensures forall k :: i <= k && (r.None? || k < r.value) ==> !OccursAt(s, pat, k)
    decreases |s| - i
  {
    if i + |pat| > |s| then None
    else if OccursAt(s, pat, i) then Some(i)
    else FindFrom(s, pat, i + 1)
  }

  /** `name.replace('.bani', '_updated.bani')`. */
  function UpdatedFileName(name: string): (r: string)
    ensures |r| == |name| || |r| == |name| + |Replacement| - |Extension|
  {
    match FindFrom(name, Extension, 0)
    case None => name
    case Some(i) => name[..i] + Replacement + name[i + |Extension|..]
  }

  /** A name with ".bani" in it has its first ".bani" replaced: it is
      split at the first occurrence, and the rest is kept as it was. */
  lemma ReplacesFirstOccurrence(name: string, i: nat)
    requires OccursAt(name, Extension, i)
    requires forall k: nat :: k < i ==> !OccursAt(name, Extension, k)
    ensures UpdatedFileName(name) == name[..i] + Replacement + name[i + |Extension|..]
  {
    var r := FindFrom(name, Extension, 0);
    assert r == Some(i);
  }

  /** The name changes exactly when it contains ".bani"; otherwise it is
      stored under its own name. */
  lemma UnchangedIffNoExtension(name: string)
    ensures UpdatedFileName(name) == name <==> forall k :: !OccursAt(name, Extension, k)
  {
    var r := FindFrom(name, Extension, 0);
    if r.Some? {
      assert |UpdatedFileName(name)| == |name| + |Replacement| - |Extension|;
    }
  }

  /** The replaced name keeps everything before the first ".bani" and
      everything after it. */
  lemma UpdatedNameParts(name: string)
    ensures var r := UpdatedFileName(name);
      (exists k :: OccursAt(name, Extension, k)) ==>
        exists i: nat :: && OccursAt(name, Extension, i)
                    && r[..i] == name[..i]
                    && OccursAt(r, Replacement, i)
                    && r[i + |Replacement|..] == name[i + |Extension|..]
  {
    var r := FindFrom(name, Extension, 0);
    if r.Some? {
      var i := r.value;
      var u := UpdatedFileName(name);
      assert u[..i] == name[..i];
      assert u[i..i + |Replacement|] == Replacement;
      assert u[i + |Replacement|..] == name[i + |Extension|..];
    }
  }

  /** Only the first ".bani" is replaced. */
  lemma FirstOccurrenceOnly()
    ensures UpdatedFileName("a.bani.bani") == "a_updated.bani.bani"
  {
    assert OccursAt("a.bani.bani", Extension, 1);
    assert "a.bani.bani"[0] != Extension[0];
    ReplacesFirstOccurrence("a.bani.bani", 1);
  }

  /** A name lacking one of the pattern's characters has no occurrence of it. */
  lemma NoOccurrenceWithout(name: string, pat: string, j: nat)
    requires j < |pat|
    requires forall i :: 0 <= i < |name| ==> name[i] != pat[j]
    ensures forall k :: !OccursAt(name, pat, k)
  {
    forall k: nat ensures !OccursAt(name, pat, k) {
      if k + |pat| <= |name| {
        assert name[k..k + |pat|][j] == name[k + j];
      }
    }
  }

  /** The match is case-sensitive: an upper-case extension is left alone. */
  lemma CaseSensitive()
    ensures UpdatedFileName("HERO.BANI") == "HERO.BANI"
  {
    NoOccurrenceWithout("HERO.BANI", Extension, 1);
    UnchangedIffNoExtension("HERO.BANI");
  }
}
