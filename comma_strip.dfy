/** The relaxed-JSON pre-pass of main.js `parseJSON`: the global replacement
    of `/,\s*([\]}])/g` by `$1`, which drops a comma (and the white space after
    it) when a closing bracket or brace follows. The JSON.parse call that
    follows it is not part of this model. */
module CommaStrip {

  /** The characters JavaScript's `\s` class matches. */
  predicate IsJsSpace(c: char) {
    || c == ' ' || c == '\t' || c == '\n' || c == '\r'
    || c == '\U{000B}' || c == '\U{000C}' || c == '\U{00A0}' || c == '\U{1680}'
    || ('\U{2000}' <= c <= '\U{200A}')
    || c == '\U{2028}' || c == '\U{2029}' || c == '\U{202F}' || c == '\U{205F}'
    || c == '\U{3000}' || c == '\U{FEFF}'
  }

  predicate IsCloser(c: char) {
    c == ']' || c == '}'
  }

  /** A character the pre-pass is allowed to delete. */
  predicate Deletable(c: char) {
    c == ',' || IsJsSpace(c)
  }

  /** The end of the run of white space that starts at k (what greedy `\s*` consumes). */
  function SkipSpaces(s: string, k: nat): (j: nat)
    requires k <= |s|
    ensures k <= j <= |s|
    ensures forall i :: k <= i < j ==> IsJsSpace(s[i])
    ensures j < |s| ==> !IsJsSpace(s[j])
    decreases |s| - k
  {
    if k < |s| && IsJsSpace(s[k]) then SkipSpaces(s, k + 1) else k
  }

  /** The pattern matches at position i: a comma, white space, then `]` or `}`.
      Backtracking `\s*` cannot help, since no white space is a closer. */
  predicate MatchAt(s: string, i: nat) {
    i < |s| && s[i] == ',' && SkipSpaces(s, i + 1) < |s| && IsCloser(s[SkipSpaces(s, i + 1)])
  }

  ghost predicate HasTrailingComma(s: string) {
    exists i: nat :: MatchAt(s, i)
  }

  /** The global, left-to-right, non-overlapping replacement. */
  function StripTrailingCommas(s: string): (r: string)
    ensures |r| <= |s|
    decreases |s|
  {
    if s == [] then []
    else if MatchAt(s, 0) then
      var j := SkipSpaces(s, 1);
      [s[j]] + StripTrailingCommas(s[j + 1..])
    else
      [s[0]] + StripTrailingCommas(s[1..])
  }

  /** r is s with some deletable characters taken out (and nothing else changed). */
  predicate DeletionOf(r: string, s: string)
    decreases |s|
  {
    if s == [] then r == []
    else
      || (r != [] && r[0] == s[0] && DeletionOf(r[1..], s[1..]))
      || (Deletable(s[0]) && DeletionOf(r, s[1..]))
  }

  /** The characters the pre-pass may never delete, in order. */
  function Essential(s: string): string
  {
    if s == [] then [] else (if Deletable(s[0]) then [] else [s[0]]) + Essential(s[1..])
  }

  lemma {:induction false} DeletionOfSelf(s: string)
    ensures DeletionOf(s, s)
    decreases |s|
  {
    if s != [] {
      DeletionOfSelf(s[1..]);
    }
  }

  /** Dropping a prefix of deletable characters is a deletion. */
  lemma {:induction false} DeletionSkipping(r: string, s: string, k: nat)
    requires k <= |s|
    requires forall i :: 0 <= i < k ==> Deletable(s[i])
    requires DeletionOf(r, s[k..])
    ensures DeletionOf(r, s)
    decreases k
  {
    if k > 0 {
      DeletionSkipping(r, s[1..], k - 1);
      assert s[1..][k - 1..] == s[k..];
    } else {
      assert s[k..] == s;
    }
  }

  lemma {:induction false} EssentialSkipping(s: string, k: nat)
    requires k <= |s|
    requires forall i :: 0 <= i < k ==> Deletable(s[i])
    ensures Essential(s) == Essential(s[k..])
    decreases k
  {
    if k > 0 {
      EssentialSkipping(s[1..], k - 1);
      assert s[1..][k - 1..] == s[k..];
    } else {
      assert s[k..] == s;
    }
  }

  /** The pre-pass only deletes commas and white space. */
  lemma {:induction false} StripDeletesOnlyCommasAndSpaces(s: string)
    ensures DeletionOf(StripTrailingCommas(s), s)
    decreases |s|
  {
    if s != [] {
      if MatchAt(s, 0) {
        var j := SkipSpaces(s, 1);
        var rest := StripTrailingCommas(s[j + 1..]);
        StripDeletesOnlyCommasAndSpaces(s[j + 1..]);
        assert s[j..][1..] == s[j + 1..];
        assert DeletionOf([s[j]] + rest, s[j..]) by {
          assert ([s[j]] + rest)[1..] == rest;
        }
        DeletionSkipping([s[j]] + rest, s, j);
      } else {
        StripDeletesOnlyCommasAndSpaces(s[1..]);
        assert ([s[0]] + StripTrailingCommas(s[1..]))[1..] == StripTrailingCommas(s[1..]);
      }
    }
  }

  lemma {:induction false} EssentialAppend(a: string, b: string)
    ensures Essential(a + b) == Essential(a) + Essential(b)
    decreases |a|
  {
    if a != [] {
      EssentialAppend(a[1..], b);
      assert (a + b)[1..] == a[1..] + b;
    } else {
      assert a + b == b;
    }
  }

  /** Every character other than a comma or white space survives, in order;
      in particular every `]` and `}` does. */
  lemma {:induction false} StripKeepsEssentials(s: string)
    ensures Essential(StripTrailingCommas(s)) == Essential(s)
    decreases |s|
  {
    if s != [] {
      if MatchAt(s, 0) {
        var j := SkipSpaces(s, 1);
        StripKeepsEssentials(s[j + 1..]);
        EssentialAppend([s[j]], StripTrailingCommas(s[j + 1..]));
        EssentialSkipping(s, j);
        assert s[j..][1..] == s[j + 1..];
      } else {
        StripKeepsEssentials(s[1..]);
        EssentialAppend([s[0]], StripTrailingCommas(s[1..]));
      }
    }
  }

  lemma {:induction false} SkipSpacesShift(s: string, k: nat)
    requires 1 <= k <= |s|
    ensures SkipSpaces(s[1..], k - 1) == SkipSpaces(s, k) - 1
    decreases |s| - k
  {
    if k < |s| && IsJsSpace(s[k]) {
      SkipSpacesShift(s, k + 1);
    }
  }

  lemma MatchAtShift(s: string, i: nat)
    requires 1 <= |s|
    ensures MatchAt(s[1..], i) <==> MatchAt(s, i + 1)
  {
    if i + 1 < |s| {
      SkipSpacesShift(s, i + 2);
    }
  }

  /** Text without a comma before a closer is left exactly as it is. */
  lemma {:induction false} StripWithoutMatchIsIdentity(s: string)
    requires !HasTrailingComma(s)
    ensures StripTrailingCommas(s) == s
    decreases |s|
  {
    if s != [] {
      assert !MatchAt(s, 0);
      forall i: nat ensures !MatchAt(s[1..], i) {
        MatchAtShift(s, i);
      }
      StripWithoutMatchIsIdentity(s[1..]);
    }
  }

  /** A match anywhere makes the text strictly shorter. */
  lemma {:induction false} StripWithMatchShortens(s: string, i: nat)
    requires MatchAt(s, i)
    ensures |StripTrailingCommas(s)| < |s|
    decreases |s|
  {
    if !MatchAt(s, 0) {
      MatchAtShift(s, i - 1);
      StripWithMatchShortens(s[1..], i - 1);
    }
  }

  /** The pre-pass changes the text exactly when the pattern occurs in it. */
  lemma StripChangesIffMatch(s: string)
    ensures StripTrailingCommas(s) == s <==> !HasTrailingComma(s)
  {
    if HasTrailingComma(s) {
      var i: nat :| MatchAt(s, i);
      StripWithMatchShortens(s, i);
    } else {
      StripWithoutMatchIsIdentity(s);
    }
  }

  /** One pass, no overlap: in ",,]" only the second comma is followed by a closer. */
  lemma SinglePassOnDoubleComma()
    ensures StripTrailingCommas(",,]") == ",]"
    ensures StripTrailingCommas(StripTrailingCommas(",,]")) == "]"
  {
    var s := ",,]";
    assert !MatchAt(s, 0) by { assert SkipSpaces(s, 1) == 1; }
    assert s[1..] == ",]";
    assert MatchAt(",]", 0) by { assert SkipSpaces(",]", 1) == 1; }
    assert ",]"[2..] == [];
  }

  /** White space between the comma and the closer goes too. */
  lemma StripsSpacedTrailingComma()
    ensures StripTrailingCommas("[1, \n]") == "[1]"
  {
    var s := "[1, \n]";
    assert !MatchAt(s, 0) && !MatchAt(s[1..], 0);
    var t := s[2..];
    assert t == ", \n]";
    assert SkipSpaces(t, 1) == 3 by {
      assert SkipSpaces(t, 3) == 3;
      assert SkipSpaces(t, 2) == 3;
    }
    assert t[4..] == [];
  }
}
