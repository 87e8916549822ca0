/** Python's `str.strip()` with no argument. */
module Text {

  /** `str.isspace()` for a single code point: the ASCII controls TAB..CR,
      the separators FS..US, SPACE, NEL, NO-BREAK SPACE and the Unicode
      space and line/paragraph separators. */
  predicate IsSpace(c: char)
  {
    var k := c as int;
    || k == 0x20
    || 0x09 <= k <= 0x0D
    || 0x1C <= k <= 0x1F
    || k == 0x85
    || k == 0xA0
    || k == 0x1680
    || 0x2000 <= k <= 0x200A
    || k == 0x2028
    || k == 0x2029
    || k == 0x202F
    || k == 0x205F
    || k == 0x3000
  }

  /** Every character of `s` from index `lo` up to (not including) `hi` is whitespace. */
  predicate SpacesIn(s: string, lo: int, hi: int)
    requires 0 <= lo <= hi <= |s|
  {
    forall k :: lo <= k < hi ==> IsSpace(s[k])
  }

  predicate AllSpace(s: string)
  {
    SpacesIn(s, 0, |s|)
  }

  /** True when `r` neither starts nor ends with whitespace. */
  predicate Tight(r: string)
  {
    r == [] || (!IsSpace(r[0]) && !IsSpace(r[|r| - 1]))
  }

  /** True when `r` is `s` with some whitespace-only prefix and suffix removed. */
  ghost predicate IsTrimOf(r: string, s: string)
  {
    exists i, j :: 0 <= i <= j <= |s| && s[i..j] == r && SpacesIn(s, 0, i) && SpacesIn(s, j, |s|)
  }

  /** The first index at or after `k` that does not hold whitespace (or `|s|`). */
  function SkipSpaces(s: string, k: nat): (i: nat)
    requires k <= |s|
    ensures k <= i <= |s|
    ensures SpacesIn(s, k, i)
    ensures i == |s| || !IsSpace(s[i])
    decreases |s| - k
  {
    if k < |s| && IsSpace(s[k]) then SkipSpaces(s, k + 1) else k
  }

  /** Going down from `k`, the end of the text after dropping trailing
      whitespace, never below `lo`. */
  function BackSpaces(s: string, lo: nat, k: nat): (j: nat)
    requires lo <= k <= |s|
    ensures lo <= j <= k
    ensures SpacesIn(s, j, k)
    ensures j == lo || !IsSpace(s[j - 1])
    decreases k
  {
    if k > lo && IsSpace(s[k - 1]) then BackSpaces(s, lo, k - 1) else k
  }

  /** `str.strip()`: `s` without its leading and trailing whitespace. */
  function Strip(s: string): (r: string)
    ensures Tight(r)
    ensures IsTrimOf(r, s)
  {
    var i := SkipSpaces(s, 0);
    var j := BackSpaces(s, i, |s|);
    assert j > i ==> s[i..j][0] == s[i] && s[i..j][j - i - 1] == s[j - 1];
    s[i..j]
  }

  /** Two cut points both preceded only by whitespace and both at a
      non-space character are the same point. */
  lemma SameStart(s: string, i: int, i': int)
    requires 0 <= i < |s| && 0 <= i' < |s|
    requires SpacesIn(s, 0, i) && SpacesIn(s, 0, i')
    requires !IsSpace(s[i]) && !IsSpace(s[i'])
    ensures i == i'
  {
  }

  /** The mirror image of `SameStart` for the end of a string. */
  lemma SameEnd(s: string, j: int, j': int)
    requires 0 < j <= |s| && 0 < j' <= |s|
    requires SpacesIn(s, j, |s|) && SpacesIn(s, j', |s|)
    requires !IsSpace(s[j - 1]) && !IsSpace(s[j' - 1])
    ensures j == j'
  {
  }

  /** Cut points `i <= j` with whitespace outside and, unless they meet,
      non-space characters just inside are where `Strip` cuts. */
  lemma TrimBounds(s: string, i: int, j: int)
    requires 0 <= i <= j <= |s|
    requires SpacesIn(s, 0, i) && SpacesIn(s, j, |s|)
    requires i < j ==> !IsSpace(s[i]) && !IsSpace(s[j - 1])
    ensures var i' := SkipSpaces(s, 0);
      var j' := BackSpaces(s, i', |s|);
      (i == j ==> i' == j') && (i < j ==> i' == i && j' == j)
  {
    var i' := SkipSpaces(s, 0);
    if i == j {
      assert SpacesIn(s, 0, |s|);
      assert i' == |s|;
    } else {
      SameStart(s, i, i');
      SameEnd(s, j, BackSpaces(s, i', |s|));
    }
  }

  /** `Strip` is the only tight trim: any `r` without surrounding whitespace
      that is `s` with whitespace cut off both ends is `Strip(s)`. */
  lemma StripCharacterized(r: string, s: string)
    requires Tight(r) && IsTrimOf(r, s)
    ensures Strip(s) == r
  {
    var i, j :| 0 <= i <= j <= |s| && s[i..j] == r && SpacesIn(s, 0, i) && SpacesIn(s, j, |s|);
    assert i < j ==> s[i] == r[0] && s[j - 1] == r[|r| - 1];
    TrimBounds(s, i, j);
  }

  /** Stripping is the identity exactly on strings without surrounding whitespace. */
  lemma StripFixesTight(s: string)
    ensures Strip(s) == s <==> Tight(s)
  {
    if Tight(s) {
      assert s[0..|s|] == s;
      StripCharacterized(s, s);
    }
  }

  /** Stripping twice is stripping once. */
  lemma StripIdempotent(s: string)
    ensures Strip(Strip(s)) == Strip(s)
  {
    StripFixesTight(Strip(s));
  }

  /** The stripped text is empty exactly when the input is all whitespace. */
  lemma StripEmptyIffAllSpace(s: string)
    ensures Strip(s) == [] <==> AllSpace(s)
  {
    var i := SkipSpaces(s, 0);
    var j := BackSpaces(s, i, |s|);
    if AllSpace(s) {
      assert i == |s|;
    }
  }

  // ---------------------------------------------------------------------
  // Worked examples

  lemma StripKeepsWork()
    ensures Strip("Work") == "Work"
  {
    assert Tight("Work");
    StripFixesTight("Work");
  }

  lemma StripDropsPadding()
    ensures Strip("  Work  ") == "Work"
  {
    var s := "  Work  ";
    assert IsSpace(' ') && !IsSpace('W') && !IsSpace('k');
    assert s[2..6] == "Work" && SpacesIn(s, 0, 2) && SpacesIn(s, 6, 8);
    StripCharacterized("Work", s);
  }

  lemma StripBuyMilk()
    ensures Strip("Buy milk\n") == "Buy milk"
  {
    var s := "Buy milk\n";
    assert IsSpace('\n') && !IsSpace('B') && !IsSpace('k');
    assert s[0..8] == "Buy milk" && SpacesIn(s, 0, 0) && SpacesIn(s, 8, 9);
    StripCharacterized("Buy milk", s);
  }

  lemma StripErrand()
    ensures Strip("Errand") == "Errand"
  {
    assert Tight("Errand");
    StripFixesTight("Errand");
  }
}
