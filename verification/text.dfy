/**
  Python's `str.strip()` with no argument: removes leading and trailing
  characters for which `str.isspace()` holds.
 */
module Text {

  /** The characters Python's `str.isspace()` accepts. */
  predicate IsSpace(c: char) {
    || '\U{9}' <= c <= '\U{D}'
    || '\U{1C}' <= c <= '\U{20}'
    || c == '\U{85}' || c == '\U{A0}' || c == '\U{1680}'
    || '\U{2000}' <= c <= '\U{200A}'
    || c == '\U{2028}' || c == '\U{2029}' || c == '\U{202F}' || c == '\U{205F}' || c == '\U{3000}'
  }

  predicate AllSpace(s: string) {
    forall k | 0 <= k < |s| :: IsSpace(s[k])
  }

  /** Neither the first nor the last character is whitespace. */
  predicate IsTrimmed(s: string) {
    s == [] || (!IsSpace(s[0]) && !IsSpace(s[|s| - 1]))
  }

  /** `s[..i]` and `s[j..]` are whitespace only. */
  predicate Margins(s: string, i: int, j: int) {
    && 0 <= i <= j <= |s|
    && (forall k | 0 <= k < i :: IsSpace(s[k]))
    && (forall k | j <= k < |s| :: IsSpace(s[k]))
  }

  /** The first index at or after `i` that holds a non-space, or `|s|`. */
  function SkipSpaces(s: string, i: nat): (e: nat)
    requires i <= |s|
    ensures i <= e <= |s|
    ensures forall k | i <= k < e :: IsSpace(s[k])
    ensures e < |s| ==> !IsSpace(s[e])
    decreases |s| - i
  {
    if i == |s| || !IsSpace(s[i]) then i else SkipSpaces(s, i + 1)
  }

  /** The end of `s[i..j]` once its trailing whitespace is dropped. */
  function SkipSpacesBack(s: string, i: nat, j: nat): (e: nat)
    requires i <= j <= |s|
    ensures i <= e <= j
    ensures forall k | e <= k < j :: IsSpace(s[k])
    ensures e > i ==> !IsSpace(s[e - 1])
    decreases j - i
  {
    if j == i || !IsSpace(s[j - 1]) then j else SkipSpacesBack(s, i, j - 1)
  }

  /**
    `s.strip()`: the result starts and ends with a non-space, and it is
    empty exactly when `s` is whitespace only (`StripMargins` says what is
    removed).
   */
  function Strip(s: string): (r: string)
    ensures |r| <= |s| && IsTrimmed(r)
    ensures r == [] <==> AllSpace(s)
  {
    var i := SkipSpaces(s, 0);
    var j := SkipSpacesBack(s, i, |s|);
    assert j > i ==> s[i..j][0] == s[i] && s[i..j][j - i - 1] == s[j - 1];
    assert i < |s| ==> !AllSpace(s);
    s[i..j]
  }

  /** `Strip` removes an all-whitespace prefix and an all-whitespace suffix and nothing else. */
  lemma StripMargins(s: string)
    ensures exists i, j :: Margins(s, i, j) && Strip(s) == s[i..j]
  {
    var i := SkipSpaces(s, 0);
    var j := SkipSpacesBack(s, i, |s|);
    assert Margins(s, i, j);
  }

  /**
    Any way of cutting whitespace margins off `s` that leaves a trimmed
    middle leaves the middle `Strip` returns: the result does not depend on
    how it is computed.
   */
  lemma {:induction false} StripUnique(s: string, i: int, j: int)
    requires Margins(s, i, j) && IsTrimmed(s[i..j])
    ensures Strip(s) == s[i..j]
  {
    var r := Strip(s);
    StripMargins(s);
    var i', j' :| Margins(s, i', j') && r == s[i'..j'];
    if i == j {
      assert AllSpace(s) by {
        forall k | 0 <= k < |s| ensures IsSpace(s[k]) {
          assert k < i || j <= k;
        }
      }
    } else {
      assert s[i..j][0] == s[i] && s[i..j][j - i - 1] == s[j - 1];
      assert !AllSpace(s) by { assert !IsSpace(s[i]); }
      assert i' < j';
      assert r[0] == s[i'] && r[|r| - 1] == s[j' - 1];
      // a non-space at i, i', j - 1 and j' - 1 cannot sit inside the other split's margins
      assert !IsSpace(s[i]) && !IsSpace(s[i']) && !IsSpace(s[j - 1]) && !IsSpace(s[j' - 1]);
      assert i' == i && j' == j;
    }
  }

  /** Stripping twice strips no more than stripping once. */
  lemma StripIdempotent(s: string)
    ensures Strip(Strip(s)) == Strip(s)
  {
    var r := Strip(s);
    StripUnique(r, 0, |r|);
    assert r[0..|r|] == r;
  }
}
