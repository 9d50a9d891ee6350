/**
 * The two string primitives the serial reader relies on: Python's
 * `str.strip()` with no argument, and `str.startswith`.
 */
module Text {

  /**
   * The characters for which Python's `str.isspace()` holds, which are exactly
   * the characters `str.strip()` removes when called without an argument:
   * tab through carriage return, the four information separators, space, next
   * line, no-break space, ogham space mark, en quad through hair space, the line
   * and paragraph separators, narrow no-break space, medium mathematical space
   * and ideographic space.
   */
  const SpaceChars: set<char> :=
    { '\t', '\n', '\U{B}', '\U{C}', '\r',
      '\U{1C}', '\U{1D}', '\U{1E}', '\U{1F}',
      ' ', '\U{85}', '\U{A0}', '\U{1680}',
      '\U{2000}', '\U{2001}', '\U{2002}', '\U{2003}', '\U{2004}', '\U{2005}',
      '\U{2006}', '\U{2007}', '\U{2008}', '\U{2009}', '\U{200A}',
      '\U{2028}', '\U{2029}', '\U{202F}', '\U{205F}', '\U{3000}' }

  predicate IsSpace(c: char)
  {
    c in SpaceChars
  }

  /** True when `s` neither begins nor ends with a space character. */
  predicate Trimmed(s: string)
  {
    s == [] || (!IsSpace(s[0]) && !IsSpace(s[|s| - 1]))
  }

  /** The index of the first non-space character of `s` at or after `i`, or `|s|` if none. */
  function SkipSpaces(s: string, i: nat): (r: nat)
    requires i <= |s|
    ensures i <= r <= |s|
    ensures forall k :: i <= k < r ==> IsSpace(s[k])
    ensures r == |s| || !IsSpace(s[r])
    decreases |s| - i
  {
    if i < |s| && IsSpace(s[i]) then SkipSpaces(s, i + 1) else i
  }

  /**
   * The end of `s[lo..j]` once its trailing space characters are dropped: the
   * least `r` such that everything in `s[r..j]` is a space.
   */
  function SkipSpacesBack(s: string, lo: nat, j: nat): (r: nat)
    requires lo <= j <= |s|
    ensures lo <= r <= j
    ensures forall k :: r <= k < j ==> IsSpace(s[k])
    ensures r == lo || !IsSpace(s[r - 1])
    decreases j
  {
    if lo < j && IsSpace(s[j - 1]) then SkipSpacesBack(s, lo, j - 1) else j
  }

  /**
   * Python's `s.strip()`: the stretch of `s` left once the space characters at
   * both ends are removed. Every removed character is a space, and what remains
   * neither begins nor ends with one.
   */
  function Strip(s: string): (r: string)
    ensures Trimmed(r)
  {
    var i := SkipSpaces(s, 0);
    var j := SkipSpacesBack(s, i, |s|);
    s[i..j]
  }

  /** What `Strip` removes is spaces only, from the two ends of `s`. */
  lemma StripCutsSpaces(s: string)
    ensures exists i :: CutAt(s, i, Strip(s))
  {
    var i := SkipSpaces(s, 0);
    var j := SkipSpacesBack(s, i, |s|);
    assert Strip(s) == s[i..j];
    assert CutAt(s, i, s[i..j]);
  }

  /**
   * `r` is the stretch of `s` that starts at offset `i`, and every character of
   * `s` before or after that stretch is a space.
   */
  ghost predicate CutAt(s: string, i: int, r: string)
  {
    && 0 <= i <= i + |r| <= |s|
    && r == s[i..i + |r|]
    && (forall k :: 0 <= k < i ==> IsSpace(s[k]))
    && (forall k :: i + |r| <= k < |s| ==> IsSpace(s[k]))
  }

  /**
   * Trimming and cutting determine the strip: any stretch of `s` that neither
   * begins nor ends with a space, and outside which `s` holds only spaces, is
   * `Strip(s)`.
   */
  lemma StripUnique(s: string, i: int, r: string)
    requires Trimmed(r) && CutAt(s, i, r)
    ensures r == Strip(s)
  {
    var i0 := SkipSpaces(s, 0);
    var j0 := SkipSpacesBack(s, i0, |s|);
    assert Strip(s) == s[i0..j0];
    if r == [] {
      // every character of `s` is a space, so both scans meet
      assert forall k :: 0 <= k < |s| ==> IsSpace(s[k]);
      assert i0 == |s|;
    } else {
      assert s[i] == r[0] && s[i + |r| - 1] == r[|r| - 1];
      assert i0 == i;
      assert j0 == i + |r|;
    }
  }

  /** Stripping an already stripped string changes nothing. */
  lemma StripIdempotent(s: string)
    ensures Strip(Strip(s)) == Strip(s)
  {
  }

  /** Python's `s.startswith(prefix)`. */
  predicate StartsWith(s: string, prefix: string)
  {
    |prefix| <= |s| && s[..|prefix|] == prefix
  }

  /** `s` starts with `prefix` exactly when `s` is `prefix` followed by something. */
  lemma StartsWithIffConcat(s: string, prefix: string)
    ensures StartsWith(s, prefix) <==> exists rest :: s == prefix + rest
  {
    if StartsWith(s, prefix) {
      assert s == prefix + s[|prefix|..];
    }
    if exists rest :: s == prefix + rest {
      var rest :| s == prefix + rest;
      assert s[..|prefix|] == prefix;
    }
  }

  /** Python's `s.startswith(prefixes)` for a tuple of prefixes: some prefix matches. */
  predicate StartsWithAny(s: string, prefixes: seq<string>)
    decreases |prefixes|
  {
    |prefixes| > 0 && (StartsWith(s, prefixes[0]) || StartsWithAny(s, prefixes[1..]))
  }

  /** `s.startswith(prefixes)` holds exactly when one of the prefixes matches. */
  lemma {:induction false} StartsWithAnyIff(s: string, prefixes: seq<string>)
    ensures StartsWithAny(s, prefixes) <==> exists j :: 0 <= j < |prefixes| && StartsWith(s, prefixes[j])
    decreases |prefixes|
  {
    if |prefixes| > 0 {
      StartsWithAnyIff(s, prefixes[1..]);
      if exists j :: 0 <= j < |prefixes| && StartsWith(s, prefixes[j]) {
        var j :| 0 <= j < |prefixes| && StartsWith(s, prefixes[j]);
        if j > 0 {
          assert prefixes[1..][j - 1] == prefixes[j];
        }
      }
    }
  }
}
