/**
 * The two string operations the scraper applies: `str.replace` of one
 * character by another, and `str.strip` of surrounding whitespace. What
 * counts as whitespace is a parameter (`isSpace`): Python's notion is the
 * Unicode one, which is not modelled here.
 */
module Text {

  /** Every occurrence of `from` in `s` replaced by `to`, as `s.replace(from, to)`
      does for one-character strings. */
  function ReplaceChar(s: string, from: char, to: char): (r: string)
    ensures |r| == |s|
    ensures forall i :: 0 <= i < |s| ==> r[i] == (if s[i] == from then to else s[i])
    ensures from != to ==> from !in r
  {
    if s == [] then []
    else [if s[0] == from then to else s[0]] + ReplaceChar(s[1..], from, to)
  }

  /** `s` with its leading whitespace removed (Python's `lstrip`). */
  function TrimStart(s: string, isSpace: char -> bool): string
  {
    if s != [] && isSpace(s[0]) then TrimStart(s[1..], isSpace) else s
  }

  /** `s` with its trailing whitespace removed (Python's `rstrip`). */
  function TrimEnd(s: string, isSpace: char -> bool): string
  {
    if s != [] && isSpace(s[|s| - 1]) then TrimEnd(s[..|s| - 1], isSpace) else s
  }

  /** `s.strip()`: leading and trailing whitespace removed. */
  function Strip(s: string, isSpace: char -> bool): string
  {
    TrimEnd(TrimStart(s, isSpace), isSpace)
  }

  /** `TrimStart` cuts off a prefix made only of whitespace, and what is
      left does not begin with whitespace. */
  lemma {:induction false} TrimStartSpec(s: string, isSpace: char -> bool)
    ensures var r := TrimStart(s, isSpace);
      && |r| <= |s| && r == s[|s| - |r|..]
      && (forall k :: 0 <= k < |s| - |r| ==> isSpace(s[k]))
      && (r != [] ==> !isSpace(r[0]))
  {
    if s != [] && isSpace(s[0]) {
      var r := TrimStart(s[1..], isSpace);
      TrimStartSpec(s[1..], isSpace);
      assert s[1..][|s| - 1 - |r|..] == s[|s| - |r|..];
      forall k | 0 < k < |s| - |r| ensures isSpace(s[k]) {
        assert s[k] == s[1..][k - 1];
      }
    }
  }

  /** `TrimEnd` cuts off a suffix made only of whitespace, and what is left
      does not end with whitespace. */
  lemma {:induction false} TrimEndSpec(s: string, isSpace: char -> bool)
    ensures var r := TrimEnd(s, isSpace);
      && |r| <= |s| && r == s[..|r|]
      && (forall k :: |r| <= k < |s| ==> isSpace(s[k]))
      && (r != [] ==> !isSpace(r[|r| - 1]))
  {
    if s != [] && isSpace(s[|s| - 1]) {
      TrimEndSpec(s[..|s| - 1], isSpace);
      assert s[..|s| - 1][..|TrimEnd(s, isSpace)|] == s[..|TrimEnd(s, isSpace)|];
    }
  }

  /** A stripped text neither begins nor ends with whitespace. */
  lemma StripEnds(s: string, isSpace: char -> bool)
    ensures var r := Strip(s, isSpace); r != [] ==> !isSpace(r[0]) && !isSpace(r[|r| - 1])
  {
    var t := TrimStart(s, isSpace);
    TrimStartSpec(s, isSpace);
    TrimEndSpec(t, isSpace);
  }

  /** `Strip(s)` is the middle part `s[i..j]` of `s`, and everything cut off
      on either side is whitespace. */
  lemma StripIsCore(s: string, isSpace: char -> bool) returns (i: nat, j: nat)
    ensures i <= j <= |s| && Strip(s, isSpace) == s[i..j]
    ensures forall k :: 0 <= k < i ==> isSpace(s[k])
    ensures forall k :: j <= k < |s| ==> isSpace(s[k])
  {
    var t := TrimStart(s, isSpace);
    TrimStartSpec(s, isSpace);
    i := |s| - |t|;
    var r := TrimEnd(t, isSpace);
    TrimEndSpec(t, isSpace);
    j := i + |r|;
    assert r == t[..|r|];
    assert t == s[i..];
    forall k | j <= k < |s| ensures isSpace(s[k]) {
      assert s[k] == t[k - i];
    }
  }

  /** The stripped text is empty exactly when the whole text is whitespace. */
  lemma StripEmptyIffBlank(s: string, isSpace: char -> bool)
    ensures Strip(s, isSpace) == [] <==> forall k :: 0 <= k < |s| ==> isSpace(s[k])
  {
    var i, j := StripIsCore(s, isSpace);
    var r := Strip(s, isSpace);
    if r == [] {
      forall k | 0 <= k < |s| ensures isSpace(s[k]) {
        if k >= i && k < j { assert false; }
      }
    } else {
      StripEnds(s, isSpace);
      assert r[0] == s[i];
    }
  }

  /** Stripping twice changes nothing more. */
  lemma StripIdempotent(s: string, isSpace: char -> bool)
    ensures Strip(Strip(s, isSpace), isSpace) == Strip(s, isSpace)
  {
    var r := Strip(s, isSpace);
    StripEnds(s, isSpace);
    NoTrimAtNonSpace(r, isSpace);
  }

  /** A text with no whitespace at either end is left unchanged by `Strip`. */
  lemma NoTrimAtNonSpace(r: string, isSpace: char -> bool)
    requires r != [] ==> !isSpace(r[0]) && !isSpace(r[|r| - 1])
    ensures Strip(r, isSpace) == r
  {
    assert TrimStart(r, isSpace) == r;
  }
}
