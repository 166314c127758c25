/**
 * Python's `str.strip()` with no argument: remove leading and trailing
 * whitespace, where whitespace is what `str.isspace` accepts.
 */
module Text {

  /** The characters Python 3 treats as whitespace (`str.isspace`). */
  predicate IsSpace(c: char) {
    var n := c as int;
    || (0x09 <= n <= 0x0D)        // \t \n \v \f \r
    || (0x1C <= n <= 0x20)        // file/group/record/unit separators and ' '
    || n == 0x85 || n == 0xA0 || n == 0x1680
    || (0x2000 <= n <= 0x200A)
    || n == 0x2028 || n == 0x2029 || n == 0x202F || n == 0x205F || n == 0x3000
  }

  /** Neither end of `s` is whitespace. */
  predicate IsStripped(s: string) {
    s == [] || (!IsSpace(s[0]) && !IsSpace(s[|s| - 1]))
  }

  /** `r` is the infix of `s` at offset `i`, and everything around it is whitespace. */
  ghost predicate InfixAmongSpaces(s: string, i: int, r: string) {
    && 0 <= i && i + |r| <= |s|
    && r == s[i..i + |r|]
    && (forall k :: 0 <= k < i ==> IsSpace(s[k]))
    && (forall k :: i + |r| <= k < |s| ==> IsSpace(s[k]))
  }

  function TrimStart(s: string): (r: string)
    ensures |r| <= |s| && r == s[|s| - |r|..]
    ensures forall k :: 0 <= k < |s| - |r| ==> IsSpace(s[k])
    ensures r != [] ==> !IsSpace(r[0])
  {
    if s != [] && IsSpace(s[0]) then TrimStart(s[1..]) else s
  }

  function TrimEnd(s: string): (r: string)
    ensures |r| <= |s| && r == s[..|r|]
    ensures forall k :: |r| <= k < |s| ==> IsSpace(s[k])
    ensures r != [] ==> !IsSpace(r[|r| - 1])
  {
    if s != [] && IsSpace(s[|s| - 1]) then TrimEnd(s[..|s| - 1]) else s
  }

  /** Trimming the start and then the end leaves no whitespace at either end. */
  lemma TrimsStripped(s: string)
    ensures IsStripped(TrimEnd(TrimStart(s)))
  {
    var t := TrimStart(s);
    var r := TrimEnd(t);
    if r != [] {
      assert r[0] == t[0];
    }
  }

  /** A suffix after leading whitespace, cut before trailing whitespace, is an infix among spaces. */
  lemma InfixOfTrims(s: string, t: string, r: string)
    requires |t| <= |s| && t == s[|s| - |t|..] && forall k :: 0 <= k < |s| - |t| ==> IsSpace(s[k])
    requires |r| <= |t| && r == t[..|r|] && forall k :: |r| <= k < |t| ==> IsSpace(t[k])
    ensures InfixAmongSpaces(s, |s| - |t|, r)
  {
    var i := |s| - |t|;
    assert r == s[i..i + |r|];
    forall k | i + |r| <= k < |s|
      ensures IsSpace(s[k])
    {
      assert s[k] == t[k - i];
    }
  }

  /** Trimming the start and then the end leaves an infix of `s` with only whitespace around it. */
  lemma TrimsInfix(s: string)
    ensures InfixAmongSpaces(s, |s| - |TrimStart(s)|, TrimEnd(TrimStart(s)))
  {
    InfixOfTrims(s, TrimStart(s), TrimEnd(TrimStart(s)));
  }

  /** `str.strip()`: the result is stripped and is an infix of `s` surrounded only by whitespace. */
  function Strip(s: string): (r: string)
    ensures IsStripped(r)
    ensures InfixAmongSpaces(s, |s| - |TrimStart(s)|, r)
  {
    TrimsStripped(s);
    TrimsInfix(s);
    TrimEnd(TrimStart(s))
  }

  /**
   * The two properties in Strip's contract determine its result: any stripped
   * infix of `s` with only whitespace around it is `Strip(s)`.
   */
  lemma StripUnique(s: string, i: int, t: string)
    requires IsStripped(t) && InfixAmongSpaces(s, i, t)
    ensures t == Strip(s)
  {
  }

  /** Stripping twice is stripping once. */
  lemma StripIdempotent(s: string)
    ensures Strip(Strip(s)) == Strip(s)
  {
    var r := Strip(s);
    assert InfixAmongSpaces(r, 0, r);
    StripUnique(r, 0, r);
  }

  /** A string with no whitespace at either end is its own strip. */
  lemma StripOfStripped(s: string)
    requires IsStripped(s)
    ensures Strip(s) == s
  {
    assert InfixAmongSpaces(s, 0, s);
    StripUnique(s, 0, s);
  }
}
