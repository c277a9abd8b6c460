/** `String.prototype.trim` of ECMA-262: strip leading and trailing white space and
    line terminators. */
module EcmaTrim {

  /** WhiteSpace, section 12.2 of ECMA-262: TAB, VT, FF, ZWNBSP and every code point
      of the Unicode category Zs (space separators, as of Unicode 15). */
  predicate IsWhiteSpace(c: char) {
    c == '\U{0009}' || c == '\U{000B}' || c == '\U{000C}' || c == '\U{FEFF}'
    || c == '\U{0020}' || c == '\U{00A0}' || c == '\U{1680}'
    || ('\U{2000}' <= c <= '\U{200A}')
    || c == '\U{202F}' || c == '\U{205F}' || c == '\U{3000}'
  }

  /** LineTerminator, section 12.3 of ECMA-262: LF, CR, LINE SEPARATOR, PARAGRAPH SEPARATOR. */
  predicate IsLineTerminator(c: char) {
    c == '\U{000A}' || c == '\U{000D}' || c == '\U{2028}' || c == '\U{2029}'
  }

  /** The code points that `trim` removes. */
  predicate IsTrimmable(c: char) {
    IsWhiteSpace(c) || IsLineTerminator(c)
  }

  /** `s` with its longest prefix of trimmable code points removed. */
  function TrimStart(s: string): (r: string)
    ensures |r| <= |s| && r == s[|s| - |r|..]
    ensures forall k :: 0 <= k < |s| - |r| ==> IsTrimmable(s[k])
    ensures r != [] ==> !IsTrimmable(r[0])
    decreases |s|
  {
    if s != [] && IsTrimmable(s[0]) then TrimStart(s[1..]) else s
  }

  /** `s` with its longest suffix of trimmable code points removed. */
  function TrimEnd(s: string): (r: string)
    ensures |r| <= |s| && r == s[..|r|]
    ensures forall k :: |r| <= k < |s| ==> IsTrimmable(s[k])
    ensures r != [] ==> !IsTrimmable(r[|r| - 1])
    decreases |s|
  {
    if s != [] && IsTrimmable(s[|s| - 1]) then TrimEnd(s[..|s| - 1]) else s
  }

  /** `s.trim()`: the result neither starts nor ends with a trimmable code point, and
      it is empty exactly when `s` is blank (made of trimmable code points only). */
  function Trim(s: string): (r: string)
    ensures |r| <= |s|
    ensures r != [] ==> !IsTrimmable(r[0]) && !IsTrimmable(r[|r| - 1])
    ensures r == [] <==> forall k :: 0 <= k < |s| ==> IsTrimmable(s[k])
  {
    var front := TrimStart(s);
    var r := TrimEnd(front);
    assert r != [] ==> r[0] == front[0];
    assert (forall k :: 0 <= k < |s| ==> IsTrimmable(s[k])) ==> front == [] by {
      if front != [] {
        assert front[0] == s[|s| - |front|];
      }
    }
    assert r == [] ==> front == [];
    r
  }

  /** Cutting a suffix off the slice `s[i..]` leaves the slice `s[i..i + |r|]`, and
      what was cut lies at the end of `s`. */
  lemma CutOfSuffix(s: string, i: nat, front: string, r: string)
    requires i <= |s| && front == s[i..] && |r| <= |front| && r == front[..|r|]
    requires forall k :: |r| <= k < |front| ==> IsTrimmable(front[k])
    ensures r == s[i..i + |r|]
    ensures forall k :: i + |r| <= k < |s| ==> IsTrimmable(s[k])
  {
  }

  /** `trim` is a slice of its input with only trimmable code points cut off either side. */
  lemma TrimIsSlice(s: string) returns (i: nat)
    ensures i + |Trim(s)| <= |s| && Trim(s) == s[i..i + |Trim(s)|]
    ensures forall k :: 0 <= k < i ==> IsTrimmable(s[k])
    ensures forall k :: i + |Trim(s)| <= k < |s| ==> IsTrimmable(s[k])
  {
    var front := TrimStart(s);
    var r := TrimEnd(front);
    assert Trim(s) == r;
    i := |s| - |front|;
    assert forall k :: 0 <= k < i ==> IsTrimmable(s[k]);
    CutOfSuffix(s, i, front, r);
  }

  /** Trimming twice is trimming once. */
  lemma TrimIdempotent(s: string)
    ensures Trim(Trim(s)) == Trim(s)
  {
    var r := Trim(s);
    assert TrimStart(r) == r;
    assert TrimEnd(r) == r;
  }
}
