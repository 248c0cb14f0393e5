/** Python's str.strip(). */
module Text {

  /** The characters str.strip() removes. */
  predicate IsSpace(c: char) {
    var u := c as int;
    0x09 <= u <= 0x0D || 0x1C <= u <= 0x20 || u == 0x85 || u == 0xA0 || u == 0x1680
    || 0x2000 <= u <= 0x200A || u == 0x2028 || u == 0x2029 || u == 0x202F || u == 0x205F || u == 0x3000
  }

  /** Tab to carriage return, the four separators, space, and the spaces of Unicode. */
  lemma SpaceChars(c: char)
    ensures IsSpace(c) <==> c in {
      '\U{09}', '\U{0A}', '\U{0B}', '\U{0C}', '\U{0D}', '\U{1C}', '\U{1D}', '\U{1E}', '\U{1F}', ' ',
      '\U{85}', '\U{A0}', '\U{1680}', '\U{2000}', '\U{2001}', '\U{2002}', '\U{2003}', '\U{2004}', '\U{2005}', '\U{2006}',
      '\U{2007}', '\U{2008}', '\U{2009}', '\U{200A}', '\U{2028}', '\U{2029}', '\U{202F}', '\U{205F}', '\U{3000}'}
  {
  }

  function StripLeft(s: string): string {
    if s != "" && IsSpace(s[0]) then StripLeft(s[1..]) else s
  }

  function StripRight(s: string): string {
    if s != "" && IsSpace(s[|s| - 1]) then StripRight(s[..|s| - 1]) else s
  }

  function Strip(s: string): string {
    StripRight(StripLeft(s))
  }

  /** `t` is what trimming leaves of `s`: a slice with only space around it and none at its ends. */
  ghost predicate IsTrimOf(t: string, s: string, a: nat, b: nat) {
    && a <= b <= |s| && t == s[a..b]
    && (forall i :: 0 <= i < a ==> IsSpace(s[i])) && (forall i :: b <= i < |s| ==> IsSpace(s[i]))
    && (a < b ==> !IsSpace(s[a]) && !IsSpace(s[b - 1]))
  }

  lemma {:induction false} StripLeftIsSuffix(s: string) returns (a: nat)
    ensures a <= |s| && StripLeft(s) == s[a..] && (a < |s| ==> !IsSpace(s[a]))
    ensures forall i :: 0 <= i < a ==> IsSpace(s[i])
  {
    a := 0;
    if s != "" && IsSpace(s[0]) {
      var b := StripLeftIsSuffix(s[1..]);
      assert forall i :: 0 < i < b + 1 ==> s[i] == s[1..][i - 1];
      a := b + 1;
    }
  }

  lemma {:induction false} StripRightIsPrefix(s: string) returns (b: nat)
    ensures b <= |s| && StripRight(s) == s[..b] && (b > 0 ==> !IsSpace(s[b - 1]))
    ensures forall i :: b <= i < |s| ==> IsSpace(s[i])
  {
    b := |s|;
    if s != "" && IsSpace(s[|s| - 1]) {
      b := StripRightIsPrefix(s[..|s| - 1]);
    }
  }

  lemma StripIsTrim(s: string) returns (a: nat, b: nat)
    ensures IsTrimOf(Strip(s), s, a, b)
  {
    hide IsSpace;
    a := StripLeftIsSuffix(s);
    var c := StripRightIsPrefix(s[a..]);
    b := a + c;
    assert forall i :: b <= i < |s| ==> s[i] == s[a..][i - a];
  }

  lemma TrimmedStays(s: string)
    requires s != "" ==> !IsSpace(s[0]) && !IsSpace(s[|s| - 1])
    ensures Strip(s) == s
  {
  }

  ghost predicate Blank(s: string) {
    forall i :: 0 <= i < |s| ==> IsSpace(s[i])
  }

  /** Space around a trimmed text is what trimming removes. */
  lemma StripSpaces(before: string, t: string, after: string)
    requires Blank(before) && Blank(after) && (t != "" ==> !IsSpace(t[0]) && !IsSpace(t[|t| - 1]))
    ensures Strip(before + t + after) == t
  {
    hide IsSpace, Strip;
    var s := before + t + after;
    var a, b := StripIsTrim(s);
    if t == "" {
      assert forall i :: 0 <= i < |s| ==> IsSpace(s[i]);
    } else {
      assert s[|before|] == t[0] && s[|before| + |t| - 1] == t[|t| - 1];
      assert forall i :: 0 <= i < |before| ==> s[i] == before[i];
      assert forall i :: |before| + |t| <= i < |s| ==> s[i] == after[i - |before| - |t|];
      assert a == |before| && b == |before| + |t|;
    }
  }
}
