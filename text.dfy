/**
 * The string operations the providers rely on: `ToLower`/`ToUpper` as used
 * on user names, profile names and configuration flags, and `Contains` as
 * used by FindUsersInRole. Case mapping is modelled on the ASCII letters
 * only.
 */
module Text {

  function LowerChar(c: char): char {
    if 'A' <= c <= 'Z' then (c as int + 32) as char else c
  }

  function UpperChar(c: char): char {
    if 'a' <= c <= 'z' then (c as int - 32) as char else c
  }

  /** `string.ToLower()` on ASCII letters; every other character is kept. */
  function Lower(s: string): (r: string)
    ensures |r| == |s|
    ensures forall i :: 0 <= i < |s| ==> r[i] == LowerChar(s[i])
  {
    seq(|s|, i requires 0 <= i < |s| => LowerChar(s[i]))
  }

  /** `string.ToUpper()` on ASCII letters; every other character is kept. */
  function Upper(s: string): (r: string)
    ensures |r| == |s|
    ensures forall i :: 0 <= i < |s| ==> r[i] == UpperChar(s[i])
  {
    seq(|s|, i requires 0 <= i < |s| => UpperChar(s[i]))
  }

  /** Lower-casing twice is lower-casing once. */
  lemma LowerIdempotent(s: string)
    ensures Lower(Lower(s)) == Lower(s)
  {
    assert forall i :: 0 <= i < |s| ==> LowerChar(LowerChar(s[i])) == LowerChar(s[i]);
  }

  /** Two names that differ only in ASCII letter case lower-case alike. */
  lemma LowerIgnoresCase(a: string, b: string)
    requires |a| == |b|
    requires forall i :: 0 <= i < |a| ==> LowerChar(a[i]) == LowerChar(b[i])
    ensures Lower(a) == Lower(b)
  {
  }

  /** The white-space characters of `char.IsWhiteSpace` below U+0080: tab through carriage return, and space. */
  predicate IsWhiteSpace(c: char) {
    c == ' ' || '\t' <= c <= '\r'
  }

  /** `TrimStart()`: the suffix left after the leading white space. */
  function TrimStart(s: string): (r: string)
    ensures |r| <= |s| && r == s[|s| - |r|..]
    ensures r == [] || !IsWhiteSpace(r[0])
  {
    if s != [] && IsWhiteSpace(s[0]) then TrimStart(s[1..]) else s
  }

  /** `TrimEnd()`: the prefix left before the trailing white space. */
  function TrimEnd(s: string): (r: string)
    ensures |r| <= |s| && r == s[..|r|]
    ensures r == [] || !IsWhiteSpace(r[|r| - 1])
  {
    if s != [] && IsWhiteSpace(s[|s| - 1]) then TrimEnd(s[..|s| - 1]) else s
  }

  /**
   * `Trim()`: white space removed from both ends. What is left neither
   * starts nor ends with white space, and is `s` itself when `s` already has
   * no white space at its ends.
   */
  function Trim(s: string): (r: string)
    ensures |r| <= |s|
    ensures r == [] || (!IsWhiteSpace(r[0]) && !IsWhiteSpace(r[|r| - 1]))
    ensures (s == [] || (!IsWhiteSpace(s[0]) && !IsWhiteSpace(s[|s| - 1]))) ==> r == s
  {
    var t := TrimStart(s);
    var r := TrimEnd(t);
    assert r != [] ==> r[0] == t[0];
    r
  }

  /** TrimStart cuts off white space only. */
  lemma {:induction false} TrimStartCutsWhiteSpace(s: string)
    ensures forall i :: 0 <= i < |s| - |TrimStart(s)| ==> IsWhiteSpace(s[i])
  {
    if s != [] && IsWhiteSpace(s[0]) {
      TrimStartCutsWhiteSpace(s[1..]);
    }
  }

  /** TrimEnd cuts off white space only. */
  lemma {:induction false} TrimEndCutsWhiteSpace(s: string)
    ensures forall i :: |TrimEnd(s)| <= i < |s| ==> IsWhiteSpace(s[i])
  {
    if s != [] && IsWhiteSpace(s[|s| - 1]) {
      TrimEndCutsWhiteSpace(s[..|s| - 1]);
    }
  }

  /** What Trim keeps occurs in the text, and only white space is cut off. */
  lemma TrimKeepsMiddle(s: string)
    ensures IsSubstring(Trim(s), s)
    ensures exists i :: 0 <= i <= |s| - |Trim(s)| && OccursAt(Trim(s), s, i) &&
                        (forall j :: 0 <= j < i ==> IsWhiteSpace(s[j])) &&
                        (forall j :: i + |Trim(s)| <= j < |s| ==> IsWhiteSpace(s[j]))
  {
    var i := TrimOffset(s);
  }

  /** The offset at which what Trim keeps starts: white space before it and after it. */
  lemma TrimOffset(s: string) returns (i: int)
    ensures 0 <= i <= |s| - |Trim(s)| && OccursAt(Trim(s), s, i)
    ensures forall j :: 0 <= j < i ==> IsWhiteSpace(s[j])
    ensures forall j :: i + |Trim(s)| <= j < |s| ==> IsWhiteSpace(s[j])
  {
    var t := TrimStart(s);
    var r := TrimEnd(t);
    i := |s| - |t|;
    assert Trim(s) == r;
    assert t == s[i..];
    assert r == s[i..i + |r|] by {
      assert r == t[..|r|];
    }
    assert forall j :: 0 <= j < i ==> IsWhiteSpace(s[j]) by {
      TrimStartCutsWhiteSpace(s);
    }
    TrimEndOfSuffix(s, i);
  }

  /** TrimEnd of a suffix of `s` cuts off white space of `s` only. */
  lemma TrimEndOfSuffix(s: string, i: int)
    requires 0 <= i <= |s|
    ensures forall j :: i + |TrimEnd(s[i..])| <= j < |s| ==> IsWhiteSpace(s[j])
  {
    var t := s[i..];
    TrimEndCutsWhiteSpace(t);
    forall j | i + |TrimEnd(t)| <= j < |s|
      ensures IsWhiteSpace(s[j])
    {
      assert s[j] == t[j - i];
    }
  }

  /** A leading white-space character is dropped by TrimStart. */
  lemma TrimStartSkips(c: char, t: string)
    requires IsWhiteSpace(c)
    ensures TrimStart([c] + t) == TrimStart(t)
  {
    assert ([c] + t)[1..] == t;
  }

  /** A trailing white-space character is dropped by TrimEnd. */
  lemma TrimEndSkips(t: string, c: char)
    requires IsWhiteSpace(c)
    ensures TrimEnd(t + [c]) == TrimEnd(t)
  {
    assert (t + [c])[..|t|] == t;
  }

  /** White space before and after a text is dropped by Trim. */
  lemma {:induction false} TrimPadded(s: string)
    requires s == [] || (!IsWhiteSpace(s[0]) && !IsWhiteSpace(s[|s| - 1]))
    ensures Trim(" " + s + "\t") == s
  {
    var tail := s + ['\t'];
    var padded := " " + s + "\t";
    assert padded == [' '] + tail;
    TrimStartSkips(' ', tail);
    TrimEndSkips(s, '\t');
    if s == [] {
      TrimStartSkips('\t', []);
      assert TrimStart(padded) == [];
    } else {
      assert tail[0] == s[0];
      assert TrimStart(padded) == tail;
      assert TrimEnd(s) == s;
    }
    assert Trim(padded) == TrimEnd(TrimStart(padded));
  }

  /** Ordinal, case-insensitive comparison on ASCII letters. */
  predicate EqualsIgnoreCase(a: string, b: string) {
    Upper(a) == Upper(b)
  }

  /** `s.Contains(sub)`: `sub` occurs in `s` at some offset. */
  predicate IsSubstring(sub: string, s: string) {
    exists i :: 0 <= i <= |s| - |sub| && OccursAt(sub, s, i)
  }

  /** `sub` occurs in `s` starting at offset `i`. */
  predicate OccursAt(sub: string, s: string, i: int) {
    0 <= i <= |s| - |sub| && s[i..i + |sub|] == sub
  }

  /** Every string contains the empty string and itself. */
  lemma SubstringBasics(s: string)
    ensures IsSubstring("", s)
    ensures IsSubstring(s, s)
  {
    SubstringAt("", s, 0);
    SubstringAt(s, s, 0);
  }

  /** An occurrence at a given offset witnesses containment. */
  lemma SubstringAt(sub: string, s: string, i: int)
    requires 0 <= i <= |s| - |sub| && s[i..i + |sub|] == sub
    ensures IsSubstring(sub, s)
  {
    assert OccursAt(sub, s, i);
  }
}
