/** The two JavaScript string methods the login applies to an email: `trim` and
    `toLowerCase`. Trimming is defined for any set of characters to strip, given as a
    predicate, and instantiated with the characters JavaScript counts as white space. */
module JsStrings {

  /** The characters `String.prototype.trim` removes: white space and line terminators. */
  predicate IsJsSpace(c: char) {
    c == '\t' || c == '\n' || c == '\U{000B}' || c == '\U{000C}' || c == '\r' || c == ' ' ||
    c == '\U{00A0}' || c == '\U{1680}' || ('\U{2000}' <= c <= '\U{200A}') ||
    c == '\U{2028}' || c == '\U{2029}' || c == '\U{202F}' || c == '\U{205F}' ||
    c == '\U{3000}' || c == '\U{FEFF}'
  }

  /** Every character of `s` is one to strip. */
  predicate AllIn(s: string, strip: char -> bool) {
    forall i :: 0 <= i < |s| ==> strip(s[i])
  }

  /** How many characters to strip `s` starts with. */
  function LeadCount(s: string, strip: char -> bool): (k: nat)
    ensures k <= |s|
    ensures forall i :: 0 <= i < k ==> strip(s[i])
    ensures k == |s| || !strip(s[k])
  {
    if |s| > 0 && strip(s[0]) then
      var k := LeadCount(s[1..], strip);
      assert forall i :: 0 < i <= k ==> s[i] == s[1..][i - 1];
      k + 1
    else 0
  }

  /** How many characters to strip `s` ends with. */
  function TrailCount(s: string, strip: char -> bool): (k: nat)
    ensures k <= |s|
    ensures forall i :: |s| - k <= i < |s| ==> strip(s[i])
    ensures k == |s| || !strip(s[|s| - k - 1])
  {
    if |s| > 0 && strip(s[|s| - 1]) then
      var k := TrailCount(s[..|s| - 1], strip);
      assert forall i :: |s| - 1 - k <= i < |s| - 1 ==> s[i] == s[..|s| - 1][i];
      k + 1
    else 0
  }

  /** `s` with the characters to strip removed from its start. */
  function TrimStart(s: string, strip: char -> bool): (r: string)
    ensures |r| <= |s| && r == s[|s| - |r|..]
    ensures forall i :: 0 <= i < |s| - |r| ==> strip(s[i])
    ensures |r| == 0 || !strip(r[0])
  {
    s[LeadCount(s, strip)..]
  }

  /** `s` with the characters to strip removed from its end. */
  function TrimEnd(s: string, strip: char -> bool): (r: string)
    ensures |r| <= |s| && r == s[..|r|]
    ensures forall i :: |r| <= i < |s| ==> strip(s[i])
    ensures |r| == 0 || !strip(r[|r| - 1])
  {
    s[..|s| - TrailCount(s, strip)]
  }

  /** Strippable characters before `s` make no difference to `TrimStart`. */
  lemma {:induction false} TrimStartSkipsPrefix(p: string, s: string, strip: char -> bool)
    requires AllIn(p, strip)
    ensures TrimStart(p + s, strip) == TrimStart(s, strip)
  {
    if |p| == 0 {
      assert p + s == s;
    } else {
      assert (p + s)[0] == p[0];
      assert (p + s)[1..] == p[1..] + s;
      TrimStartSkipsPrefix(p[1..], s, strip);
    }
  }

  /** Strippable characters after `s` make no difference to `TrimEnd`. */
  lemma {:induction false} TrimEndSkipsSuffix(s: string, q: string, strip: char -> bool)
    requires AllIn(q, strip)
    ensures TrimEnd(s + q, strip) == TrimEnd(s, strip)
  {
    if |q| == 0 {
      assert s + q == s;
    } else {
      var q1 := q[..|q| - 1];
      assert (s + q)[|s + q| - 1] == q[|q| - 1];
      assert (s + q)[..|s + q| - 1] == s + q1;
      TrimEndSkipsSuffix(s, q1, strip);
    }
  }

  /** Once something is left of `s`, `TrimStart` does not reach what follows it. */
  lemma {:induction false} TrimStartOfAppend(s: string, q: string, strip: char -> bool)
    requires TrimStart(s, strip) != ""
    ensures TrimStart(s + q, strip) == TrimStart(s, strip) + q
  {
    assert (s + q)[0] == s[0];
    if strip(s[0]) {
      assert (s + q)[1..] == s[1..] + q;
      TrimStartOfAppend(s[1..], q, strip);
    }
  }

  /** `String.prototype.trim`: the characters JavaScript counts as white space or line
      terminators removed from both ends. */
  function Trim(s: string): (r: string)
    ensures |r| == 0 || (!IsJsSpace(r[0]) && !IsJsSpace(r[|r| - 1]))
  {
    TrimEnd(TrimStart(s, IsJsSpace), IsJsSpace)
  }

  /** What `TrimEnd` keeps of `TrimStart` is `s` from the leading strippable run on. */
  lemma TrimBothIndices(s: string, strip: char -> bool)
    ensures var k := LeadCount(s, strip);
      var r := TrimEnd(TrimStart(s, strip), strip);
      k + |r| <= |s| && forall i :: 0 <= i < |r| ==> r[i] == s[k + i]
  {
    var k := LeadCount(s, strip);
    var t := TrimStart(s, strip);
    var r := TrimEnd(t, strip);
    assert |t| == |s| - k;
    forall i | 0 <= i < |r| ensures r[i] == s[k + i] {
      assert r[i] == t[i];
    }
  }

  /** What `TrimEnd` cuts off after `TrimStart` is made only of strippable characters. */
  lemma TrimBothTail(s: string, strip: char -> bool)
    ensures var k := LeadCount(s, strip);
      var r := TrimEnd(TrimStart(s, strip), strip);
      k + |r| <= |s| && AllIn(s[k + |r|..], strip)
  {
    var k := LeadCount(s, strip);
    var t := TrimStart(s, strip);
    var r := TrimEnd(t, strip);
    assert |t| == |s| - k;
    var tail := s[k + |r|..];
    forall i | 0 <= i < |tail| ensures strip(tail[i]) {
      assert tail[i] == t[|r| + i];
    }
  }

  /** Trimming both ends keeps the middle of `s`: what follows the leading strippable run, up
      to a tail made only of strippable characters. */
  lemma TrimBothKeepsMiddle(s: string, strip: char -> bool)
    ensures var k := LeadCount(s, strip);
      var r := TrimEnd(TrimStart(s, strip), strip);
      k + |r| <= |s| && (forall i :: 0 <= i < |r| ==> r[i] == s[k + i]) &&
      AllIn(s[..k], strip) && AllIn(s[k + |r|..], strip)
  {
    TrimBothIndices(s, strip);
    TrimBothTail(s, strip);
    var k := LeadCount(s, strip);
    var head := s[..k];
    forall i | 0 <= i < |head| ensures strip(head[i]) {
      assert head[i] == s[i];
    }
  }

  /** `trim` removes white space only: its result is the middle of `s`, after the leading white
      space and before a tail made only of white space. */
  lemma TrimKeepsMiddle(s: string)
    ensures var k := LeadCount(s, IsJsSpace);
      var r := Trim(s);
      k + |r| <= |s| && (forall i :: 0 <= i < |r| ==> r[i] == s[k + i]) &&
      AllIn(s[..k], IsJsSpace) && AllIn(s[k + |r|..], IsJsSpace)
  {
    TrimBothKeepsMiddle(s, IsJsSpace);
  }

  /** Padding around a string made only of characters to strip goes with it. */
  lemma PaddingOfStrippedGoes(p: string, s: string, q: string, strip: char -> bool)
    requires AllIn(p, strip) && AllIn(q, strip)
    requires TrimStart(s, strip) == ""
    ensures TrimStart(p + s + q, strip) == ""
  {
    assert AllIn(p + s + q, strip);
    assert p + s + q == p + s + q + "";
    TrimStartSkipsPrefix(p + s + q, "", strip);
  }

  /** Padding around a string with a character to keep is cut off again. */
  lemma PaddingOfKeptGoes(p: string, s: string, q: string, strip: char -> bool)
    requires AllIn(p, strip) && AllIn(q, strip)
    requires TrimStart(s, strip) != ""
    ensures TrimEnd(TrimStart(p + s + q, strip), strip) == TrimEnd(TrimStart(s, strip), strip)
  {
    var t := TrimStart(s, strip);
    calc {
      TrimStart(p + s + q, strip);
      { assert p + s + q == p + (s + q); }
      TrimStart(p + (s + q), strip);
      { TrimStartSkipsPrefix(p, s + q, strip); }
      TrimStart(s + q, strip);
      { TrimStartOfAppend(s, q, strip); }
      t + q;
    }
    TrimEndSkipsSuffix(t, q, strip);
  }

  /** White space added at either end makes no difference to `trim`. */
  lemma TrimIgnoresPadding(p: string, s: string, q: string)
    requires AllIn(p, IsJsSpace) && AllIn(q, IsJsSpace)
    ensures Trim(p + s + q) == Trim(s)
  {
    if TrimStart(s, IsJsSpace) == "" {
      PaddingOfStrippedGoes(p, s, q, IsJsSpace);
    } else {
      PaddingOfKeptGoes(p, s, q, IsJsSpace);
    }
  }

  /** A string without white space at either end is its own trim. */
  lemma TrimOfTrimmed(s: string)
    requires |s| == 0 || (!IsJsSpace(s[0]) && !IsJsSpace(s[|s| - 1]))
    ensures Trim(s) == s
  {
  }

  /** `toLowerCase` on one character, for the ASCII letters; other characters are kept. */
  function LowerChar(c: char): char {
    if 'A' <= c <= 'Z' then (c as int + 32) as char else c
  }

  /** The string has no capital (ASCII) letter. */
  predicate NoCapitals(s: string) {
    forall i :: 0 <= i < |s| ==> !('A' <= s[i] <= 'Z')
  }

  /** The two strings are the same apart from the case of their letters. */
  predicate SameUpToCase(a: string, b: string) {
    |a| == |b| && forall i :: 0 <= i < |a| ==> LowerChar(a[i]) == LowerChar(b[i])
  }

  /** `String.prototype.toLowerCase`: the same string up to case, without capitals. */
  function ToLower(s: string): (r: string)
    ensures SameUpToCase(r, s)
    ensures NoCapitals(r)
  {
    seq(|s|, i requires 0 <= i < |s| => LowerChar(s[i]))
  }

  /** Only one string is the same as `s` up to case and has no capitals: its lower-case form. */
  lemma ToLowerUnique(s: string, t: string)
    requires SameUpToCase(t, s) && NoCapitals(t)
    ensures t == ToLower(s)
  {
    var r := ToLower(s);
    forall i | 0 <= i < |t| ensures t[i] == r[i] {
      assert LowerChar(t[i]) == t[i];
      assert LowerChar(r[i]) == r[i];
    }
  }

  /** Lower-casing keeps space characters apart from the others. */
  lemma SpaceIgnoresCase(c: char, d: char)
    requires LowerChar(c) == LowerChar(d)
    ensures IsJsSpace(c) == IsJsSpace(d)
  {
  }

  /** Strings with strippable characters at the same positions have the same leading and
      trailing counts. */
  lemma SameStripPositions(a: string, b: string, strip: char -> bool)
    requires |a| == |b| && forall i :: 0 <= i < |a| ==> strip(a[i]) == strip(b[i])
    ensures LeadCount(a, strip) == LeadCount(b, strip)
    ensures TrailCount(a, strip) == TrailCount(b, strip)
  {
  }

  /** Letter case does not decide where white space is. */
  lemma SpacesIgnoreCase(a: string, b: string)
    requires SameUpToCase(a, b)
    ensures forall i :: 0 <= i < |a| ==> IsJsSpace(a[i]) == IsJsSpace(b[i])
  {
    forall i | 0 <= i < |a| ensures IsJsSpace(a[i]) == IsJsSpace(b[i]) {
      SpaceIgnoresCase(a[i], b[i]);
    }
  }

  /** Corresponding slices of strings that differ only in case differ only in case. */
  lemma SliceKeepsSameUpToCase(a: string, b: string, i: nat, j: nat)
    requires SameUpToCase(a, b) && i <= j <= |a|
    ensures SameUpToCase(a[i..j], b[i..j])
  {
    forall n | 0 <= n < j - i ensures LowerChar(a[i..j][n]) == LowerChar(b[i..j][n]) {
      assert a[i..j][n] == a[i + n] && b[i..j][n] == b[i + n];
    }
  }

  /** `TrimStart` keeps strings that differ only in letter case so. */
  lemma TrimStartKeepsSameUpToCase(a: string, b: string)
    requires SameUpToCase(a, b)
    ensures SameUpToCase(TrimStart(a, IsJsSpace), TrimStart(b, IsJsSpace))
  {
    SpacesIgnoreCase(a, b);
    SameStripPositions(a, b, IsJsSpace);
    var k := LeadCount(a, IsJsSpace);
    SliceKeepsSameUpToCase(a, b, k, |a|);
    assert a[k..] == a[k..|a|] && b[k..] == b[k..|b|];
  }

  /** `TrimEnd` keeps strings that differ only in letter case so. */
  lemma TrimEndKeepsSameUpToCase(a: string, b: string)
    requires SameUpToCase(a, b)
    ensures SameUpToCase(TrimEnd(a, IsJsSpace), TrimEnd(b, IsJsSpace))
  {
    SpacesIgnoreCase(a, b);
    SameStripPositions(a, b, IsJsSpace);
    var m := |a| - TrailCount(a, IsJsSpace);
    SliceKeepsSameUpToCase(a, b, 0, m);
    assert a[..m] == a[0..m] && b[..m] == b[0..m];
  }

  /** Strings that differ only in letter case trim to strings that differ only in case. */
  lemma TrimKeepsSameUpToCase(a: string, b: string)
    requires SameUpToCase(a, b)
    ensures SameUpToCase(Trim(a), Trim(b))
  {
    TrimStartKeepsSameUpToCase(a, b);
    TrimEndKeepsSameUpToCase(TrimStart(a, IsJsSpace), TrimStart(b, IsJsSpace));
  }

  /** Lower-casing sends strings that differ only in case to the same string. */
  lemma ToLowerIgnoresCase(a: string, b: string)
    requires SameUpToCase(a, b)
    ensures ToLower(a) == ToLower(b)
  {
    ToLowerUnique(b, ToLower(a));
  }
}
