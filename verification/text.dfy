/**
 * The handful of Python `str` operations the modelled code relies on:
 * `strip`, `split(sep)`, `find`, `rfind`, `endswith`, `lower` and
 * single-character `replace`, over `string` (a `seq<char>`).
 */
module Text {

  /** Whitespace removed by Python's `str.strip()`, restricted to the ASCII range. */
  predicate IsSpace(c: char) {
    c == ' ' || ('\t' <= c <= '\r') || ('\U{1C}' <= c <= '\U{1F}')
  }

  /** Neither end of `s` is whitespace. */
  predicate IsStripped(s: string) {
    |s| == 0 || (!IsSpace(s[0]) && !IsSpace(s[|s| - 1]))
  }

  predicate AllSpaces(s: string) {
    forall k :: 0 <= k < |s| ==> IsSpace(s[k])
  }

  function TrimLeft(s: string): (r: string)
    ensures |r| <= |s| && r == s[|s| - |r|..]
    ensures AllSpaces(s[..|s| - |r|])
    ensures r == [] || !IsSpace(r[0])
  {
    if |s| > 0 && IsSpace(s[0]) then
      var r := TrimLeft(s[1..]);
      assert s[..|s| - |r|] == [s[0]] + s[1..][..|s| - 1 - |r|];
      r
    else s
  }

  function TrimRight(s: string): (r: string)
    ensures |r| <= |s| && r == s[..|r|]
    ensures AllSpaces(s[|r|..])
    ensures r == [] || !IsSpace(r[|r| - 1])
  {
    if |s| > 0 && IsSpace(s[|s| - 1]) then
      var r := TrimRight(s[..|s| - 1]);
      assert s[|r|..] == s[..|s| - 1][|r|..] + [s[|s| - 1]];
      r
    else s
  }

  lemma {:induction false} SpacesHoldNoOther(s: string, c: char)
    requires AllSpaces(s) && !IsSpace(c)
    ensures multiset(s)[c] == 0
  {
    if |s| > 0 {
      assert s == [s[0]] + s[1..];
      SpacesHoldNoOther(s[1..], c);
    }
  }

  /**
   * Python's `s.strip()`: the piece of `s` left once the whitespace at both
   * ends is cut off.
   */
  function Strip(s: string): (r: string)
    ensures IsStripped(r)
    ensures IsStripped(s) ==> r == s
    ensures exists i, j :: 0 <= i <= j <= |s| && r == s[i..j] && AllSpaces(s[..i]) && AllSpaces(s[j..])
  {
    var left := TrimLeft(s);
    var r := TrimRight(left);
    var i := |s| - |left|;
    var j := i + |r|;
    assert r == s[i..j] by {
      assert left == s[i..];
      assert r == left[..|r|];
    }
    assert AllSpaces(s[j..]) by {
      assert s[j..] == left[|r|..];
    }
    assert AllSpaces(s[..i]);
    r
  }

  /** Stripping only removes characters: the result is a piece of `s`, never longer. */
  lemma StripWithin(s: string, c: char)
    requires c !in s
    ensures c !in Strip(s) && |Strip(s)| <= |s|
  {
    var left := TrimLeft(s);
    assert c !in left by {
      assert left == s[|s| - |left|..];
    }
    assert Strip(s) == left[..|Strip(s)|];
  }

  /** How often `c` occurs in `s`, counted on either side of a cut. */
  lemma CountSplit(s: string, k: int, c: char)
    requires 0 <= k <= |s|
    ensures multiset(s)[c] == multiset(s[..k])[c] + multiset(s[k..])[c]
  {
    assert s == s[..k] + s[k..];
  }

  lemma TrimLeftKeeps(s: string, c: char)
    requires !IsSpace(c)
    ensures multiset(TrimLeft(s))[c] == multiset(s)[c]
  {
    var left := TrimLeft(s);
    CountSplit(s, |s| - |left|, c);
    SpacesHoldNoOther(s[..|s| - |left|], c);
  }

  lemma TrimRightKeeps(s: string, c: char)
    requires !IsSpace(c)
    ensures multiset(TrimRight(s))[c] == multiset(s)[c]
  {
    var r := TrimRight(s);
    CountSplit(s, |r|, c);
    SpacesHoldNoOther(s[|r|..], c);
  }

  /** Stripping keeps every character that is not whitespace. */
  lemma StripKeeps(s: string, c: char)
    requires !IsSpace(c)
    ensures multiset(Strip(s))[c] == multiset(s)[c]
  {
    TrimLeftKeeps(s, c);
    TrimRightKeeps(TrimLeft(s), c);
  }

  /** Python's `s.find(c)` for a single character: the first index of `c`, or -1. */
  function IndexOf(s: string, c: char): (i: int)
    ensures -1 <= i < |s|
    ensures i == -1 <==> c !in s
    ensures 0 <= i ==> s[i] == c && c !in s[..i]
  {
    if |s| == 0 then -1
    else if s[0] == c then 0
    else
      var j := IndexOf(s[1..], c);
      assert s[1..][..j + 1] == s[1..j + 2] by { }
      if j < 0 then -1 else j + 1
  }

  /** The first `c` in `u + [c] + v` is the one after `u` when `u` has none. */
  lemma IndexOfAfter(u: string, v: string, c: char)
    requires c !in u
    ensures IndexOf(u + [c] + v, c) == |u|
  {
    var s := u + [c] + v;
    assert s[|u|] == c;
    assert s[..|u|] == u;
  }

  /** Python's `sep.join(parts)`. */
  function Join(parts: seq<string>, sep: char): string
    requires |parts| >= 1
  {
    if |parts| == 1 then parts[0] else parts[0] + [sep] + Join(parts[1..], sep)
  }

  /**
   * Python's `s.split(sep)` for a one-character separator: the pieces
   * between separators, one more than there are separators, which join
   * back to `s`.
   */
  function Split(s: string, sep: char): (parts: seq<string>)
    ensures |parts| >= 1
    ensures forall k :: 0 <= k < |parts| ==> sep !in parts[k]
    ensures |parts| == multiset(s)[sep] + 1
    decreases |s|
  {
    var i := IndexOf(s, sep);
    if i < 0 then
      assert multiset(s)[sep] == 0;
      [s]
    else
      var rest := Split(s[i + 1..], sep);
      assert s == s[..i] + [sep] + s[i + 1..];
      assert multiset(s)[sep] == multiset(s[..i])[sep] + 1 + multiset(s[i + 1..])[sep];
      var parts := [s[..i]] + rest;
      assert parts[1..] == rest;
      parts
  }

  lemma SplitStep(s: string, sep: char)
    requires IndexOf(s, sep) >= 0
    ensures var i := IndexOf(s, sep);
      Split(s, sep) == [s[..i]] + Split(s[i + 1..], sep)
  {
  }

  lemma JoinCons(p: string, rest: seq<string>, sep: char)
    requires |rest| >= 1
    ensures Join([p] + rest, sep) == p + [sep] + Join(rest, sep)
  {
    assert ([p] + rest)[1..] == rest;
  }

  /** Joining the pieces of a split with the separator gives the string back. */
  lemma {:induction false} JoinSplit(s: string, sep: char)
    ensures Join(Split(s, sep), sep) == s
    decreases |s|
  {
    var i := IndexOf(s, sep);
    if i >= 0 {
      var rest := Split(s[i + 1..], sep);
      JoinSplit(s[i + 1..], sep);
      SplitStep(s, sep);
      JoinCons(s[..i], rest, sep);
      assert s == s[..i] + [sep] + s[i + 1..];
    } else {
      assert Split(s, sep) == [s];
    }
  }

  /** Splitting a join of separator-free pieces gives the pieces back. */
  lemma {:induction false} SplitJoin(parts: seq<string>, sep: char)
    requires |parts| >= 1
    requires forall k :: 0 <= k < |parts| ==> sep !in parts[k]
    ensures Split(Join(parts, sep), sep) == parts
    decreases |parts|
  {
    var s := Join(parts, sep);
    if |parts| == 1 {
      assert IndexOf(s, sep) == -1;
    } else {
      var tail := Join(parts[1..], sep);
      assert s == parts[0] + [sep] + tail;
      var i := IndexOf(s, sep);
      assert s[|parts[0]|] == sep;
      assert i == |parts[0]| by {
        assert sep in s[..|parts[0]| + 1];
        assert s[..|parts[0]|] == parts[0];
      }
      assert s[..i] == parts[0];
      assert s[i + 1..] == tail;
      SplitJoin(parts[1..], sep);
    }
  }

  /** `pat` occurs in `s` starting at index `i`. */
  predicate IsAt(s: string, pat: string, i: int) {
    0 <= i && i + |pat| <= |s| && s[i..i + |pat|] == pat
  }

  function LastIndexAtOrBelow(s: string, pat: string, k: int): (i: int)
    ensures i == -1 || (0 <= i <= k && IsAt(s, pat, i))
    ensures forall j :: i < j <= k ==> !IsAt(s, pat, j)
    decreases if k < 0 then 0 else k + 1
  {
    if k < 0 then -1
    else if IsAt(s, pat, k) then k
    else LastIndexAtOrBelow(s, pat, k - 1)
  }

  /** Python's `s.rfind(pat)`: the last index where `pat` starts, or -1. */
  function RFind(s: string, pat: string): (i: int)
    ensures i == -1 || IsAt(s, pat, i)
    ensures forall j :: i < j && IsAt(s, pat, j) ==> false
  {
    LastIndexAtOrBelow(s, pat, |s| - |pat|)
  }

  /** Python's `s.endswith(suffix)`. */
  predicate EndsWith(s: string, suffix: string) {
    |suffix| <= |s| && s[|s| - |suffix|..] == suffix
  }

  /** When `s` ends with `pat`, the last occurrence of `pat` is that suffix. */
  lemma EndsWithRFind(s: string, pat: string)
    requires EndsWith(s, pat)
    ensures RFind(s, pat) == |s| - |pat|
  {
    assert IsAt(s, pat, |s| - |pat|);
  }

  predicate IsUpper(c: char) {
    'A' <= c <= 'Z'
  }

  function LowerChar(c: char): char {
    if IsUpper(c) then (c as int + 32) as char else c
  }

  predicate IsLower(s: string) {
    forall k :: 0 <= k < |s| ==> !IsUpper(s[k])
  }

  /** Python's `s.lower()` on the ASCII letters; every other character is left alone. */
  function Lower(s: string): (r: string)
    ensures |r| == |s| && IsLower(r)
    ensures forall k :: 0 <= k < |s| ==> r[k] == LowerChar(s[k])
    ensures IsLower(s) ==> r == s
  {
    seq(|s|, k requires 0 <= k < |s| => LowerChar(s[k]))
  }

  /** Lower-casing keeps every character that is not a letter. */
  lemma {:induction false} LowerKeeps(s: string, c: char)
    requires !IsUpper(c) && !('a' <= c <= 'z')
    ensures multiset(Lower(s))[c] == multiset(s)[c]
  {
    if |s| > 0 {
      var t := Lower(s[1..]);
      assert Lower(s)[1..] == t by {
        forall k | 0 <= k < |t| ensures Lower(s)[1..][k] == t[k] {
          assert s[1..][k] == s[k + 1];
        }
      }
      assert s == [s[0]] + s[1..];
      assert Lower(s) == [LowerChar(s[0])] + t;
      LowerKeeps(s[1..], c);
    }
  }

  /** Every slice of a lower-case string is lower-case. */
  lemma LowerSlice(s: string, i: int, j: int)
    requires IsLower(s) && 0 <= i <= j <= |s|
    ensures IsLower(s[i..j])
  {
    forall k | 0 <= k < j - i ensures !IsUpper(s[i..j][k]) {
      assert s[i..j][k] == s[i + k];
    }
  }

  /** Python's `s.replace(a, b)` for single characters `a != b`. */
  function ReplaceChar(s: string, a: char, b: char): (r: string)
    requires a != b
    ensures |r| == |s| && a !in r
    ensures a !in s ==> r == s
  {
    seq(|s|, k requires 0 <= k < |s| => if s[k] == a then b else s[k])
  }

  /** Replacing `a` by `b` touches exactly the positions holding `a`. */
  lemma ReplaceCharAt(s: string, a: char, b: char, k: int)
    requires a != b && 0 <= k < |s|
    ensures ReplaceChar(s, a, b)[k] == (if s[k] == a then b else s[k])
  {
  }

  /** Python's `s.replace(a, '')`: every `a` dropped, everything else kept in order. */
  function RemoveChar(s: string, a: char): (r: string)
    ensures |r| <= |s| && a !in r
    ensures a !in s ==> r == s
  {
    if |s| == 0 then []
    else
      var rest := RemoveChar(s[1..], a);
      assert s == [s[0]] + s[1..];
      if s[0] == a then rest else [s[0]] + rest
  }

  /** Dropping `a` keeps every other character, as often as it occurred, and adds none. */
  lemma {:induction false} RemoveCharKeeps(s: string, a: char)
    ensures forall c :: c != a ==> multiset(RemoveChar(s, a))[c] == multiset(s)[c]
    ensures forall k :: 0 <= k < |RemoveChar(s, a)| ==> RemoveChar(s, a)[k] in s
  {
    var r := RemoveChar(s, a);
    if |s| > 0 {
      RemoveCharKeeps(s[1..], a);
      assert s == [s[0]] + s[1..];
    }
    forall k | 0 <= k < |r| ensures r[k] in s {
      assert r[k] in multiset(r) && r[k] != a;
      assert r[k] in multiset(s);
    }
  }

  /** Dropping a character distributes over concatenation. */
  lemma {:induction false} RemoveCharAppend(a: string, b: string, c: char)
    ensures RemoveChar(a + b, c) == RemoveChar(a, c) + RemoveChar(b, c)
  {
    if |a| > 0 {
      assert (a + b)[1..] == a[1..] + b;
      RemoveCharAppend(a[1..], b, c);
    } else {
      assert a + b == b;
    }
  }
}
