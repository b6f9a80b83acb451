/** The small `Option` datatype used for Python's `None`-or-value results. */
module Wrappers {
  datatype Option<+T> = None | Some(value: T)
}

/**
 * String helpers with the behaviour of the Python `str` methods the agents
 * use: `startswith`, `endswith`, `in`, `strip`, `split`, `split(sep)`,
 * `join`, `lower`, `isalnum` and `replace(c, "")`, with `str(n)` and `int(s)`.
 *
 * Python's whitespace and case rules are Unicode-aware; here they are
 * approximated by their ASCII part (the whitespace set is the one
 * `str.isspace` accepts below code point 128).
 */
module Text {
  import opened Wrappers

  /**
   * The whitespace characters `str.strip()` and `str.split()` remove: space,
   * tab, line feed, vertical tab, form feed, carriage return and the four
   * separators U+001C..U+001F.
   */
  predicate IsSpace(c: char) {
    c == ' ' || '\t' <= c <= '\r' || '\U{001C}' <= c <= '\U{001F}'
  }

  predicate AllSpace(s: string) {
    forall i :: 0 <= i < |s| ==> IsSpace(s[i])
  }

  predicate NoSpace(s: string) {
    forall i :: 0 <= i < |s| ==> !IsSpace(s[i])
  }

  /** `s.startswith(p)` */
  predicate StartsWith(s: string, p: string) {
    |p| <= |s| && s[..|p|] == p
  }

  /** `s.endswith(p)` */
  predicate EndsWith(s: string, p: string) {
    |p| <= |s| && s[|s| - |p|..] == p
  }

  // ---------------------------------------------------------------------
  // Substring test `p in s`

  predicate MatchAt(s: string, p: string, j: nat) {
    j + |p| <= |s| && s[j..j + |p|] == p
  }

  predicate ContainsFrom(s: string, p: string, i: nat)
    decreases |s| - i
  {
    i + |p| <= |s| && (MatchAt(s, p, i) || ContainsFrom(s, p, i + 1))
  }

  /** Python's `p in s` for strings. */
  predicate Contains(s: string, p: string) {
    ContainsFrom(s, p, 0)
  }

  lemma {:induction false} ContainsFromMatch(s: string, p: string, i: nat)
    ensures ContainsFrom(s, p, i) <==> exists j: nat :: i <= j && MatchAt(s, p, j)
    decreases |s| - i
  {
    if i + |p| <= |s| {
      ContainsFromMatch(s, p, i + 1);
      if ContainsFrom(s, p, i) && !MatchAt(s, p, i) {
        var j: nat :| i + 1 <= j && MatchAt(s, p, j);
        assert i <= j;
      }
      if exists j: nat :: i <= j && MatchAt(s, p, j) {
        var j: nat :| i <= j && MatchAt(s, p, j);
        if j != i { assert i + 1 <= j; }
      }
    }
  }

  /** `p in s` holds exactly when `p` occurs at some index of `s`. */
  lemma ContainsIff(s: string, p: string)
    ensures Contains(s, p) <==> exists j: nat :: MatchAt(s, p, j)
  {
    ContainsFromMatch(s, p, 0);
  }

  lemma ContainsAt(s: string, p: string, j: nat)
    requires MatchAt(s, p, j)
    ensures Contains(s, p)
  {
    ContainsIff(s, p);
  }

  /** A pattern with a character that `s` lacks does not occur in `s`. */
  lemma NotContainsByChar(s: string, p: string, k: nat)
    requires k < |p| && p[k] !in s
    ensures !Contains(s, p)
  {
    forall j: nat ensures !MatchAt(s, p, j) {
      if j + |p| <= |s| { assert s[j..j + |p|][k] != p[k]; }
    }
    ContainsIff(s, p);
  }

  /** A pattern with a pair of adjacent characters that `s` lacks does not occur in `s`. */
  lemma NotContainsByPair(s: string, p: string, k: nat)
    requires k + 1 < |p|
    requires forall j :: 0 <= j < |s| - 1 ==> s[j] != p[k] || s[j + 1] != p[k + 1]
    ensures !Contains(s, p)
  {
    forall j: nat ensures !MatchAt(s, p, j) {
      if j + |p| <= |s| { assert s[j..j + |p|][k] != p[k] || s[j..j + |p|][k + 1] != p[k + 1]; }
    }
    ContainsIff(s, p);
  }

  /** An occurrence inside a part is an occurrence inside the whole. */
  lemma ContainsInfix(a: string, s: string, b: string, p: string)
    requires Contains(s, p)
    ensures Contains(a + s + b, p)
  {
    ContainsIff(s, p);
    var j: nat :| MatchAt(s, p, j);
    assert (a + s + b)[|a| + j..|a| + j + |p|] == s[j..j + |p|];
    ContainsAt(a + s + b, p, |a| + j);
  }

  // ---------------------------------------------------------------------
  // `strip()`, computed on indices: the first index from the left, and the
  // last from the right, that does not hold whitespace

  /** The first index at or after `i` that does not hold whitespace (or |s|). */
  function SkipSpaces(s: string, i: nat): (r: nat)
    requires i <= |s|
    ensures i <= r <= |s|
    ensures r == |s| || !IsSpace(s[r])
    ensures forall k :: i <= k < r ==> IsSpace(s[k])
    decreases |s| - i
  {
    if i < |s| && IsSpace(s[i]) then SkipSpaces(s, i + 1) else i
  }

  /** The end of `s[lo..hi]` once its trailing whitespace is removed. */
  function TrimSpaces(s: string, lo: nat, hi: nat): (r: nat)
    requires lo <= hi <= |s|
    ensures lo <= r <= hi
    ensures r == lo || !IsSpace(s[r - 1])
    ensures forall k :: r <= k < hi ==> IsSpace(s[k])
    decreases hi
  {
    if lo < hi && IsSpace(s[hi - 1]) then TrimSpaces(s, lo, hi - 1) else hi
  }

  /** Any index with the properties of `SkipSpaces` is `SkipSpaces`. */
  lemma {:induction false} SkipSpacesUnique(s: string, i: nat, r: nat)
    requires i <= r <= |s|
    requires r == |s| || !IsSpace(s[r])
    requires forall k :: i <= k < r ==> IsSpace(s[k])
    ensures SkipSpaces(s, i) == r
    decreases r - i
  {
    if i < r {
      SkipSpacesUnique(s, i + 1, r);
    }
  }

  /** Any index with the properties of `TrimSpaces` is `TrimSpaces`. */
  lemma {:induction false} TrimSpacesUnique(s: string, lo: nat, hi: nat, r: nat)
    requires lo <= r <= hi <= |s|
    requires r == lo || !IsSpace(s[r - 1])
    requires forall k :: r <= k < hi ==> IsSpace(s[k])
    ensures TrimSpaces(s, lo, hi) == r
    decreases hi - r
  {
    if r < hi {
      TrimSpacesUnique(s, lo, hi - 1, r);
    }
  }

  /** `s.strip()`: `s` without its leading and trailing whitespace. */
  function Strip(s: string): (r: string)
    ensures |r| <= |s|
    ensures r == "" || (!IsSpace(r[0]) && !IsSpace(r[|r| - 1]))
  {
    var i := SkipSpaces(s, 0);
    s[i..TrimSpaces(s, i, |s|)]
  }

  /** A string that begins and ends with non-space characters is its own strip. */
  lemma StripTrimmed(s: string)
    requires s == "" || (!IsSpace(s[0]) && !IsSpace(s[|s| - 1]))
    ensures Strip(s) == s
  {
    if s != "" {
      TrimSpacesUnique(s, 0, |s|, |s|);
    }
  }

  /** The strip is empty exactly when the string is all whitespace. */
  lemma StripEmpty(s: string)
    ensures Strip(s) == "" <==> AllSpace(s)
  {
    if AllSpace(s) {
      SkipSpacesUnique(s, 0, |s|);
    }
  }

  /** Skipping from inside the second part of `p + m` sees only `m`. */
  lemma SkipSpacesShift(p: string, m: string, k: nat)
    requires k <= |m|
    ensures SkipSpaces(p + m, |p| + k) == |p| + SkipSpaces(m, k)
  {
    var r := SkipSpaces(m, k);
    forall j | |p| + k <= j < |p| + r ensures IsSpace((p + m)[j]) {
      assert (p + m)[j] == m[j - |p|];
    }
    if r < |m| {
      assert (p + m)[|p| + r] == m[r];
    }
    SkipSpacesUnique(p + m, |p| + k, |p| + r);
  }

  /** Trimming inside the second part of `p + m` sees only `m`. */
  lemma TrimSpacesShift(p: string, m: string, lo: nat)
    requires lo <= |m|
    ensures TrimSpaces(p + m, |p| + lo, |p| + |m|) == |p| + TrimSpaces(m, lo, |m|)
  {
    var r := TrimSpaces(m, lo, |m|);
    forall j | |p| + r <= j < |p| + |m| ensures IsSpace((p + m)[j]) {
      assert (p + m)[j] == m[j - |p|];
    }
    if r > lo {
      assert (p + m)[|p| + r - 1] == m[r - 1];
    }
    TrimSpacesUnique(p + m, |p| + lo, |p| + |m|, |p| + r);
  }

  /** Skipping over leading whitespace `w` and then into `s`. */
  lemma SkipSpacesLeading(w: string, s: string)
    requires AllSpace(w)
    ensures SkipSpaces(w + s, 0) == |w| + SkipSpaces(s, 0)
  {
    var i := SkipSpaces(s, 0);
    SkipSpacesShift(w, s, 0);
    forall k | 0 <= k < |w| + i ensures IsSpace((w + s)[k]) {
      if k < |w| {
        assert (w + s)[k] == w[k];
      }
    }
    SkipSpacesUnique(w + s, 0, |w| + i);
  }

  /** Leading whitespace does not change the strip. */
  lemma StripSpaces(w: string, s: string)
    requires AllSpace(w)
    ensures Strip(w + s) == Strip(s)
  {
    var i := SkipSpaces(s, 0);
    SkipSpacesLeading(w, s);
    TrimSpacesShift(w, s, i);
    var j := TrimSpaces(s, i, |s|);
    SliceShift(w, s, i, j);
    assert Strip(w + s) == (w + s)[|w| + i..|w| + j];
  }

  /** A slice of `s` is the shifted slice of `w + s`. */
  lemma SliceShift(w: string, s: string, i: nat, j: nat)
    requires i <= j <= |s|
    ensures (w + s)[|w| + i..|w| + j] == s[i..j]
  {
  }

  /** Whitespace around a string that begins and ends with non-space characters is stripped away. */
  lemma StripPadded(w1: string, s: string, w2: string)
    requires AllSpace(w1) && AllSpace(w2)
    requires s == "" || (!IsSpace(s[0]) && !IsSpace(s[|s| - 1]))
    ensures Strip(w1 + s + w2) == s
  {
    StripSpaces(w1, s + w2);
    assert w1 + s + w2 == w1 + (s + w2);
    StripTrailing(s, w2);
    StripTrimmed(s);
  }

  /** Bounds `a..b` that leave whitespace, and only whitespace, on both sides are the strip's. */
  lemma StripAt(x: string, a: nat, b: nat)
    requires a <= b <= |x|
    requires forall k :: 0 <= k < a ==> IsSpace(x[k])
    requires forall k :: b <= k < |x| ==> IsSpace(x[k])
    requires a == b ==> a == |x|
    requires a < b ==> !IsSpace(x[a]) && !IsSpace(x[b - 1])
    ensures Strip(x) == x[a..b]
  {
    SkipSpacesUnique(x, 0, a);
    TrimSpacesUnique(x, a, |x|, b);
  }

  /** Whitespace at `a..b` of `s` stays whitespace once `w` is appended. */
  lemma SpacesBeforeAppend(s: string, w: string, a: nat, b: nat)
    requires a <= b <= |s|
    requires forall k :: a <= k < b ==> IsSpace(s[k])
    ensures forall k :: a <= k < b ==> IsSpace((s + w)[k])
  {
    forall k | a <= k < b ensures IsSpace((s + w)[k]) {
      assert (s + w)[k] == s[k];
    }
  }

  /** Appending whitespace to a whitespace tail of `s` gives a whitespace tail of `s + w`. */
  lemma SpacesTailAppend(s: string, w: string, b: nat)
    requires AllSpace(w) && b <= |s|
    requires forall k :: b <= k < |s| ==> IsSpace(s[k])
    ensures forall k :: b <= k < |s + w| ==> IsSpace((s + w)[k])
  {
    forall k | b <= k < |s + w| ensures IsSpace((s + w)[k]) {
      if k < |s| {
        assert (s + w)[k] == s[k];
      } else {
        assert (s + w)[k] == w[k - |s|];
      }
    }
  }

  /** Trailing whitespace does not change the strip. */
  lemma StripTrailing(s: string, w: string)
    requires AllSpace(w)
    ensures Strip(s + w) == Strip(s)
  {
    var i := SkipSpaces(s, 0);
    var j := TrimSpaces(s, i, |s|);
    if i == |s| {
      SpacesTailAppend(s, w, 0);
      StripAt(s + w, |s + w|, |s + w|);
    } else {
      SpacesBeforeAppend(s, w, 0, i);
      SpacesTailAppend(s, w, j);
      assert (s + w)[i] == s[i] && (s + w)[j - 1] == s[j - 1];
      StripAt(s + w, i, j);
      SliceAppend(s, w, i, j);
    }
  }

  /** A slice inside `s` is the same slice of `s + w`. */
  lemma SliceAppend(s: string, w: string, i: nat, j: nat)
    requires i <= j <= |s|
    ensures (s + w)[i..j] == s[i..j]
  {
  }

  // ---------------------------------------------------------------------
  // `strip(chars)`

  /** The first index at or after `i` whose character is not in `cs` (or |s|). */
  function SkipChars(s: string, i: nat, cs: set<char>): (r: nat)
    requires i <= |s|
    ensures i <= r <= |s|
    ensures r == |s| || s[r] !in cs
    ensures forall k :: i <= k < r ==> s[k] in cs
    decreases |s| - i
  {
    if i < |s| && s[i] in cs then SkipChars(s, i + 1, cs) else i
  }

  /** The end of `s[lo..hi]` once the characters of `cs` are removed from its right. */
  function TrimChars(s: string, lo: nat, hi: nat, cs: set<char>): (r: nat)
    requires lo <= hi <= |s|
    ensures lo <= r <= hi
    ensures r == lo || s[r - 1] !in cs
    ensures forall k :: r <= k < hi ==> s[k] in cs
    decreases hi
  {
    if lo < hi && s[hi - 1] in cs then TrimChars(s, lo, hi - 1, cs) else hi
  }

  /** `s.strip(chars)`: `s` without the characters of `cs` at either end. */
  function StripChars(s: string, cs: set<char>): (r: string)
    ensures |r| <= |s|
    ensures r == "" || (r[0] !in cs && r[|r| - 1] !in cs)
  {
    var i := SkipChars(s, 0, cs);
    s[i..TrimChars(s, i, |s|, cs)]
  }

  /** Any index with the properties of `SkipChars` is `SkipChars`. */
  lemma {:induction false} SkipCharsUnique(s: string, i: nat, r: nat, cs: set<char>)
    requires i <= r <= |s|
    requires r == |s| || s[r] !in cs
    requires forall k :: i <= k < r ==> s[k] in cs
    ensures SkipChars(s, i, cs) == r
    decreases r - i
  {
    if i < r {
      SkipCharsUnique(s, i + 1, r, cs);
    }
  }

  /** Any index with the properties of `TrimChars` is `TrimChars`. */
  lemma {:induction false} TrimCharsUnique(s: string, lo: nat, hi: nat, r: nat, cs: set<char>)
    requires lo <= r <= hi <= |s|
    requires r == lo || s[r - 1] !in cs
    requires forall k :: r <= k < hi ==> s[k] in cs
    ensures TrimChars(s, lo, hi, cs) == r
    decreases hi - r
  {
    if r < hi {
      TrimCharsUnique(s, lo, hi - 1, r, cs);
    }
  }

  /**
   * Only the runs of characters of `cs` at either end are removed: a text
   * `w1 + s + w2`, where `w1` and `w2` hold only characters of `cs` and `s`
   * neither begins nor ends with one, strips to `s`, whatever `s` holds inside.
   */
  lemma StripCharsPadded(w1: string, s: string, w2: string, cs: set<char>)
    requires forall k :: 0 <= k < |w1| ==> w1[k] in cs
    requires forall k :: 0 <= k < |w2| ==> w2[k] in cs
    requires s == "" || (s[0] !in cs && s[|s| - 1] !in cs)
    ensures StripChars(w1 + s + w2, cs) == s
  {
    var x := w1 + s + w2;
    var a, b := |w1|, |w1| + |s|;
    forall k | 0 <= k < a ensures x[k] in cs {
      assert x[k] == w1[k];
    }
    forall k | b <= k < |x| ensures x[k] in cs {
      assert x[k] == w2[k - b];
    }
    if s == "" {
      SkipCharsUnique(x, 0, |x|, cs);
      assert x[|x|..|x|] == s;
    } else {
      assert x[a] == s[0] && x[b - 1] == s[|s| - 1];
      SkipCharsUnique(x, 0, a, cs);
      TrimCharsUnique(x, a, |x|, b, cs);
      assert x[a..b] == s;
    }
  }

  // ---------------------------------------------------------------------
  // `lower()` and `isalnum()`

  function LowerChar(c: char): char {
    if 'A' <= c <= 'Z' then (c as int + 32) as char else c
  }

  /** `s.lower()` for ASCII letters. */
  function Lower(s: string): (r: string)
    ensures |r| == |s|
    ensures forall i :: 0 <= i < |s| ==> r[i] == LowerChar(s[i])
    ensures forall i :: 0 <= i < |r| ==> !('A' <= r[i] <= 'Z')
  {
    seq(|s|, i requires 0 <= i < |s| => LowerChar(s[i]))
  }

  predicate IsAlnumChar(c: char) {
    'a' <= c <= 'z' || 'A' <= c <= 'Z' || '0' <= c <= '9'
  }

  /** `s.isalnum()` for ASCII: non-empty and letters and digits only. */
  predicate IsAlnum(s: string) {
    |s| > 0 && forall i :: 0 <= i < |s| ==> IsAlnumChar(s[i])
  }

  // ---------------------------------------------------------------------
  // `replace(c, "")` for a set of characters

  function RemoveChars(s: string, cs: set<char>): (r: string)
    ensures forall i :: 0 <= i < |r| ==> r[i] !in cs
    ensures |r| <= |s|
    decreases |s|
  {
    if |s| == 0 then ""
    else if s[0] in cs then RemoveChars(s[1..], cs)
    else [s[0]] + RemoveChars(s[1..], cs)
  }

  /** A single character is kept exactly when it is not removed. */
  lemma RemoveCharsOne(c: char, cs: set<char>)
    ensures RemoveChars([c], cs) == if c in cs then "" else [c]
  {
    assert [c][1..] == "";
  }

  /** Removing characters works piece by piece, so the kept characters stay in order. */
  lemma {:induction false} RemoveCharsAppend(a: string, b: string, cs: set<char>)
    ensures RemoveChars(a + b, cs) == RemoveChars(a, cs) + RemoveChars(b, cs)
    decreases |a|
  {
    if |a| > 0 {
      assert (a + b)[0] == a[0] && (a + b)[1..] == a[1..] + b;
      RemoveCharsAppend(a[1..], b, cs);
    } else {
      assert a + b == b;
    }
  }

  /** A text with no character to remove is left as it is. */
  lemma {:induction false} RemoveCharsNone(s: string, cs: set<char>)
    requires forall k :: 0 <= k < |s| ==> s[k] !in cs
    ensures RemoveChars(s, cs) == s
    decreases |s|
  {
    if |s| > 0 {
      RemoveCharsNone(s[1..], cs);
      assert s == [s[0]] + s[1..];
    }
  }

  // ---------------------------------------------------------------------
  // `s.split(sep)` and `sep.join(parts)`

  /** `s.split(d)` for a one-character separator: always at least one piece. */
  function SplitOn(s: string, d: char): (r: seq<string>)
    ensures |r| >= 1
    decreases |s|
  {
    if |s| == 0 then [""]
    else if s[0] == d then [""] + SplitOn(s[1..], d)
    else
      var rest := SplitOn(s[1..], d);
      [[s[0]] + rest[0]] + rest[1..]
  }

  /** No piece of `s.split(d)` contains `d`. */
  lemma {:induction false} SplitOnPieces(s: string, d: char)
    ensures forall k :: 0 <= k < |SplitOn(s, d)| ==> d !in SplitOn(s, d)[k]
    decreases |s|
  {
    if |s| > 0 {
      SplitOnPieces(s[1..], d);
    }
  }

  /** `sep.join(parts)` */
  function Join(parts: seq<string>, sep: string): string
    decreases |parts|
  {
    if |parts| == 0 then ""
    else if |parts| == 1 then parts[0]
    else parts[0] + sep + Join(parts[1..], sep)
  }

  lemma JoinCons(p: string, parts: seq<string>, sep: string)
    requires |parts| >= 1
    ensures Join([p] + parts, sep) == p + sep + Join(parts, sep)
  {
    assert ([p] + parts)[1..] == parts;
  }

  /** Joining the pieces of a split with the separator gives back the string. */
  lemma {:induction false} JoinSplit(s: string, d: char)
    ensures Join(SplitOn(s, d), [d]) == s
    decreases |s|
  {
    if |s| > 0 {
      JoinSplit(s[1..], d);
      var rest := SplitOn(s[1..], d);
      if s[0] == d {
        JoinCons("", rest, [d]);
        assert s == [d] + s[1..];
      } else {
        if |rest| == 1 {
          assert Join(SplitOn(s, d), [d]) == [s[0]] + rest[0];
        } else {
          JoinCons([s[0]] + rest[0], rest[1..], [d]);
          JoinCons(rest[0], rest[1..], [d]);
          assert [rest[0]] + rest[1..] == rest;
        }
        assert s == [s[0]] + s[1..];
      }
    }
  }

  /** A piece without the separator, followed by the separator, splits off as the first piece. */
  lemma {:induction false} SplitPrefix(a: string, b: string, d: char)
    requires d !in a
    ensures SplitOn(a + [d] + b, d) == [a] + SplitOn(b, d)
    decreases |a|
  {
    if |a| == 0 {
      assert a + [d] + b == [d] + b;
      assert ([d] + b)[1..] == b;
    } else {
      assert (a + [d] + b)[1..] == a[1..] + [d] + b;
      SplitPrefix(a[1..], b, d);
      assert [a[0]] + a[1..] == a;
    }
  }

  /** A string without the separator splits into itself. */
  lemma {:induction false} SplitNoSep(a: string, d: char)
    requires d !in a
    ensures SplitOn(a, d) == [a]
    decreases |a|
  {
    if |a| > 0 {
      SplitNoSep(a[1..], d);
      assert [a[0]] + a[1..] == a;
    }
  }

  /** Splitting two strings joined by the separator splits each of them. */
  lemma {:induction false} SplitConcat(a: string, b: string, d: char)
    ensures SplitOn(a + [d] + b, d) == SplitOn(a, d) + SplitOn(b, d)
    decreases |a|
  {
    if |a| == 0 {
      assert a + [d] + b == [d] + b;
      assert ([d] + b)[1..] == b;
    } else {
      var s := a + [d] + b;
      assert s[0] == a[0];
      assert s[1..] == a[1..] + [d] + b;
      SplitConcat(a[1..], b, d);
      var r1, r2 := SplitOn(a[1..], d), SplitOn(b, d);
      if a[0] == d {
        assert SplitOn(s, d) == [""] + (r1 + r2);
        assert SplitOn(a, d) == [""] + r1;
      } else {
        assert SplitOn(s, d) == [[a[0]] + (r1 + r2)[0]] + (r1 + r2)[1..];
        assert SplitOn(a, d) == [[a[0]] + r1[0]] + r1[1..];
        FirstPieceAppend(a[0], r1, r2);
      }
    }
  }

  /** Prefixing a character to the first piece commutes with appending more pieces. */
  lemma FirstPieceAppend(c: char, r1: seq<string>, r2: seq<string>)
    requires |r1| >= 1
    ensures [[c] + (r1 + r2)[0]] + (r1 + r2)[1..] == [[c] + r1[0]] + r1[1..] + r2
  {
    assert (r1 + r2)[0] == r1[0];
    assert (r1 + r2)[1..] == r1[1..] + r2;
  }

  /** Splitting a join of separator-free pieces gives back the pieces. */
  lemma {:induction false} SplitJoin(parts: seq<string>, d: char)
    requires |parts| >= 1
    requires forall k :: 0 <= k < |parts| ==> d !in parts[k]
    ensures SplitOn(Join(parts, [d]), d) == parts
    decreases |parts|
  {
    if |parts| == 1 {
      SplitNoSep(parts[0], d);
    } else {
      SplitJoin(parts[1..], d);
      SplitPrefix(parts[0], Join(parts[1..], [d]), d);
      assert [parts[0]] + parts[1..] == parts;
    }
  }

  // ---------------------------------------------------------------------
  // `s.split()` with no argument: runs of whitespace separate words

  /** The first index at or after `i` whose character is whitespace (or |s|). */
  function WordEnd(s: string, i: nat): (r: nat)
    requires i <= |s|
    ensures i <= r <= |s|
    ensures r == |s| || IsSpace(s[r])
    ensures forall k :: i <= k < r ==> !IsSpace(s[k])
    decreases |s| - i
  {
    if i < |s| && !IsSpace(s[i]) then WordEnd(s, i + 1) else i
  }

  lemma {:induction false} WordEndUnique(s: string, i: nat, r: nat)
    requires i <= r <= |s|
    requires r == |s| || IsSpace(s[r])
    requires forall k :: i <= k < r ==> !IsSpace(s[k])
    ensures WordEnd(s, i) == r
    decreases r - i
  {
    if i < r {
      WordEndUnique(s, i + 1, r);
    }
  }

  /** The words of `s[i..]`. */
  function WordsFrom(s: string, i: nat): (r: seq<string>)
    requires i <= |s|
    ensures forall k :: 0 <= k < |r| ==> r[k] != "" && NoSpace(r[k])
    decreases |s| - i
  {
    var a := SkipSpaces(s, i);
    if a == |s| then []
    else
      var b := WordEnd(s, a);
      [s[a..b]] + WordsFrom(s, b)
  }

  /** `s.split()`: the maximal runs of non-whitespace characters, in order. */
  function Words(s: string): (r: seq<string>)
    ensures forall k :: 0 <= k < |r| ==> r[k] != "" && NoSpace(r[k])
  {
    WordsFrom(s, 0)
  }

  /** A string of whitespace has no words. */
  lemma WordsAllSpace(s: string)
    requires AllSpace(s)
    ensures Words(s) == []
  {
    SkipSpacesUnique(s, 0, |s|);
  }

  /** Starting anywhere inside a run of whitespace gives the same words. */
  lemma WordsFromSkip(s: string, i: nat, k: nat)
    requires i <= |s| && i <= k <= SkipSpaces(s, i)
    ensures WordsFrom(s, i) == WordsFrom(s, k)
  {
    SkipSpacesUnique(s, k, SkipSpaces(s, i));
  }

  /** The words of `p + m` from inside `m` are the words of `m`. */
  lemma {:induction false} WordsFromShift(p: string, m: string, k: nat)
    requires k <= |m|
    ensures WordsFrom(p + m, |p| + k) == WordsFrom(m, k)
    decreases |m| - k
  {
    SkipSpacesShift(p, m, k);
    var a := SkipSpaces(m, k);
    if a == |m| {
      assert WordsFrom(p + m, |p| + k) == [];
      assert WordsFrom(m, k) == [];
    } else {
      var b := WordEnd(m, a);
      WordEndShift(p, m, a);
      SliceShift(p, m, a, b);
      WordsFromShift(p, m, b);
      assert WordsFrom(p + m, |p| + k) == [(p + m)[|p| + a..|p| + b]] + WordsFrom(p + m, |p| + b);
      assert WordsFrom(m, k) == [m[a..b]] + WordsFrom(m, b);
      ConsEqual((p + m)[|p| + a..|p| + b], m[a..b], WordsFrom(p + m, |p| + b), WordsFrom(m, b));
    }
  }

  /** Lists with equal heads and equal tails are equal. */
  lemma ConsEqual(x: string, y: string, u: seq<string>, v: seq<string>)
    requires x == y && u == v
    ensures [x] + u == [y] + v
  {
  }

  /** A word inside the second part of `p + m` ends where it ends in `m`. */
  lemma WordEndShift(p: string, m: string, a: nat)
    requires a <= |m|
    ensures WordEnd(p + m, |p| + a) == |p| + WordEnd(m, a)
  {
    var b := WordEnd(m, a);
    forall j | |p| + a <= j < |p| + b ensures !IsSpace((p + m)[j]) {
      assert (p + m)[j] == m[j - |p|];
    }
    if b < |m| {
      assert (p + m)[|p| + b] == m[b];
    }
    WordEndUnique(p + m, |p| + a, |p| + b);
  }

  /** Trailing whitespace does not change the words. */
  lemma {:induction false} WordsFromTrailing(t: string, w: string, i: nat)
    requires AllSpace(w) && i <= |t|
    ensures WordsFrom(t + w, i) == WordsFrom(t, i)
    decreases |t| - i
  {
    var a := SkipSpaces(t, i);
    forall j | i <= j < a ensures IsSpace((t + w)[j]) {
      assert (t + w)[j] == t[j];
    }
    if a == |t| {
      forall j | i <= j < |t + w| ensures IsSpace((t + w)[j]) {
        if j >= |t| {
          assert (t + w)[j] == w[j - |t|];
        }
      }
      SkipSpacesUnique(t + w, i, |t + w|);
    } else {
      assert (t + w)[a] == t[a];
      SkipSpacesUnique(t + w, i, a);
      var b := WordEnd(t, a);
      forall j | a <= j < b ensures !IsSpace((t + w)[j]) {
        assert (t + w)[j] == t[j];
      }
      if b < |t| {
        assert (t + w)[b] == t[b];
      } else if w != [] {
        assert (t + w)[b] == w[0];
      }
      WordEndUnique(t + w, a, b);
      SliceAppend(t, w, a, b);
      WordsFromTrailing(t, w, b);
      assert WordsFrom(t + w, i) == [(t + w)[a..b]] + WordsFrom(t + w, b);
    }
  }

  lemma WordsLeadingSpace(p: string, m: string)
    requires AllSpace(p)
    ensures Words(p + m) == Words(m)
  {
    forall j | 0 <= j < |p| ensures IsSpace((p + m)[j]) {
      assert (p + m)[j] == p[j];
    }
    SkipSpacesShift(p, m, 0);
    WordsFromSkip(p + m, 0, |p|);
    WordsFromShift(p, m, 0);
  }

  /** `s` is its three slices at `i` and `j`, put back together. */
  lemma SplitThree(s: string, i: nat, j: nat)
    requires i <= j <= |s|
    ensures s == s[..i] + (s[i..j] + s[j..])
  {
  }

  /** `s.strip().split()` equals `s.split()`. */
  lemma WordsOfStrip(s: string)
    ensures Words(Strip(s)) == Words(s)
  {
    var i := SkipSpaces(s, 0);
    var j := TrimSpaces(s, i, |s|);
    var lead, mid, trail := s[..i], s[i..j], s[j..];
    assert Strip(s) == mid;
    assert AllSpace(lead) by {
      forall k | 0 <= k < |lead| ensures IsSpace(lead[k]) {
        assert lead[k] == s[k];
      }
    }
    assert AllSpace(trail) by {
      forall k | 0 <= k < |trail| ensures IsSpace(trail[k]) {
        assert trail[k] == s[j + k];
      }
    }
    SplitThree(s, i, j);
    WordsLeadingSpace(lead, mid + trail);
    WordsFromTrailing(mid, trail, 0);
  }

  lemma SliceCharIn(s: string, i: nat, a: nat, b: nat, c: char)
    requires i <= a <= b <= |s| && c in s[a..b]
    ensures c in s[i..]
  {
    var j :| 0 <= j < b - a && s[a..b][j] == c;
    assert s[i..][a - i + j] == c;
  }

  lemma SuffixCharIn(s: string, i: nat, b: nat, c: char)
    requires i <= b <= |s| && c in s[b..]
    ensures c in s[i..]
  {
    var j :| 0 <= j < |s| - b && s[b..][j] == c;
    assert s[i..][b - i + j] == c;
  }

  /** Every character of a word of `s[i..]` is a character of `s[i..]`. */
  lemma {:induction false} WordsFromChars(s: string, i: nat)
    requires i <= |s|
    ensures forall k, c :: 0 <= k < |WordsFrom(s, i)| && c in WordsFrom(s, i)[k] ==> c in s[i..]
    decreases |s| - i
  {
    var a := SkipSpaces(s, i);
    if a < |s| {
      var b := WordEnd(s, a);
      WordsFromChars(s, b);
      var r := WordsFrom(s, i);
      assert r == [s[a..b]] + WordsFrom(s, b);
      forall k, c | 0 <= k < |r| && c in r[k] ensures c in s[i..] {
        if k == 0 {
          SliceCharIn(s, i, a, b, c);
        } else {
          assert r[k] == WordsFrom(s, b)[k - 1];
          SuffixCharIn(s, i, b, c);
        }
      }
    }
  }

  /** Every character of a word of `s` is a character of `s`. */
  lemma WordsChars(s: string)
    ensures forall k, c :: 0 <= k < |Words(s)| && c in Words(s)[k] ==> c in s
  {
    WordsFromChars(s, 0);
    assert s[0..] == s;
  }

  /** Lowering works piece by piece. */
  lemma LowerAppend(a: string, b: string)
    ensures Lower(a + b) == Lower(a) + Lower(b)
  {
  }

  /** Lowering twice is lowering once. */
  lemma LowerIdempotent(s: string)
    ensures Lower(Lower(s)) == Lower(s)
  {
  }

  /** A space-free non-empty `w` followed by nothing or by whitespace is the first word. */
  lemma FirstWord(w: string, rest: string)
    requires w != "" && NoSpace(w)
    requires rest == "" || IsSpace(rest[0])
    ensures |Words(w + rest)| >= 1 && Words(w + rest)[0] == w
  {
    var s := w + rest;
    assert s[0] == w[0];
    forall j | 0 <= j < |w| ensures !IsSpace(s[j]) {
      assert s[j] == w[j];
    }
    if rest != "" {
      assert s[|w|] == rest[0];
    }
    WordEndUnique(s, 0, |w|);
    assert s[0..|w|] == w;
  }

  /** A space-free non-empty `w` followed by nothing or by whitespace is a word, and the rest splits on its own. */
  lemma WordsCons(w: string, rest: string)
    requires w != "" && NoSpace(w)
    requires rest == "" || IsSpace(rest[0])
    ensures Words(w + rest) == [w] + Words(rest)
  {
    var s := w + rest;
    FirstWord(w, rest);
    assert s[0] == w[0];
    SkipSpacesUnique(s, 0, 0);
    WordEndShift(w, rest, 0);
    WordsFromShift(w, rest, 0);
    assert WordsFrom(s, 0) == [s[0..|w|]] + WordsFrom(s, |w|);
  }

  /**
   * Whitespace separates words: the words of `a`, one whitespace character,
   * and `b` are the words of `a` followed by those of `b`.
   */
  lemma {:induction false} WordsSplitAt(a: string, c: char, b: string)
    requires IsSpace(c)
    ensures Words(a + [c] + b) == Words(a) + Words(b)
    decreases |a|
  {
    if AllSpace(a) {
      WordsSplitAllSpace(a, c, b);
    } else {
      var p, w, r := WordsDecompose(a);
      WordsSplitAt(r, c, b);
      WordsSplitStep(p, w, r, c, b);
    }
  }

  /** When `a` is all whitespace, neither side has words from `a`. */
  lemma WordsSplitAllSpace(a: string, c: char, b: string)
    requires AllSpace(a) && IsSpace(c)
    ensures Words(a + [c] + b) == Words(a) + Words(b)
  {
    WordsAllSpace(a);
    assert AllSpace(a + [c]) by {
      forall k | 0 <= k < |a + [c]| ensures IsSpace((a + [c])[k]) {
        if k < |a| {
          assert (a + [c])[k] == a[k];
        }
      }
    }
    WordsLeadingSpace(a + [c], b);
  }

  /** A text that is not all whitespace is leading whitespace, its first word, and the rest. */
  lemma WordsDecompose(a: string) returns (p: string, w: string, r: string)
    requires !AllSpace(a)
    ensures a == p + (w + r) && |r| < |a|
    ensures AllSpace(p) && w != "" && NoSpace(w) && (r == "" || IsSpace(r[0]))
  {
    var i := SkipSpaces(a, 0);
    var n :| 0 <= n < |a| && !IsSpace(a[n]);
    assert i <= n;
    assert i < |a| && !IsSpace(a[i]);
    var j := WordEnd(a, i);
    assert i < j;
    p, w, r := a[..i], a[i..j], a[j..];
    assert AllSpace(p) by {
      forall k | 0 <= k < |p| ensures IsSpace(p[k]) {
        assert p[k] == a[k];
      }
    }
    assert NoSpace(w) by {
      forall k | 0 <= k < |w| ensures !IsSpace(w[k]) {
        assert w[k] == a[i + k];
      }
    }
    if r != "" {
      assert r[0] == a[j];
    }
    assert a == p + (w + r);
  }

  /** The inductive step of `WordsSplitAt`, once `a` is taken apart. */
  lemma WordsSplitStep(p: string, w: string, r: string, c: char, b: string)
    requires AllSpace(p) && w != "" && NoSpace(w) && (r == "" || IsSpace(r[0])) && IsSpace(c)
    requires Words(r + [c] + b) == Words(r) + Words(b)
    ensures Words(p + (w + r) + [c] + b) == Words(p + (w + r)) + Words(b)
  {
    var rb := r + [c] + b;
    assert rb[0] == if r == "" then c else r[0];
    ConcatShape(p, w, r, c, b);
    WordsSpaceCons(p, w, r);
    WordsSpaceCons(p, w, rb);
  }

  /** Leading whitespace, a word, and a rest that starts with whitespace. */
  lemma WordsSpaceCons(p: string, w: string, r: string)
    requires AllSpace(p) && w != "" && NoSpace(w) && (r == "" || IsSpace(r[0]))
    ensures Words(p + (w + r)) == [w] + Words(r)
  {
    WordsLeadingSpace(p, w + r);
    WordsCons(w, r);
  }

  lemma ConcatShape(p: string, w: string, r: string, c: char, b: string)
    ensures p + (w + r) + [c] + b == p + (w + (r + [c] + b))
  {
  }

  /** Splitting words joined by single spaces gives the words back. */
  lemma {:induction false} WordsJoin(ws: seq<string>)
    requires forall k :: 0 <= k < |ws| ==> ws[k] != "" && NoSpace(ws[k])
    ensures Words(Join(ws, " ")) == ws
    decreases |ws|
  {
    if |ws| == 0 {
      WordsAllSpace("");
    } else if |ws| == 1 {
      WordsCons(ws[0], "");
      assert ws[0] + "" == ws[0];
      WordsAllSpace("");
    } else {
      var rest := Join(ws[1..], " ");
      WordsJoin(ws[1..]);
      assert Join(ws, " ") == ws[0] + (" " + rest);
      WordsCons(ws[0], " " + rest);
      WordsLeadingSpace(" ", rest);
      assert [ws[0]] + ws[1..] == ws;
    }
  }

  /** Python's `seq[:n]`. */
  function Take<T>(s: seq<T>, n: nat): (r: seq<T>)
    ensures |r| == if |s| < n then |s| else n
    ensures r == s[..|r|]
  {
    if |s| < n then s else s[..n]
  }

  // ---------------------------------------------------------------------
  // `str(n)` and `int(s)` on decimal digits

  /** The decimal digits of `n`, as an f-string prints an integer. */
  function Decimal(n: nat): (r: string)
    ensures |r| >= 1
    ensures forall k :: 0 <= k < |r| ==> '0' <= r[k] <= '9'
    decreases n
  {
    if n < 10 then [('0' as int + n) as char]
    else Decimal(n / 10) + [('0' as int + n % 10) as char]
  }

  /** The decimal digits read back as the number. */
  function DigitsValue(s: string): int
    decreases |s|
  {
    if s == [] then 0 else 10 * DigitsValue(s[..|s| - 1]) + (s[|s| - 1] as int - '0' as int)
  }

  lemma {:induction false} DecimalValue(n: nat)
    ensures DigitsValue(Decimal(n)) == n
    decreases n
  {
    if n >= 10 {
      DecimalValue(n / 10);
      var d := Decimal(n);
      assert d[..|d| - 1] == Decimal(n / 10);
    }
  }

  predicate IsDigits(s: string) {
    |s| >= 1 && forall k :: 0 <= k < |s| ==> '0' <= s[k] <= '9'
  }

  /** `int(s)` on a string without surrounding whitespace: an optional sign, then decimal digits; anything else raises. */
  function ParseInt(s: string): (r: Option<int>)
    ensures r.Some? <==> IsDigits(s) || (|s| >= 2 && (s[0] == '+' || s[0] == '-') && IsDigits(s[1..]))
  {
    if IsDigits(s) then Some(DigitsValue(s))
    else if |s| >= 2 && s[0] == '+' && IsDigits(s[1..]) then Some(DigitsValue(s[1..]))
    else if |s| >= 2 && s[0] == '-' && IsDigits(s[1..]) then Some(-DigitsValue(s[1..]))
    else None
  }

  /** The digits an f-string prints for a count read back as that count, with or without a sign. */
  lemma ParseDecimal(n: nat)
    ensures ParseInt(Decimal(n)) == Some(n)
    ensures ParseInt("+" + Decimal(n)) == Some(n)
    ensures ParseInt("-" + Decimal(n)) == Some(-(n as int))
  {
    DecimalValue(n);
    ParseDigits(Decimal(n), n);
  }

  /** Digits of value `n` read as `n`, with or without a sign. */
  lemma ParseDigits(d: string, n: int)
    requires IsDigits(d) && DigitsValue(d) == n
    ensures ParseInt(d) == Some(n)
    ensures ParseInt("+" + d) == Some(n)
    ensures ParseInt("-" + d) == Some(-n)
  {
    ParseSigned("+", d);
    ParseSigned("-", d);
  }

  /** A sign followed by digits reads as the signed value of the digits. */
  lemma ParseSigned(sign: string, d: string)
    requires IsDigits(d) && (sign == "+" || sign == "-")
    ensures ParseInt(sign + d) == Some(if sign == "+" then DigitsValue(d) else -DigitsValue(d))
  {
    var s := sign + d;
    assert s[0] == sign[0] && !IsDigits(s);
    assert s[1..] == d;
  }
}
