/**
 * The ECMAScript string operations the two handlers use (`indexOf`,
 * `replace` with a string pattern, `replace(/\+/g, " ")`, Annex B `substr`
 * and the extension regular expression), over `string` taken as a sequence
 * of characters. A character outside the Basic Multilingual Plane is one
 * element here and two UTF-16 code units in JavaScript, so indices can
 * differ, but the strings derived from them do not.
 */
module JsString {
  import opened Wrappers

  function Min(a: int, b: int): int { if a <= b then a else b }

  function Max(a: int, b: int): int { if a <= b then b else a }

  /** `pat` occurs in `s` starting at index `i`. */
  predicate OccursAt(s: string, pat: string, i: int) {
    0 <= i && i + |pat| <= |s| && s[i..i + |pat|] == pat
  }

  /** Occurrences in `s` past its first character are the occurrences in `s[1..]`, shifted by one. */
  lemma OccursAtTail(s: string, pat: string)
    requires |s| > 0
    ensures forall i :: 1 <= i ==> (OccursAt(s, pat, i) <==> OccursAt(s[1..], pat, i - 1))
  {
    forall i | 1 <= i
      ensures OccursAt(s, pat, i) <==> OccursAt(s[1..], pat, i - 1)
    {
      if i + |pat| <= |s| {
        assert s[1..][i - 1..i - 1 + |pat|] == s[i..i + |pat|];
      }
    }
  }

  /**
   * `s.indexOf(pat)`: the least index at which `pat` occurs in `s`, or -1
   * when it occurs nowhere.
   */
  function IndexOf(s: string, pat: string): (r: int)
    ensures r == -1 || OccursAt(s, pat, r)
    ensures forall i :: 0 <= i && (r == -1 || i < r) ==> !OccursAt(s, pat, i)
    decreases |s|
  {
    if OccursAt(s, pat, 0) then 0
    else if |s| == 0 then -1
    else
      var j := IndexOf(s[1..], pat);
      OccursAtTail(s, pat);
      if j == -1 then -1 else j + 1
  }

  /** The position where `pat` occurs first is what `IndexOf` finds. */
  lemma FirstOccurrence(s: string, pat: string, n: int)
    requires OccursAt(s, pat, n)
    requires forall i :: 0 <= i < n ==> !OccursAt(s, pat, i)
    ensures IndexOf(s, pat) == n
  {
  }

  /**
   * No occurrence of `pat` starts before `m` when the prefix `s[..m]` holds
   * none and `s[m]` is no character of `pat` after its first.
   */
  lemma NoOccurrenceBefore(s: string, pat: string, m: int)
    requires 0 <= m < |s| && |pat| > 0
    requires !Contains(s[..m], pat) && s[m] !in pat[1..]
    ensures forall i :: 0 <= i < m ==> !OccursAt(s, pat, i)
  {
    forall i | 0 <= i < m
      ensures !OccursAt(s, pat, i)
    {
      if i + |pat| <= m {
        assert s[..m][i..i + |pat|] == s[i..i + |pat|];
        assert !OccursAt(s[..m], pat, i);
      } else if i + |pat| <= |s| {
        assert s[i..i + |pat|][m - i] == s[m];
        assert pat[m - i] == pat[1..][m - i - 1];
      }
    }
  }

  /** A string containing `pat` contains every suffix of `pat`, in particular `pat[1..]`. */
  lemma ContainsTail(s: string, pat: string)
    requires |pat| > 0
    ensures Contains(s, pat) ==> Contains(s, pat[1..])
  {
    if Contains(s, pat) {
      var i := IndexOf(s, pat);
      assert s[i + 1..i + |pat|] == s[i..i + |pat|][1..];
      assert OccursAt(s, pat[1..], i + 1);
    }
  }

  /** A slice inside the middle part of a concatenation is a slice of that part. */
  lemma MiddleSlice(a: string, m: string, b: string, i: int, j: int)
    requires 0 <= i <= j <= |m|
    ensures (a + m + b)[|a| + i..|a| + j] == m[i..j]
  {
  }

  /** A prefix of a concatenation that ends inside its middle part. */
  lemma PrefixIntoMiddle(a: string, m: string, b: string, k: int)
    requires 0 <= k <= |m|
    ensures (a + m + b)[..|a| + k] == a + m[..k]
  {
  }

  /** A suffix of a concatenation that starts inside its middle part. */
  lemma SuffixFromMiddle(a: string, m: string, b: string, k: int)
    requires 0 <= k <= |m|
    ensures (a + m + b)[|a| + k..] == m[k..] + b
  {
  }

  /**
   * When `a` does not contain `pat` and `m` starts with no character that
   * could end an occurrence reaching into it, the first occurrence in
   * `a + m + b` is the first one in `m`.
   */
  lemma IndexOfAfter(a: string, m: string, b: string, pat: string)
    requires |pat| > 0 && |m| > 0 && !Contains(a, pat) && m[0] !in pat[1..] && Contains(m, pat)
    ensures IndexOf(a + m + b, pat) == |a| + IndexOf(m, pat)
  {
    var s, k := a + m + b, IndexOf(m, pat);
    assert s[..|a|] == a;
    NoOccurrenceBefore(s, pat, |a|);
    forall j | 0 <= j <= k
      ensures OccursAt(s, pat, |a| + j) == OccursAt(m, pat, j)
    {
      OccursInMiddle(a, m, b, pat, j);
    }
    forall i | 0 <= i < |a| + k
      ensures !OccursAt(s, pat, i)
    {
      if i >= |a| {
        assert !OccursAt(m, pat, i - |a|);
      }
    }
    FirstOccurrence(s, pat, |a| + k);
  }

  /** An occurrence lying inside the middle part of a concatenation is one of that part. */
  lemma OccursInMiddle(a: string, m: string, b: string, pat: string, j: int)
    requires 0 <= j && j + |pat| <= |m|
    ensures OccursAt(a + m + b, pat, |a| + j) == OccursAt(m, pat, j)
  {
    MiddleSlice(a, m, b, j, j + |pat|);
  }

  /** Under the same conditions, `a + t` contains `pat` only if `t` does. */
  lemma AbsentAfter(a: string, t: string, pat: string)
    requires |pat| > 0 && |t| > 0 && !Contains(a, pat) && t[0] !in pat[1..] && !Contains(t, pat)
    ensures !Contains(a + t, pat)
  {
    var s := a + t;
    assert s[..|a|] == a;
    NoOccurrenceBefore(s, pat, |a|);
    forall i | |a| <= i
      ensures !OccursAt(s, pat, i)
    {
      if i + |pat| <= |s| {
        assert s[i..i + |pat|] == t[i - |a|..i - |a| + |pat|];
        assert !OccursAt(t, pat, i - |a|);
      }
    }
  }

  /** `s.indexOf(pat) > -1`, the handlers' substring test. */
  predicate Contains(s: string, pat: string) {
    IndexOf(s, pat) > -1
  }

  /**
   * `s.replace(pat, rep)` with a string pattern: only the first occurrence
   * of `pat` is replaced; without one the string is returned unchanged.
   */
  function ReplaceFirst(s: string, pat: string, rep: string): (r: string)
    ensures !Contains(s, pat) ==> r == s
    ensures Contains(s, pat) ==>
      exists pre, post ::
        && s == pre + pat + post
        && r == pre + rep + post
        && (forall i :: 0 <= i < |pre| ==> !OccursAt(s, pat, i))
  {
    var i := IndexOf(s, pat);
    if i == -1 then s
    else
      var pre, post := s[..i], s[i + |pat|..];
      assert s == pre + pat + post;
      pre + rep + post
  }

  /** Replacing the first occurrence found at `n` splices `rep` in at `n`. */
  lemma ReplaceFirstAt(s: string, pat: string, rep: string, n: int)
    requires IndexOf(s, pat) == n && n >= 0
    ensures n + |pat| <= |s|
    ensures ReplaceFirst(s, pat, rep) == s[..n] + rep + s[n + |pat|..]
  {
    assert OccursAt(s, pat, n);
  }

  /** `s.replace(/\+/g, " ")`: every `+` becomes a space, nothing else changes. */
  function PlusToSpace(s: string): (r: string)
    ensures |r| == |s|
    ensures forall i :: 0 <= i < |s| ==> r[i] == (if s[i] == '+' then ' ' else s[i])
  {
    if |s| == 0 then ""
    else [if s[0] == '+' then ' ' else s[0]] + PlusToSpace(s[1..])
  }

  lemma PlusToSpaceWithoutPlus(s: string)
    requires '+' !in s
    ensures PlusToSpace(s) == s
  {
  }

  lemma PlusToSpaceAppend(a: string, b: string)
    ensures PlusToSpace(a + b) == PlusToSpace(a) + PlusToSpace(b)
  {
    var l, r := PlusToSpace(a + b), PlusToSpace(a) + PlusToSpace(b);
    assert |l| == |r|;
    forall i | 0 <= i < |l| ensures l[i] == r[i] {
      if i < |a| { assert (a + b)[i] == a[i]; } else { assert (a + b)[i] == b[i - |a|]; }
    }
  }

  /**
   * `s.substr(start, length)` (ECMAScript Annex B): a negative start counts
   * from the end, and the length is clamped to `[0, |s|]`, so a negative
   * length yields the empty string.
   */
  function Substr(s: string, start: int, length: int): (r: string)
    ensures length <= 0 ==> r == ""
    ensures start == 0 ==> r == s[..Min(Max(length, 0), |s|)]
    ensures |r| <= |s|
  {
    var first := if start < 0 then Max(|s| + start, 0) else Min(start, |s|);
    var last := Min(first + Min(Max(length, 0), |s|), |s|);
    s[first..last]
  }

  /** `s.lastIndexOf(c)` for one character: -1, or an index of `c` after which `c` no longer occurs. */
  function LastIndexOf(s: string, c: char): (r: int)
    ensures -1 <= r < |s|
    ensures r >= 0 ==> s[r] == c
    ensures forall j :: r < j < |s| ==> s[j] != c
  {
    if |s| == 0 then -1
    else if s[|s| - 1] == c then |s| - 1
    else LastIndexOf(s[..|s| - 1], c)
  }

  /**
   * The capture group of `s.match(/\.([^.]*)$/)`: the text after the last
   * `.`, or `None` when `s` holds no `.` and the match is `null`.
   */
  function MatchExtension(s: string): (r: Option<string>)
    ensures r.None? <==> '.' !in s
    ensures r.Some? ==>
      && |r.value| < |s|
      && s == s[..|s| - |r.value| - 1] + "." + r.value
      && '.' !in r.value
  {
    var i := LastIndexOf(s, '.');
    if i == -1 then None
    else
      assert s == s[..i] + "." + s[i + 1..];
      Some(s[i + 1..])
  }
}
