/**
  String operations of Python's `str` type that the QR generator relies on:
  `sep.join(parts)`, `s.replace(x, y)`, `s.strip()` and the slice `s[:n]`,
  together with `s.split(c)`, which serves as the inverse of `join` when
  stating properties of the payloads.
 */
module Text {

  /** Python's `sep.join(parts)`. */
  function Join(parts: seq<string>, sep: string): string
  {
    if |parts| == 0 then ""
    else if |parts| == 1 then parts[0]
    else parts[0] + sep + Join(parts[1..], sep)
  }

  /** Joining two non-empty lists puts exactly one separator between them. */
  lemma {:induction false} JoinAppend(a: seq<string>, b: seq<string>, sep: string)
    requires |a| > 0 && |b| > 0
    ensures Join(a + b, sep) == Join(a, sep) + sep + Join(b, sep)
  {
    if |a| == 1 {
      assert (a + b)[1..] == b;
    } else {
      assert (a + b)[1..] == a[1..] + b;
      JoinAppend(a[1..], b, sep);
    }
  }

  /** Six parts joined: each separator between its two neighbours. */
  lemma JoinSix(l0: string, l1: string, l2: string, l3: string, l4: string, l5: string, sep: string)
    ensures Join([l0, l1, l2, l3, l4, l5], sep) ==
      l0 + sep + l1 + sep + l2 + sep + l3 + sep + l4 + sep + l5
  {
    JoinAppend([l0], [l1], sep);
    assert [l0] + [l1] == [l0, l1];
    JoinAppend([l0, l1], [l2], sep);
    assert [l0, l1] + [l2] == [l0, l1, l2];
    JoinAppend([l0, l1, l2], [l3], sep);
    assert [l0, l1, l2] + [l3] == [l0, l1, l2, l3];
    JoinAppend([l0, l1, l2, l3], [l4], sep);
    assert [l0, l1, l2, l3] + [l4] == [l0, l1, l2, l3, l4];
    JoinAppend([l0, l1, l2, l3, l4], [l5], sep);
    assert [l0, l1, l2, l3, l4] + [l5] == [l0, l1, l2, l3, l4, l5];
  }

  /** A join is non-empty as soon as one of its parts is. */
  lemma {:induction false} JoinNonEmpty(parts: seq<string>, sep: string, k: nat)
    requires k < |parts| && parts[k] != ""
    ensures Join(parts, sep) != ""
  {
    if |parts| > 1 {
      if k == 0 {
        assert |Join(parts, sep)| >= |parts[0]|;
      } else {
        JoinNonEmpty(parts[1..], sep, k - 1);
      }
    }
  }

  /** With a non-empty separator a join is empty exactly when there is no
      part, or a single empty part. */
  lemma JoinEmptyIff(parts: seq<string>, sep: string)
    requires sep != ""
    ensures Join(parts, sep) == "" <==> |parts| == 0 || (|parts| == 1 && parts[0] == "")
  {
    if |parts| > 1 {
      assert |Join(parts, sep)| >= |sep|;
    }
  }

  /** Index of the first occurrence of `c` in `s`, or `|s|` when there is none. */
  function Find(s: string, c: char): (i: nat)
    ensures i <= |s|
    ensures forall k :: 0 <= k < i ==> s[k] != c
    ensures i < |s| ==> s[i] == c
  {
    if |s| == 0 then 0
    else if s[0] == c then 0
    else 1 + Find(s[1..], c)
  }

  /** Python's `s.split(c)` for a one-character separator. */
  function Split(s: string, c: char): (parts: seq<string>)
    ensures |parts| >= 1
    ensures forall k :: 0 <= k < |parts| ==> c !in parts[k]
    decreases |s|
  {
    var i := Find(s, c);
    if i == |s| then [s] else [s[..i]] + Split(s[i + 1..], c)
  }

  /** A string without `c` splits into itself alone. */
  lemma SplitNoSeparator(s: string, c: char)
    requires c !in s
    ensures Split(s, c) == [s]
  {
  }

  /** Splitting at the first `c` cuts off the part before it. */
  lemma SplitCons(a: string, c: char, b: string)
    requires c !in a
    ensures Split(a + [c] + b, c) == [a] + Split(b, c)
  {
    var s := a + [c] + b;
    assert forall k :: 0 <= k < |a| ==> s[k] == a[k] && a[k] != c;
    assert s[|a|] == c;
    assert Find(s, c) == |a|;
    assert s[..|a|] == a;
    assert s[|a| + 1..] == b;
  }

  /** Splitting on `c` undoes joining with `c`, provided no part contains `c`. */
  lemma {:induction false} SplitJoin(parts: seq<string>, c: char)
    requires |parts| >= 1
    requires forall k :: 0 <= k < |parts| ==> c !in parts[k]
    ensures Split(Join(parts, [c]), c) == parts
  {
    if |parts| == 1 {
      SplitNoSeparator(parts[0], c);
    } else {
      SplitCons(parts[0], c, Join(parts[1..], [c]));
      SplitJoin(parts[1..], c);
      assert parts == [parts[0]] + parts[1..];
    }
  }

  /** Joining with `c` undoes splitting on `c`. */
  lemma {:induction false} JoinSplit(s: string, c: char)
    ensures Join(Split(s, c), [c]) == s
    decreases |s|
  {
    var i := Find(s, c);
    if i < |s| {
      var tail := Split(s[i + 1..], c);
      JoinSplit(s[i + 1..], c);
      assert Split(s, c) == [s[..i]] + tail;
      assert ([s[..i]] + tail)[1..] == tail;
      assert s == s[..i] + [c] + s[i + 1..];
    }
  }

  /** Python's `s.replace(x, y)` for one-character `x` and `y`. */
  function ReplaceChar(s: string, x: char, y: char): (r: string)
    ensures |r| == |s|
    ensures forall k :: 0 <= k < |s| ==> r[k] == if s[k] == x then y else s[k]
  {
    if s == [] then [] else [if s[0] == x then y else s[0]] + ReplaceChar(s[1..], x, y)
  }

  /** The characters for which Python's `str.isspace()` holds, and which
      `str.strip()` therefore removes: the ASCII controls 0x09-0x0D and
      0x1C-0x1F, the space, NEL, NO-BREAK SPACE and the Unicode spaces and
      line and paragraph separators. */
  predicate IsSpace(c: char)
  {
    var n := c as int;
    (0x09 <= n <= 0x0D) || (0x1C <= n <= 0x20) || n == 0x85 || n == 0xA0 ||
    n == 0x1680 || (0x2000 <= n <= 0x200A) || n == 0x2028 || n == 0x2029 ||
    n == 0x202F || n == 0x205F || n == 0x3000
  }

  ghost predicate AllSpace(t: string)
  {
    forall k :: 0 <= k < |t| ==> IsSpace(t[k])
  }

  /** Neither end of `t` is whitespace. */
  ghost predicate Trimmed(t: string)
  {
    t == [] || (!IsSpace(t[0]) && !IsSpace(t[|t| - 1]))
  }

  /** The forward scan of `strip()`: the first non-space index at or after `from`. */
  function SkipSpaces(s: string, from: nat): (i: nat)
    requires from <= |s|
    ensures from <= i <= |s|
    ensures forall k :: from <= k < i ==> IsSpace(s[k])
    ensures i < |s| ==> !IsSpace(s[i])
    decreases |s| - from
  {
    if from < |s| && IsSpace(s[from]) then SkipSpaces(s, from + 1) else from
  }

  /** The backward scan of `strip()`: the end of `s[lo..hi]` with trailing spaces removed. */
  function SkipSpacesBack(s: string, lo: nat, hi: nat): (j: nat)
    requires lo <= hi <= |s|
    ensures lo <= j <= hi
    ensures forall k :: j <= k < hi ==> IsSpace(s[k])
    ensures lo < j ==> !IsSpace(s[j - 1])
    decreases hi
  {
    if lo < hi && IsSpace(s[hi - 1]) then SkipSpacesBack(s, lo, hi - 1) else hi
  }

  /** Python's `s.strip()`: the slice of `s` left after removing whitespace from both ends. */
  function Strip(s: string): (r: string)
    ensures Trimmed(r)
    ensures exists i, j :: 0 <= i <= j <= |s| && r == s[i..j] && AllSpace(s[..i]) && AllSpace(s[j..])
  {
    var i := SkipSpaces(s, 0);
    var j := SkipSpacesBack(s, i, |s|);
    assert AllSpace(s[..i]) && AllSpace(s[j..]);
    s[i..j]
  }

  /** The characterisation in Strip's contract determines the result: any slice
      bordered by whitespace only and not itself bordered by whitespace is the strip. */
  lemma StripUnique(s: string, i: nat, j: nat)
    requires i <= j <= |s|
    requires AllSpace(s[..i]) && AllSpace(s[j..]) && Trimmed(s[i..j])
    ensures Strip(s) == s[i..j]
  {
  }

  /** Stripping is idempotent. */
  lemma StripIdempotent(s: string)
    ensures Strip(Strip(s)) == Strip(s)
  {
  }

  /** The strip is empty exactly when the whole string is whitespace. */
  lemma StripEmptyIff(s: string)
    ensures Strip(s) == "" <==> AllSpace(s)
  {
  }

  /** Python's slice `s[:n]` for a non-negative `n`. */
  function Take(s: string, n: nat): (r: string)
    ensures |r| == if |s| <= n then |s| else n
    ensures r == s[..|r|]
  {
    if |s| <= n then s else s[..n]
  }

  /** A positive cut keeps the string's characters and empties only the empty string. */
  lemma TakeKeeps(s: string, n: nat)
    requires n > 0
    ensures Take(s, n) == "" <==> s == ""
    ensures forall k :: 0 <= k < |Take(s, n)| ==> Take(s, n)[k] == s[k]
  {
  }
}
