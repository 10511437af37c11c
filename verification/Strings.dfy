/** Splitting and joining on a separator character, and the facts the parsers rest on. */
module Strings {
  /** Index of the first `c` in `s`, or |s|. */
  function FirstIndexOf(s: string, c: char): (r: nat)
    ensures r <= |s|
    ensures r < |s| ==> s[r] == c
    ensures forall k :: 0 <= k < r ==> s[k] != c
  {
    if s == [] || s[0] == c then 0 else 1 + FirstIndexOf(s[1..], c)
  }

  /** `str::split(c)`. */
  function Split(s: string, c: char): (r: seq<string>)
    ensures |r| >= 1
    decreases |s|
  {
    var k := FirstIndexOf(s, c);
    if k == |s| then [s] else [s[..k]] + Split(s[k + 1..], c)
  }

  /** `str::splitn(n, c)`: the last part keeps any further separators. */
  function SplitN(s: string, c: char, n: nat): (r: seq<string>)
    requires n >= 1
    ensures 1 <= |r| <= n
    decreases n
  {
    var k := FirstIndexOf(s, c);
    if n == 1 || k == |s| then [s] else [s[..k]] + SplitN(s[k + 1..], c, n - 1)
  }

  /** `parts.join(c)`. */
  function Join(parts: seq<string>, c: char): string {
    if parts == [] then ""
    else if |parts| == 1 then parts[0]
    else parts[0] + [c] + Join(parts[1..], c)
  }

  predicate Free(s: string, c: char) {
    c !in s
  }

  predicate AllFree(parts: seq<string>, c: char) {
    forall p :: p in parts ==> Free(p, c)
  }

  lemma FirstIndexUnique(a: string, c: char, rest: string)
    requires Free(a, c)
    ensures FirstIndexOf(a + [c] + rest, c) == |a|
  {
    var s := a + [c] + rest;
    assert s[|a|] == c;
    forall k | 0 <= k < |a|
      ensures s[k] != c
    {
      assert s[k] == a[k] && a[k] in a;
    }
  }

  lemma FreeIndex(a: string, c: char)
    requires Free(a, c)
    ensures FirstIndexOf(a, c) == |a|
  {
    assert forall k :: 0 <= k < |a| ==> a[k] in a;
  }

  lemma SplitCut(a: string, c: char, rest: string)
    requires Free(a, c)
    ensures Split(a + [c] + rest, c) == [a] + Split(rest, c)
  {
    FirstIndexUnique(a, c, rest);
    var s := a + [c] + rest;
    assert s[..|a|] == a && s[|a| + 1..] == rest;
  }

  lemma {:induction false} SplitJoin(parts: seq<string>, c: char)
    requires parts != [] && AllFree(parts, c)
    ensures Split(Join(parts, c), c) == parts
    decreases |parts|
  {
    if |parts| == 1 {
      FreeIndex(parts[0], c);
    } else {
      hide Split;
      SplitCut(parts[0], c, Join(parts[1..], c));
      SplitJoin(parts[1..], c);
    }
  }

  lemma {:induction false} JoinSplit(s: string, c: char)
    ensures Join(Split(s, c), c) == s
    ensures AllFree(Split(s, c), c)
    decreases |s|
  {
    var k := FirstIndexOf(s, c);
    if k < |s| {
      JoinSplit(s[k + 1..], c);
      assert s == s[..k] + [c] + s[k + 1..];
    }
  }

  /** `splitn` agrees with `split` when there are few enough parts; otherwise its last part holds a separator. */
  lemma {:induction false} SplitNAgrees(s: string, c: char, n: nat)
    requires n >= 1
    ensures |Split(s, c)| <= n ==> SplitN(s, c, n) == Split(s, c)
    ensures |Split(s, c)| > n ==> |SplitN(s, c, n)| == n && c in SplitN(s, c, n)[n - 1]
    decreases n
  {
    hide Split, SplitN;
    var k := FirstIndexOf(s, c);
    if k == |s| || n == 1 {
      SplitEnds(s, c, n);
    } else {
      SplitNAgrees(s[k + 1..], c, n - 1);
      SplitBoth(s, c, n);
      SameHead(s[..k], Split(s[k + 1..], c), SplitN(s[k + 1..], c, n - 1), n - 1, c);
    }
  }

  lemma SplitEnds(s: string, c: char, n: nat)
    requires n >= 1 && (FirstIndexOf(s, c) == |s| || n == 1)
    ensures SplitN(s, c, n) == [s]
    ensures if FirstIndexOf(s, c) == |s| then Split(s, c) == [s] else |Split(s, c)| > 1 && c in s
  {
    var k := FirstIndexOf(s, c);
    if k < |s| {
      assert s[k] in s;
      assert Split(s, c) == [s[..k]] + Split(s[k + 1..], c);
    }
  }

  lemma SplitBoth(s: string, c: char, n: nat)
    requires n >= 2 && FirstIndexOf(s, c) < |s|
    ensures var k := FirstIndexOf(s, c);
            && Split(s, c) == [s[..k]] + Split(s[k + 1..], c)
            && SplitN(s, c, n) == [s[..k]] + SplitN(s[k + 1..], c, n - 1)
  {
  }

  lemma SameHead(head: string, full: seq<string>, cut: seq<string>, n: nat, c: char)
    requires n >= 1 && (|full| <= n ==> cut == full) && (|full| > n ==> |cut| == n && c in cut[n - 1])
    ensures |[head] + full| <= n + 1 ==> [head] + cut == [head] + full
    ensures |[head] + full| > n + 1 ==> |[head] + cut| == n + 1 && c in ([head] + cut)[n]
  {
  }

  /** Cutting at the last separator is unambiguous. */
  lemma LastCut(x1: string, y1: string, x2: string, y2: string, c: char)
    requires Free(y1, c) && Free(y2, c)
    requires x1 + [c] + y1 == x2 + [c] + y2
    ensures x1 == x2 && y1 == y2
  {
    var s := x1 + [c] + y1;
    var t := x2 + [c] + y2;
    AfterCut(x1, y1, c);
    AfterCut(x2, y2, c);
    assert s[|x1|] == c && t[|x2|] == c;
    assert |x1| == |x2|;
    assert x1 == s[..|x1|] && x2 == t[..|x1|];
    assert y1 == s[|x1| + 1..] && y2 == t[|x1| + 1..];
  }

  lemma AfterCut(x: string, y: string, c: char)
    requires Free(y, c)
    ensures forall k :: |x| < k < |x + [c] + y| ==> (x + [c] + y)[k] != c
  {
    forall k | |x| < k < |x + [c] + y|
      ensures (x + [c] + y)[k] != c
    {
      assert (x + [c] + y)[k] == y[k - |x| - 1] && y[k - |x| - 1] in y;
    }
  }

  lemma {:induction false} JoinAppend(a: seq<string>, b: seq<string>, c: char)
    requires a != [] && b != []
    ensures Join(a + b, c) == Join(a, c) + [c] + Join(b, c)
    decreases |a|
  {
    if |a| == 1 {
      assert (a + b)[1..] == b;
    } else {
      assert (a + b)[1..] == a[1..] + b;
      JoinAppend(a[1..], b, c);
    }
  }

  // ---------------------------------------------------------------- letter case

  predicate IsUpper(c: char) {
    'A' <= c <= 'Z'
  }

  function LowerChar(c: char): char {
    if IsUpper(c) then (c as int + 32) as char else c
  }

  /** `to_ascii_lowercase`. */
  function Lower(s: string): (r: string)
    ensures |r| == |s| && forall k :: 0 <= k < |s| ==> r[k] == LowerChar(s[k])
  {
    seq(|s|, (k: nat) requires k < |s| => LowerChar(s[k]))
  }

  /** The same character, or an ASCII letter and its other case. */
  predicate SameLetter(a: char, b: char) {
    a == b || ('A' <= a <= 'Z' && b as int == a as int + 32) || ('A' <= b <= 'Z' && a as int == b as int + 32)
  }

  predicate SameUpToCase(a: string, b: string) {
    |a| == |b| && forall k :: 0 <= k < |a| ==> SameLetter(a[k], b[k])
  }

  /** `eq_ignore_ascii_case`: equal after lower-casing is equal but for the case of ASCII letters. */
  lemma LowerExactly(a: string, b: string)
    ensures Lower(a) == Lower(b) <==> SameUpToCase(a, b)
  {
    if Lower(a) == Lower(b) {
      forall k | 0 <= k < |a|
        ensures SameLetter(a[k], b[k])
      {
        assert Lower(a)[k] == Lower(b)[k];
      }
    }
  }

  // ---------------------------------------------------------------- path components

  /** The components `Path::components` keeps: empty and inner `.` segments vanish. */
  function Normal(parts: seq<string>): seq<string> {
    if parts == [] then []
    else (if parts[0] == "" || parts[0] == "." then [] else [parts[0]]) + Normal(parts[1..])
  }

  lemma {:induction false} NormalAppend(a: seq<string>, b: seq<string>)
    ensures Normal(a + b) == Normal(a) + Normal(b)
    decreases |a|
  {
    if a == [] {
      assert a + b == b;
    } else {
      assert (a + b)[1..] == a[1..] + b;
      NormalAppend(a[1..], b);
    }
  }

  lemma {:induction false} NormalKeeps(parts: seq<string>)
    requires "" !in parts && "." !in parts
    ensures Normal(parts) == parts
  {
    if parts != [] {
      NormalKeeps(parts[1..]);
      assert parts == [parts[0]] + parts[1..];
    }
  }
}
