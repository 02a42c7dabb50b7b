/** String operations shared by the server and the client: Python's `in` on
    strings, `str.split()` / `re.split` into non-empty tokens, and JavaScript's
    `Array.prototype.join` / `String.prototype.split` on one separator. */
module Strings {
  import opened Ascii

  predicate IsPrefix(p: string, s: string) {
    |p| <= |s| && s[..|p|] == p
  }

  /** Python's `w in d` for strings: `w` occurs at some offset of `d`. */
  predicate OccursIn(w: string, d: string) {
    exists k :: 0 <= k <= |d| && IsPrefix(w, d[k..])
  }

  /** The search that decides `w in d`, trying each offset from the left. */
  function Contains(w: string, d: string): (r: bool)
    ensures r <==> OccursIn(w, d)
    decreases |d|
  {
    if IsPrefix(w, d) then
      assert d[0..] == d;
      true
    else if d == [] then
      false
    else
      var r := Contains(w, d[1..]);
      assert forall k :: 1 <= k <= |d| ==> d[1..][k - 1..] == d[k..];
      r
  }

  /** `a` can be obtained from `b` by deleting characters. */
  predicate IsSubsequence(a: string, b: string)
    decreases |b|
  {
    if a == [] then true
    else if b == [] then false
    else if a[0] == b[0] then IsSubsequence(a[1..], b[1..])
    else IsSubsequence(a, b[1..])
  }

  lemma {:induction false} SubsequenceMultiset(a: string, b: string)
    requires IsSubsequence(a, b)
    ensures multiset(a) <= multiset(b)
    decreases |b|
  {
    if a == [] {
    } else if a[0] == b[0] {
      SubsequenceMultiset(a[1..], b[1..]);
      assert a == [a[0]] + a[1..];
      assert b == [b[0]] + b[1..];
    } else {
      SubsequenceMultiset(a, b[1..]);
      assert b == [b[0]] + b[1..];
    }
  }

  /** A subsequence of `b` is one of `x` followed by `b`. */
  lemma {:induction false} SubsequencePrepend(a: string, x: char, b: string)
    requires IsSubsequence(a, b)
    ensures IsSubsequence(a, [x] + b)
    decreases |b|, 1
  {
    assert ([x] + b)[1..] == b;
    if a != [] && a[0] == x {
      SubsequenceTail(a, b);
    }
  }

  /** Dropping the first character of a subsequence leaves a subsequence. */
  lemma {:induction false} SubsequenceTail(a: string, b: string)
    requires a != [] && IsSubsequence(a, b)
    ensures IsSubsequence(a[1..], b)
    decreases |b|, 0
  {
    if a[0] != b[0] {
      SubsequenceTail(a, b[1..]);
    }
    SubsequencePrepend(a[1..], b[0], b[1..]);
    assert [b[0]] + b[1..] == b;
  }

  /** A subsequence of a suffix of `b` is one of `b`. */
  lemma {:induction false} SubsequenceOfSuffix(a: string, b: string, k: nat)
    requires k <= |b| && IsSubsequence(a, b[k..])
    ensures IsSubsequence(a, b)
    decreases k
  {
    if k > 0 {
      assert b[1..][k - 1..] == b[k..];
      SubsequenceOfSuffix(a, b[1..], k - 1);
      SubsequencePrepend(a, b[0], b[1..]);
      assert [b[0]] + b[1..] == b;
    }
  }

  // ---------------------------------------------------------------------
  // Splitting into tokens

  /** The separators of `str.split()` (whitespace), or of the regex
      `[,\s]+` when `commas` is set. */
  predicate IsSep(c: char, commas: bool) {
    IsSpace(c) || (commas && c == ',')
  }

  predicate NoSep(s: string, commas: bool) {
    forall i :: 0 <= i < |s| ==> !IsSep(s[i], commas)
  }

  /** Length of the longest separator-free prefix of `s`. */
  function RunLength(s: string, commas: bool): (n: nat)
    ensures n <= |s|
    ensures NoSep(s[..n], commas)
    ensures n == |s| || IsSep(s[n], commas)
    decreases |s|
  {
    if s == [] || IsSep(s[0], commas) then 0
    else
      var m := RunLength(s[1..], commas);
      assert s[..m + 1] == [s[0]] + s[1..][..m];
      m + 1
  }

  lemma RunLengthUnique(s: string, commas: bool, k: nat)
    requires k <= |s| && NoSep(s[..k], commas)
    requires k == |s| || IsSep(s[k], commas)
    ensures RunLength(s, commas) == k
  {
  }

  /** The maximal non-empty separator-free pieces of `s`, in order: what
      `s.split()` returns, and what `re.split(r'[,\s]+', s)` returns once the
      empty pieces are dropped. */
  function Tokens(s: string, commas: bool): (r: seq<string>)
    ensures forall i :: 0 <= i < |r| ==> r[i] != [] && NoSep(r[i], commas)
    decreases |s|
  {
    if s == [] then []
    else if IsSep(s[0], commas) then Tokens(s[1..], commas)
    else
      var n := RunLength(s, commas);
      [s[..n]] + Tokens(s[n..], commas)
  }

  /** Tokens of a separator-free piece, a separator, and the rest. */
  lemma TokensCons(t: string, c: char, rest: string, commas: bool)
    requires NoSep(t, commas) && IsSep(c, commas)
    ensures Tokens(t + [c] + rest, commas)
         == (if t == [] then [] else [t]) + Tokens(rest, commas)
  {
    var s := t + [c] + rest;
    if t == [] {
      assert s[1..] == rest;
    } else {
      assert s[..|t|] == t;
      RunLengthUnique(s, commas, |t|);
      assert s[|t|..] == [c] + rest;
      assert ([c] + rest)[1..] == rest;
    }
  }

  lemma TokensSingle(t: string, commas: bool)
    requires NoSep(t, commas)
    ensures Tokens(t, commas) == if t == [] then [] else [t]
  {
    if t != [] {
      RunLengthUnique(t, commas, |t|);
      assert t[..|t|] == t;
      assert t[|t|..] == [];
    }
  }

  /** `ts[0] + cs[0] + ts[1] + cs[1] + ... + ts[n]`: pieces glued by single
      separator characters. */
  function Interleave(ts: seq<string>, cs: seq<char>): string
    requires |ts| >= 1 && |cs| == |ts| - 1
    decreases |ts|
  {
    if |ts| == 1 then ts[0]
    else ts[0] + [cs[0]] + Interleave(ts[1..], cs[1..])
  }

  function NonEmpty(ts: seq<string>): (r: seq<string>)
    ensures forall i :: 0 <= i < |r| ==> r[i] != []
  {
    if ts == [] then []
    else (if ts[0] == [] then [] else [ts[0]]) + NonEmpty(ts[1..])
  }

  /** Pieces that are all non-empty are kept as they are. */
  lemma {:induction false} NonEmptyKeepsAll(ts: seq<string>)
    requires forall i :: 0 <= i < |ts| ==> ts[i] != []
    ensures NonEmpty(ts) == ts
    decreases |ts|
  {
    if ts != [] {
      NonEmptyKeepsAll(ts[1..]);
      assert ts == [ts[0]] + ts[1..];
    }
  }

  /** Splitting recovers exactly the non-empty pieces, in order. */
  lemma {:induction false} TokensOfInterleave(ts: seq<string>, cs: seq<char>, commas: bool)
    requires |ts| >= 1 && |cs| == |ts| - 1
    requires forall i :: 0 <= i < |ts| ==> NoSep(ts[i], commas)
    requires forall i :: 0 <= i < |cs| ==> IsSep(cs[i], commas)
    ensures Tokens(Interleave(ts, cs), commas) == NonEmpty(ts)
    decreases |ts|
  {
    if |ts| == 1 {
      TokensSingle(ts[0], commas);
      assert ts[1..] == [];
    } else {
      TokensOfInterleave(ts[1..], cs[1..], commas);
      TokensCons(ts[0], cs[0], Interleave(ts[1..], cs[1..]), commas);
    }
  }

  // ---------------------------------------------------------------------
  // JavaScript join / split on one separator character

  /** `xs.join(sep)`. */
  function Join(xs: seq<string>, sep: char): string
    decreases |xs|
  {
    if xs == [] then []
    else if |xs| == 1 then xs[0]
    else xs[0] + [sep] + Join(xs[1..], sep)
  }

  /** Index of the first `c` in `s`, or `|s|` when there is none. */
  function IndexOf(s: string, c: char): (i: nat)
    ensures i <= |s|
    ensures i < |s| ==> s[i] == c
    ensures forall k :: 0 <= k < i ==> s[k] != c
  {
    if s == [] then 0
    else if s[0] == c then 0
    else IndexOf(s[1..], c) + 1
  }

  lemma {:induction false} IndexOfAfter(a: string, c: char, b: string)
    requires c !in a
    ensures IndexOf(a + [c] + b, c) == |a|
    decreases |a|
  {
    if a != [] {
      assert (a + [c] + b)[1..] == a[1..] + [c] + b;
      IndexOfAfter(a[1..], c, b);
    }
  }

  /** `s.split(sep)`: every piece between separators, empty ones included;
      never an empty list (`"".split(",")` is `[""]`). */
  function SplitOn(s: string, sep: char): (r: seq<string>)
    ensures |r| >= 1
    ensures forall i :: 0 <= i < |r| ==> sep !in r[i]
    decreases |s|
  {
    var i := IndexOf(s, sep);
    if i == |s| then [s]
    else [s[..i]] + SplitOn(s[i + 1..], sep)
  }

  /** Joining the pieces back gives the original string. */
  lemma {:induction false} JoinSplit(s: string, sep: char)
    ensures Join(SplitOn(s, sep), sep) == s
    decreases |s|
  {
    var i := IndexOf(s, sep);
    if i < |s| {
      var head := s[..i];
      var rest := s[i + 1..];
      assert SplitOn(s, sep) == [head] + SplitOn(rest, sep);
      JoinCons(head, SplitOn(rest, sep), sep);
      JoinSplit(rest, sep);
      Around(s, i);
    }
  }

  lemma ConsAssoc(a: string, c: char, b: string)
    ensures a + [c] + b == a + ([c] + b)
  {
  }

  /** A string is what lies before position `i`, the character there, and
      what follows. */
  lemma Around(s: string, i: nat)
    requires i < |s|
    ensures s == s[..i] + [s[i]] + s[i + 1..]
  {
  }

  lemma JoinCons(head: string, tail: seq<string>, sep: char)
    requires |tail| >= 1
    ensures Join([head] + tail, sep) == head + [sep] + Join(tail, sep)
  {
    assert ([head] + tail)[1..] == tail;
  }

  /** Splitting a join recovers a non-empty list whose items avoid the
      separator. */
  lemma SplitOnCons(a: string, sep: char, b: string)
    requires sep !in a
    ensures SplitOn(a + [sep] + b, sep) == [a] + SplitOn(b, sep)
  {
    var s := a + [sep] + b;
    IndexOfAfter(a, sep, b);
    assert s[..|a|] == a;
    assert s[|a| + 1..] == b;
  }

  lemma {:induction false} SplitJoin(xs: seq<string>, sep: char)
    requires |xs| >= 1
    requires forall i :: 0 <= i < |xs| ==> sep !in xs[i]
    ensures SplitOn(Join(xs, sep), sep) == xs
    decreases |xs|
  {
    if |xs| == 1 {
      assert IndexOf(xs[0], sep) == |xs[0]|;
    } else {
      var rest := Join(xs[1..], sep);
      assert Join(xs, sep) == xs[0] + [sep] + rest;
      SplitOnCons(xs[0], sep, rest);
      SplitJoin(xs[1..], sep);
      assert xs == [xs[0]] + xs[1..];
    }
  }
}
