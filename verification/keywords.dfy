/** `parse_keywords` (server/main.py): delete the stop words matched by
    `\b(in|a|in italia)\b` (case-insensitive), then split on runs of commas
    and whitespace and keep the non-empty pieces. */
module Keywords {
  import opened Ascii
  import opened Strings

  /** `\b` just after a match of length `k` at the start of `s`, whose last
      character is a word character: the next character is not one. */
  predicate BoundaryAfter(s: string, k: nat)
    requires k <= |s|
  {
    k == |s| || !IsWordChar(s[k])
  }

  /** `s` starts with the lower-case literal `lit`, ignoring case. */
  predicate StartsCi(s: string, lit: string) {
    |lit| <= |s| && forall i :: 0 <= i < |lit| ==> Lower(s[i]) == lit[i]
  }

  predicate StartsIn(s: string) {
    |s| >= 2 && Lower(s[0]) == 'i' && Lower(s[1]) == 'n'
  }

  predicate StartsA(s: string) {
    |s| >= 1 && Lower(s[0]) == 'a'
  }

  /** Length of the match of `\b(in|a|in italia)\b` at the start of `s`, or 0
      when none matches. `afterWord` tells whether the character before `s`
      in the original text is a word character; every alternative starts with
      a word character, so the leading `\b` holds exactly when it is not.
      The alternatives are tried in order, so `in italia` is never the match:
      wherever it could match, `in` already has. */
  function StopWordAt(s: string, afterWord: bool): (k: nat)
    ensures k <= |s|
    ensures k == 0 || k == 1 || k == 2
  {
    if afterWord then 0
    else if StartsIn(s) && BoundaryAfter(s, 2) then 2
    else if StartsA(s) && BoundaryAfter(s, 1) then 1
    else if StartsCi(s, "in italia") && BoundaryAfter(s, 9) then 9
    else 0
  }

  /** `re.sub(r'\b(in|a|in italia)\b', '', s, flags=re.IGNORECASE)`: scan from
      the left, deleting each match and copying every other character. Word
      boundaries are judged on the original text, hence the `afterWord` flag
      that travels with the scan. */
  function RemoveStopWords(s: string, afterWord: bool): (r: string)
    ensures |r| <= |s|
    decreases |s|
  {
    if s == [] then []
    else
      var k := StopWordAt(s, afterWord);
      if k > 0 then RemoveStopWords(s[k..], true)
      else [s[0]] + RemoveStopWords(s[1..], IsWordChar(s[0]))
  }

  /** Stop words are deleted and nothing is inserted or reordered: the
      result is a subsequence of the text. */
  lemma {:induction false} RemoveStopWordsDeletes(s: string, afterWord: bool)
    ensures IsSubsequence(RemoveStopWords(s, afterWord), s)
    decreases |s|
  {
    if s != [] {
      var k := StopWordAt(s, afterWord);
      if k > 0 {
        RemoveStopWordsDeletes(s[k..], true);
        SubsequenceOfSuffix(RemoveStopWords(s, afterWord), s, k);
      } else {
        var rest := RemoveStopWords(s[1..], IsWordChar(s[0]));
        RemoveStopWordsDeletes(s[1..], IsWordChar(s[0]));
        assert ([s[0]] + rest)[1..] == rest;
      }
    }
  }

  /** `parse_keywords(keywords_input)`. The pieces of `re.split(r'[,\s]+', …)`
      hold no whitespace, so `k.strip()` is `k` and the filter keeps exactly
      the non-empty pieces. */
  function ParseKeywords(input: string): (r: seq<string>)
    ensures forall i :: 0 <= i < |r| ==> r[i] != []
    ensures forall i :: 0 <= i < |r| ==> NoSep(r[i], true)
  {
    Tokens(RemoveStopWords(input, false), true)
  }

  // ---------------------------------------------------------------------
  // Keywords built from word tokens

  predicate IsWord(t: string) {
    forall i :: 0 <= i < |t| ==> IsWordChar(t[i])
  }

  /** A standalone `in` or `a`, in any case. */
  predicate IsStopWord(t: string) {
    (|t| == 2 && StartsIn(t)) || (|t| == 1 && StartsA(t))
  }

  function DropStopWords(ts: seq<string>): (r: seq<string>)
    ensures |r| <= |ts|
  {
    if ts == [] then []
    else (if IsStopWord(ts[0]) then [] else [ts[0]]) + DropStopWords(ts[1..])
  }

  function BlankStopWords(ts: seq<string>): (r: seq<string>)
    ensures |r| == |ts|
    ensures forall i :: 0 <= i < |ts| ==> r[i] == if IsStopWord(ts[i]) then [] else ts[i]
  {
    seq(|ts|, i requires 0 <= i < |ts| => if IsStopWord(ts[i]) then [] else ts[i])
  }

  /** Inside a word, once past its first character, nothing matches. */
  lemma {:induction false} CopyWordTail(t: string, x: string)
    requires IsWord(t)
    ensures RemoveStopWords(t + x, true) == t + RemoveStopWords(x, true)
    decreases |t|
  {
    if t == [] {
      assert t + x == x;
    } else {
      var s := t + x;
      var s' := t[1..] + x;
      assert s[0] == t[0] && s[1..] == s';
      assert RemoveStopWords(s, true) == [t[0]] + RemoveStopWords(s', true);
      CopyWordTail(t[1..], x);
      assert t == [t[0]] + t[1..];
    }
  }

  /** At the start of a whole word, the match is the word itself when it is
      a stop word, and there is none otherwise. */
  lemma StopWordAtWord(t: string, x: string)
    requires t != [] && IsWord(t)
    requires x == [] || !IsWordChar(x[0])
    ensures StopWordAt(t + x, false) == if IsStopWord(t) then |t| else 0
  {
    var s := t + x;
    assert s[0] == t[0];
    if |t| == 1 {
      assert BoundaryAfter(s, 1);
      assert |s| >= 2 ==> s[1] == x[0];
    } else if |t| == 2 {
      assert s[1] == t[1];
      assert BoundaryAfter(s, 2);
    } else {
      assert s[1] == t[1] && s[2] == t[2];
      assert !BoundaryAfter(s, 2);
      assert !BoundaryAfter(s, 1);
    }
  }

  /** A word that starts the text or follows a non-word character, and is
      followed by the end or a non-word character, is deleted when it is a
      stop word and copied otherwise. */
  lemma RemoveStopWordsWord(t: string, x: string)
    requires t != [] && IsWord(t)
    requires x == [] || !IsWordChar(x[0])
    ensures RemoveStopWords(t + x, false)
         == (if IsStopWord(t) then [] else t) + RemoveStopWords(x, true)
  {
    var s := t + x;
    StopWordAtWord(t, x);
    if IsStopWord(t) {
      assert s[|t|..] == x;
      assert RemoveStopWords(s, false) == RemoveStopWords(x, true);
    } else {
      var s' := t[1..] + x;
      assert s[0] == t[0] && s[1..] == s';
      assert RemoveStopWords(s, false) == [t[0]] + RemoveStopWords(s', true);
      CopyWordTail(t[1..], x);
      assert t == [t[0]] + t[1..];
    }
  }

  /** A non-word character, after a word or not, is never part of a match:
      it is copied, and the scan goes on with no word character before it. */
  lemma RemoveStopWordsSep(c: char, rest: string, afterWord: bool)
    requires !IsWordChar(c)
    ensures RemoveStopWords([c] + rest, afterWord) == [c] + RemoveStopWords(rest, false)
  {
    assert ([c] + rest)[1..] == rest;
    assert StopWordAt([c] + rest, afterWord) == 0;
  }

  /** One word, possibly empty, the separator after it, and the rest of the
      text. */
  lemma RemoveStopWordsCons(t: string, c: char, rest: string)
    requires IsWord(t) && IsSep(c, true)
    ensures RemoveStopWords(t + [c] + rest, false)
         == (if IsStopWord(t) then [] else t) + [c] + RemoveStopWords(rest, false)
  {
    if t == [] {
      assert t + [c] + rest == [c] + rest;
      RemoveStopWordsSep(c, rest, false);
    } else {
      RemoveStopWordsWordSep(t, c, rest);
    }
  }

  lemma RemoveStopWordsWordSep(t: string, c: char, rest: string)
    requires t != [] && IsWord(t) && IsSep(c, true)
    ensures RemoveStopWords(t + [c] + rest, false)
         == (if IsStopWord(t) then [] else t) + [c] + RemoveStopWords(rest, false)
  {
    var w := if IsStopWord(t) then [] else t;
    assert !IsWordChar(c);
    ConsAssoc(t, c, rest);
    RemoveStopWordsWord(t, [c] + rest);
    RemoveStopWordsSep(c, rest, true);
    ConsAssoc(w, c, RemoveStopWords(rest, false));
  }

  lemma {:induction false} RemoveStopWordsInterleave(ts: seq<string>, cs: seq<char>)
    requires |ts| >= 1 && |cs| == |ts| - 1
    requires forall i :: 0 <= i < |ts| ==> IsWord(ts[i])
    requires forall i :: 0 <= i < |cs| ==> IsSep(cs[i], true)
    ensures RemoveStopWords(Interleave(ts, cs), false) == Interleave(BlankStopWords(ts), cs)
    decreases |ts|
  {
    var bs := BlankStopWords(ts);
    if |ts| == 1 {
      if ts[0] != [] {
        RemoveStopWordsWord(ts[0], []);
        assert ts[0] + [] == ts[0];
      }
    } else {
      RemoveStopWordsCons(ts[0], cs[0], Interleave(ts[1..], cs[1..]));
      RemoveStopWordsInterleave(ts[1..], cs[1..]);
      assert BlankStopWords(ts[1..]) == bs[1..];
    }
  }

  lemma {:induction false} NonEmptyBlank(ts: seq<string>)
    ensures NonEmpty(BlankStopWords(ts)) == DropStopWords(NonEmpty(ts))
    decreases |ts|
  {
    if ts != [] {
      var bs := BlankStopWords(ts);
      NonEmptyBlank(ts[1..]);
      assert BlankStopWords(ts[1..]) == bs[1..];
      var tail := DropStopWords(NonEmpty(ts[1..]));
      assert NonEmpty(bs) == (if bs[0] == [] then [] else [bs[0]]) + tail;
      if ts[0] != [] {
        var ks := [ts[0]] + NonEmpty(ts[1..]);
        assert NonEmpty(ts) == ks;
        assert ks[0] == ts[0] && ks[1..] == NonEmpty(ts[1..]);
        assert DropStopWords(ks) == (if IsStopWord(ts[0]) then [] else [ts[0]]) + tail;
        assert bs[0] == [] <==> IsStopWord(ts[0]);
      } else {
        assert NonEmpty(ts) == NonEmpty(ts[1..]);
        assert bs[0] == [];
      }
    }
  }

  /** Any text of word characters, commas and whitespace is words, possibly
      empty, glued by single separator characters; runs of separators and
      leading or trailing ones give empty words. `parse_keywords` keeps the
      non-empty words, minus those equal to `in` or `a` in any case, in
      order. */
  lemma ParseKeywordsOfWords(ts: seq<string>, cs: seq<char>)
    requires |ts| >= 1 && |cs| == |ts| - 1
    requires forall i :: 0 <= i < |ts| ==> IsWord(ts[i])
    requires forall i :: 0 <= i < |cs| ==> IsSep(cs[i], true)
    ensures ParseKeywords(Interleave(ts, cs)) == DropStopWords(NonEmpty(ts))
  {
    RemoveStopWordsInterleave(ts, cs);
    var bs := BlankStopWords(ts);
    forall i | 0 <= i < |bs|
      ensures NoSep(bs[i], true)
    {
      assert IsWord(ts[i]);
    }
    TokensOfInterleave(bs, cs, true);
    NonEmptyBlank(ts);
  }

  /** `ristoranti in italia` keeps `italia`: the `in italia` alternative never
      fires because `in` is tried first. */
  lemma InItaliaKeepsItalia(input: string)
    requires input == "ristoranti in italia"
    ensures ParseKeywords(input) == ["ristoranti", "italia"]
  {
    var ts := ["ristoranti", "in", "italia"];
    var cs := "  ";
    InItaliaWords(ts, cs, input);
    ParseKeywordsOfWords(ts, cs);
    NonEmptyKeepsAll(ts);
    InItaliaDrop(ts);
  }

  /** The example is three words separated by single spaces. */
  lemma InItaliaWords(ts: seq<string>, cs: string, input: string)
    requires ts == ["ristoranti", "in", "italia"] && cs == "  "
    requires input == "ristoranti in italia"
    ensures |ts| >= 1 && |cs| == |ts| - 1
    ensures forall i :: 0 <= i < |ts| ==> ts[i] != [] && IsWord(ts[i])
    ensures forall i :: 0 <= i < |cs| ==> IsSep(cs[i], true)
    ensures Interleave(ts, cs) == input
  {
    assert IsWord(ts[0]) && IsWord(ts[1]) && IsWord(ts[2]);
    assert IsSep(cs[0], true) && IsSep(cs[1], true);
    assert Interleave(ts[1..], cs[1..]) == "in italia" by {
      assert Interleave(ts[2..], cs[2..]) == "italia";
    }
  }

  /** Of the three words only `in` is a stop word. */
  lemma InItaliaDrop(ts: seq<string>)
    requires ts == ["ristoranti", "in", "italia"]
    ensures DropStopWords(ts) == ["ristoranti", "italia"]
  {
    assert DropStopWords(ts[2..]) == ["italia"];
    assert DropStopWords(ts[1..]) == ["italia"];
  }

  /** A comma followed by a space is one separator run, so `pizzerie,
      ristoranti` gives the two keywords and no empty one between them. */
  lemma CommaSpaceKeywords(input: string)
    requires input == "pizzerie, ristoranti"
    ensures ParseKeywords(input) == ["pizzerie", "ristoranti"]
  {
    var ts := ["pizzerie", "", "ristoranti"];
    var cs := ", ";
    CommaSpaceWords(ts, cs, input);
    ParseKeywordsOfWords(ts, cs);
    CommaSpaceDrop(ts);
  }

  /** The example is two words and the empty word between `,` and ` `. */
  lemma CommaSpaceWords(ts: seq<string>, cs: string, input: string)
    requires ts == ["pizzerie", "", "ristoranti"] && cs == ", "
    requires input == "pizzerie, ristoranti"
    ensures |ts| >= 1 && |cs| == |ts| - 1
    ensures forall i :: 0 <= i < |ts| ==> IsWord(ts[i])
    ensures forall i :: 0 <= i < |cs| ==> IsSep(cs[i], true)
    ensures Interleave(ts, cs) == input
  {
    assert IsWord(ts[0]) && IsWord(ts[1]) && IsWord(ts[2]);
    assert IsSep(cs[0], true) && IsSep(cs[1], true);
    assert Interleave(ts[1..], cs[1..]) == " ristoranti" by {
      assert Interleave(ts[2..], cs[2..]) == "ristoranti";
    }
  }

  /** The empty word is dropped and neither name is a stop word. */
  lemma CommaSpaceDrop(ts: seq<string>)
    requires ts == ["pizzerie", "", "ristoranti"]
    ensures DropStopWords(NonEmpty(ts)) == ["pizzerie", "ristoranti"]
  {
    assert NonEmpty(ts[2..]) == ["ristoranti"];
    assert NonEmpty(ts[1..]) == ["ristoranti"];
    var ks := NonEmpty(ts);
    assert ks == ["pizzerie", "ristoranti"];
    assert DropStopWords(ks[1..]) == ["ristoranti"];
  }
}
