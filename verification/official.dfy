/** `normalize_text` and `is_official_website` (server/main.py): a website
    counts as the business's own when a long enough word of the business name,
    reduced to `[a-z0-9]`, occurs in the reduced domain of the URL. */
module Official {
  import opened Ascii
  import opened Strings
  import opened Url

  predicate AllLowerAlnum(s: string) {
    forall i :: 0 <= i < |s| ==> IsLowerAlnum(s[i])
  }

  /** The characters of `s` in `[a-z0-9]`, in order; every such character
      is kept, as many times as it occurs. */
  function KeepLowerAlnum(s: string): (r: string)
    ensures AllLowerAlnum(r)
    ensures IsSubsequence(r, s)
    ensures forall c :: IsLowerAlnum(c) ==> multiset(r)[c] == multiset(s)[c]
    decreases |s|
  {
    if s == [] then []
    else
      var rest := KeepLowerAlnum(s[1..]);
      assert s == [s[0]] + s[1..];
      if IsLowerAlnum(s[0]) then [s[0]] + rest else rest
  }

  /** `normalize_text(text)`: lower the text, then delete every character
      outside `[a-z0-9]`. */
  function Normalize(text: string): (r: string)
    ensures AllLowerAlnum(r)
    ensures IsSubsequence(r, LowerStr(text))
    ensures forall c :: IsLowerAlnum(c) ==> multiset(r)[c] == multiset(LowerStr(text))[c]
  {
    KeepLowerAlnum(LowerStr(text))
  }

  /** The three facts `Normalize` promises pin its result down: any string
      of `[a-z0-9]` that is a subsequence of the lowered text and keeps every
      such character of it equals `Normalize(text)`. */
  lemma NormalizeUnique(text: string, r: string)
    requires AllLowerAlnum(r)
    requires IsSubsequence(r, LowerStr(text))
    requires forall c :: IsLowerAlnum(c) ==> multiset(r)[c] == multiset(LowerStr(text))[c]
    ensures r == Normalize(text)
  {
    KeepUnique(LowerStr(text), r);
  }

  lemma {:induction false} KeepUnique(t: string, r: string)
    requires AllLowerAlnum(r)
    requires IsSubsequence(r, t)
    requires forall c :: IsLowerAlnum(c) ==> multiset(r)[c] == multiset(t)[c]
    ensures r == KeepLowerAlnum(t)
    decreases |t|
  {
    if t == [] {
    } else {
      var x := t[0];
      var t' := t[1..];
      assert t == [x] + t';
      if !IsLowerAlnum(x) {
        assert r == [] || r[0] != x;
        assert forall c :: IsLowerAlnum(c) ==> multiset(t)[c] == multiset(t')[c];
        KeepUnique(t', r);
      } else {
        assert multiset(t)[x] >= 1;
        assert r != [];
        if r[0] == x {
          var r' := r[1..];
          assert r == [x] + r';
          assert forall c :: IsLowerAlnum(c) ==> multiset(r')[c] == multiset(t')[c];
          KeepUnique(t', r');
        } else {
          SubsequenceMultiset(r, t');
        }
      }
    }
  }

  /** Normalising an already normalised string changes nothing. */
  lemma NormalizeIdempotent(text: string)
    ensures Normalize(Normalize(text)) == Normalize(text)
  {
    var r := Normalize(text);
    LowerStrOfLower(r);
    KeepAllAlnum(r);
  }

  lemma {:induction false} KeepAllAlnum(s: string)
    requires AllLowerAlnum(s)
    ensures KeepLowerAlnum(s) == s
    decreases |s|
  {
    if s != [] {
      KeepAllAlnum(s[1..]);
      assert s == [s[0]] + s[1..];
    }
  }

  /** `len(w) > 3`: only such words of the name are compared. */
  predicate Qualifies(w: string) { |w| > 3 }

  /** `w` is compared, and its normalisation occurs in `domain`. */
  predicate WordOccurs(w: string, domain: string) {
    Qualifies(w) && OccursIn(Normalize(w), domain)
  }

  /** The loop of `is_official_website`: the first qualifying word whose
      normalisation occurs in `domain` answers true. */
  function AnyWordOccurs(words: seq<string>, domain: string): (r: bool)
    ensures r <==> exists i :: 0 <= i < |words| && WordOccurs(words[i], domain)
    decreases |words|
  {
    if words == [] then false
    else if Qualifies(words[0]) && Contains(Normalize(words[0]), domain) then true
    else
      var r := AnyWordOccurs(words[1..], domain);
      assert !WordOccurs(words[0], domain);
      assert forall i :: 1 <= i < |words| ==> words[1..][i - 1] == words[i];
      r
  }

  /** `is_official_website(business_name, website_url)`. */
  function IsOfficialWebsite(businessName: string, websiteUrl: string): (r: bool)
    ensures r <==> exists w :: w in Tokens(businessName, false)
                              && WordOccurs(w, Normalize(ExtractDomain(websiteUrl)))
  {
    var words := Tokens(businessName, false);
    var r := AnyWordOccurs(words, Normalize(ExtractDomain(websiteUrl)));
    assert forall w :: w in words <==> exists i :: 0 <= i < |words| && words[i] == w;
    r
  }

  /** A name none of whose words is longer than three characters never
      claims a website. */
  lemma ShortNamesNeverOfficial(businessName: string, websiteUrl: string)
    requires forall w :: w in Tokens(businessName, false) ==> |w| <= 3
    ensures !IsOfficialWebsite(businessName, websiteUrl)
  {
  }

  /** A qualifying word without letters or digits (say `----`) normalises to
      the empty string, which occurs in every domain. */
  lemma PunctuationWordAlwaysOfficial(businessName: string, websiteUrl: string, w: string)
    requires w in Tokens(businessName, false) && Qualifies(w)
    requires forall i :: 0 <= i < |w| ==> !IsLetter(w[i]) && !IsDigit(w[i])
    ensures IsOfficialWebsite(businessName, websiteUrl)
  {
    var n := Normalize(w);
    assert n == [];
    var d := Normalize(ExtractDomain(websiteUrl));
    assert IsPrefix(n, d[0..]);
  }

  /** One qualifying word of the name occurring in the domain is enough. */
  lemma WordInDomainIsOfficial(businessName: string, websiteUrl: string, w: string, k: nat)
    requires w in Tokens(businessName, false) && Qualifies(w)
    requires k <= |Normalize(ExtractDomain(websiteUrl))|
    requires IsPrefix(Normalize(w), Normalize(ExtractDomain(websiteUrl))[k..])
    ensures IsOfficialWebsite(businessName, websiteUrl)
  {
  }
}
