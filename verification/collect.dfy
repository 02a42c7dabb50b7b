/** The collection loop of the `/imprese-senza-sito` route (server/main.py):
    walk the keywords and their result pages, drop every business whose
    website is its own, and collect at most `target` records, each with the
    message generated for it.

    The three remote services are parameters: the Google Maps search (one page
    of businesses and the next page token per query, location and token), the
    website lookup `check_website_presence` (per business), and the message
    generator (per business name). `asyncio.gather` over the generator is an
    order-preserving map. Everything up to `ImpreseSenzaSito` takes the website
    test as a parameter `official`; `ImpreseSenzaSito` supplies
    `IsOfficialWebsite`. */
module Collect {
  import opened Options
  import opened Official
  import opened Keywords

  /** One entry of the search's `local_results`, with the website it lists,
      if any, which `check_website_presence` reads first. */
  datatype Business = Business(
    title: string,
    website: Option<string>,
    phone: Option<string>,
    email: Option<string>,
    address: Option<string>,
    locality: Option<string>,
    region: Option<string>,
    postalCode: Option<string>,
    country: Option<string>)

  /** One result page: its businesses and `next_page_token`. */
  datatype Page = Page(businesses: seq<Business>, next: Option<string>)

  datatype Oracles = Oracles(
    search: (string, string, Option<string>) -> Page,
    website: Business -> Option<string>,
    message: string -> string)

  /** A business that survived the website test, with the website found. */
  datatype Candidate = Candidate(business: Business, website: Option<string>)

  /** One record of the response. */
  datatype Lead = Lead(
    nome: string,
    sito: Option<string>,
    telefono: Option<string>,
    email: Option<string>,
    indirizzo: Option<string>,
    citta: Option<string>,
    regione: Option<string>,
    cap: Option<string>,
    paese: Option<string>,
    messaggio: string)

  /** Python truthiness of an optional string: present and non-empty. */
  predicate Truthy(s: Option<string>) { s.Some? && s.value != "" }

  /** A test of a website URL against a business name. The route uses
      `is_official_website`; the loop and its proofs are stated for any test
      and do not look inside it. */
  type WebsiteTest = (string, string) -> bool

  /** The business has a website and `official` says it is its own. */
  predicate HasOfficialSite(official: WebsiteTest, name: string, website: Option<string>) {
    Truthy(website) && official(name, website.value)
  }

  function FullQuery(keyword: string, citta: string, paese: string): string {
    keyword + " a " + citta + " in " + paese
  }

  function Location(citta: string, paese: string): string {
    citta + ", " + paese
  }

  function ToLead(c: Candidate, message: string): (l: Lead)
    ensures l.nome == c.business.title && l.sito == c.website && l.messaggio == message
  {
    var b := c.business;
    Lead(b.title, c.website, b.phone, b.email, b.address, b.locality, b.region,
         b.postalCode, b.country, message)
  }

  /** What one business contributes: nothing when its website is its own,
      otherwise itself with the website found. */
  function Kept(o: Oracles, official: WebsiteTest, b: Business): seq<Candidate> {
    var w := o.website(b);
    if HasOfficialSite(official, b.title, w) then [] else [Candidate(b, w)]
  }

  /** The candidates among `bs`, in order: each carries the website found
      for it, and that website is not its own. */
  function CandidatesOf(o: Oracles, official: WebsiteTest, bs: seq<Business>): (cs: seq<Candidate>)
    ensures |cs| <= |bs|
    ensures forall c :: c in cs ==> c.website == o.website(c.business)
                                    && !HasOfficialSite(official, c.business.title, c.website)
    decreases |bs|
  {
    if bs == [] then []
    else CandidatesOf(o, official, bs[..|bs| - 1]) + Kept(o, official, bs[|bs| - 1])
  }

  /** The records for `cs`, each with the message generated for its name. */
  function WithMessages(o: Oracles, cs: seq<Candidate>): (ls: seq<Lead>)
    ensures |ls| == |cs|
    ensures forall i :: 0 <= i < |cs| ==> ls[i] == ToLead(cs[i], o.message(cs[i].business.title))
  {
    seq(|cs|, i requires 0 <= i < |cs| => ToLead(cs[i], o.message(cs[i].business.title)))
  }

  /** Every record the businesses `bs` would give, in order. */
  function LeadsOf(o: Oracles, official: WebsiteTest, bs: seq<Business>): seq<Lead> {
    WithMessages(o, CandidatesOf(o, official, bs))
  }

  /** The records a finished search may return: no website, or one that is
      not the business's own, and the message generated for that name. */
  predicate Collectable(o: Oracles, official: WebsiteTest, l: Lead) {
    !HasOfficialSite(official, l.nome, l.sito) && l.messaggio == o.message(l.nome)
  }

  /** A candidate is exactly a business of `bs`, with the website found for
      it, that is not its own. */
  lemma {:induction false} CandidatesOfMembers(o: Oracles, official: WebsiteTest, bs: seq<Business>, c: Candidate)
    ensures c in CandidatesOf(o, official, bs)
        <==> c.business in bs && c.website == o.website(c.business)
             && !HasOfficialSite(official, c.business.title, c.website)
    decreases |bs|
  {
    if bs != [] {
      var bs' := bs[..|bs| - 1];
      var last := bs[|bs| - 1];
      assert bs == bs' + [last];
      CandidatesOfMembers(o, official, bs', c);
      assert c.business in bs <==> c.business in bs' || c.business == last;
    }
  }

  lemma LeadsOfCollectable(o: Oracles, official: WebsiteTest, bs: seq<Business>)
    ensures forall i :: 0 <= i < |LeadsOf(o, official, bs)| ==> Collectable(o, official, LeadsOf(o, official, bs)[i])
  {
    var cs := CandidatesOf(o, official, bs);
    forall i | 0 <= i < |cs|
      ensures Collectable(o, official, LeadsOf(o, official, bs)[i])
    {
      CandidatesOfMembers(o, official, bs, cs[i]);
    }
  }

  lemma CandidatesOfSnoc(o: Oracles, official: WebsiteTest, bs: seq<Business>, b: Business)
    ensures CandidatesOf(o, official, bs + [b]) == CandidatesOf(o, official, bs) + Kept(o, official, b)
  {
    assert (bs + [b])[..|bs|] == bs;
  }

  lemma {:induction false} CandidatesOfAppend(o: Oracles, official: WebsiteTest, a: seq<Business>, b: seq<Business>)
    ensures CandidatesOf(o, official, a + b) == CandidatesOf(o, official, a) + CandidatesOf(o, official, b)
    decreases |b|
  {
    if b == [] {
      assert a + b == a;
    } else {
      var b' := b[..|b| - 1];
      var last := b[|b| - 1];
      calc {
        CandidatesOf(o, official, a + b);
        { assert a + b == (a + b') + [last]; }
        CandidatesOf(o, official, (a + b') + [last]);
        { CandidatesOfSnoc(o, official, a + b', last); }
        CandidatesOf(o, official, a + b') + Kept(o, official, last);
        { CandidatesOfAppend(o, official, a, b'); }
        CandidatesOf(o, official, a) + CandidatesOf(o, official, b') + Kept(o, official, last);
        { CandidatesOfSnoc(o, official, b', last); assert b == b' + [last]; }
        CandidatesOf(o, official, a) + CandidatesOf(o, official, b);
      }
    }
  }

  lemma LeadsOfAppend(o: Oracles, official: WebsiteTest, a: seq<Business>, b: seq<Business>)
    ensures LeadsOf(o, official, a + b) == LeadsOf(o, official, a) + LeadsOf(o, official, b)
  {
    CandidatesOfAppend(o, official, a, b);
    WithMessagesAppend(o, CandidatesOf(o, official, a), CandidatesOf(o, official, b));
  }

  lemma WithMessagesAppend(o: Oracles, x: seq<Candidate>, y: seq<Candidate>)
    ensures WithMessages(o, x + y) == WithMessages(o, x) + WithMessages(o, y)
  {
  }

  /** The first `n` items of `s`; none when `n <= 0`. */
  function Take<T>(s: seq<T>, n: int): (r: seq<T>)
    ensures |r| == if n <= 0 then 0 else if n < |s| then n else |s|
    ensures forall i :: 0 <= i < |r| ==> r[i] == s[i]
  {
    if n <= 0 then [] else if n < |s| then s[..n] else s
  }

  lemma TakeAppendShort<T>(a: seq<T>, b: seq<T>, n: int)
    requires |a| < n
    ensures Take(a + b, n) == a + Take(b, n - |a|)
  {
  }

  lemma TakeAppendLong<T>(a: seq<T>, b: seq<T>, n: int)
    requires |a| >= n
    ensures Take(a + b, n) == Take(a, n)
  {
  }

  // ---------------------------------------------------------------------
  // The page stream

  /** Where the loop goes after a page: the next keyword, with no token, when
      the page was empty or had no next page; otherwise the same keyword with
      the page's token. */
  function NextIndex(page: Page, index: nat): nat {
    if page.businesses == [] || !Truthy(page.next) then index + 1 else index
  }

  function NextToken(page: Page): Option<string> {
    if page.businesses == [] || !Truthy(page.next) then None else page.next
  }

  /** Every business of every page the loop fetches from keyword `index` and
      page token `token` on, if it never reached its target, in fetch order.
      `fuel` bounds the number of searches. */
  function Fetched(o: Oracles, keywords: seq<string>, citta: string, paese: string,
                   index: nat, token: Option<string>, fuel: nat): seq<Business>
    decreases fuel
  {
    if fuel == 0 || index >= |keywords| then []
    else
      var page := o.search(FullQuery(keywords[index], citta, paese), Location(citta, paese), token);
      page.businesses
        + Fetched(o, keywords, citta, paese, NextIndex(page, index), NextToken(page), fuel - 1)
  }

  /** No keyword or no fuel left: no more pages. */
  lemma FetchedEnd(o: Oracles, keywords: seq<string>, citta: string, paese: string,
                   index: nat, token: Option<string>, fuel: nat)
    requires fuel == 0 || index >= |keywords|
    ensures Fetched(o, keywords, citta, paese, index, token, fuel) == []
  {
  }

  /** One search: the page's businesses come next in the stream, so moving
      them from the stream onto what was fetched before keeps the whole. */
  lemma FetchedStep(o: Oracles, keywords: seq<string>, citta: string, paese: string,
                    index: nat, token: Option<string>, fuel: nat, page: Page, before: seq<Business>)
    requires fuel > 0 && index < |keywords|
    requires page == o.search(FullQuery(keywords[index], citta, paese), Location(citta, paese), token)
    ensures before + Fetched(o, keywords, citta, paese, index, token, fuel)
            == (before + page.businesses) + Fetched(o, keywords, citta, paese, NextIndex(page, index), NextToken(page), fuel - 1)
  {
    var rest := Fetched(o, keywords, citta, paese, NextIndex(page, index), NextToken(page), fuel - 1);
    assert Fetched(o, keywords, citta, paese, index, token, fuel) == page.businesses + rest;
    assert before + (page.businesses + rest) == (before + page.businesses) + rest;
  }

  /** Once `target` records are in, later pages change nothing. */
  lemma TakeDone(o: Oracles, official: WebsiteTest, fetched: seq<Business>, rest: seq<Business>, target: int)
    requires |Take(LeadsOf(o, official, fetched), target)| >= target
    ensures Take(LeadsOf(o, official, fetched + rest), target) == Take(LeadsOf(o, official, fetched), target)
  {
    LeadsOfAppend(o, official, fetched, rest);
    TakeAppendLong(LeadsOf(o, official, fetched), LeadsOf(o, official, rest), target);
  }

  /** The loop's state after the pages `fetched`: `found` counts the records,
      which are the first `target` those pages give, and all of them while
      fewer than `target`. */
  predicate Collected(o: Oracles, official: WebsiteTest, fetched: seq<Business>, leads: seq<Lead>, found: int, target: int) {
    && found == |leads|
    && leads == Take(LeadsOf(o, official, fetched), target)
    && (found < target ==> leads == LeadsOf(o, official, fetched))
  }

  /** One page's records, appended while fewer than `target` are in, keep
      the loop's state in step with the pages fetched. */
  lemma CollectedStep(o: Oracles, official: WebsiteTest, fetched: seq<Business>, businesses: seq<Business>,
                      leads: seq<Lead>, found: int, leads': seq<Lead>, found': int, target: int)
    requires found < target && Collected(o, official, fetched, leads, found, target)
    requires found' == |leads'| && leads' == leads + Take(LeadsOf(o, official, businesses), target - found)
    ensures Collected(o, official, fetched + businesses, leads', found', target)
  {
    LeadsOfAppend(o, official, fetched, businesses);
    TakeAppendShort(LeadsOf(o, official, fetched), LeadsOf(o, official, businesses), target);
  }

  /** Before any page, nothing is collected. */
  lemma CollectedStart(o: Oracles, official: WebsiteTest, target: int)
    ensures Collected(o, official, [], [], 0, target)
  {
  }

  /** When the loop stops, either `target` records are in or no page is left. */
  lemma CollectedDone(o: Oracles, official: WebsiteTest, fetched: seq<Business>, rest: seq<Business>,
                      leads: seq<Lead>, found: int, target: int)
    requires Collected(o, official, fetched, leads, found, target)
    requires found >= target || rest == []
    ensures leads == Take(LeadsOf(o, official, fetched + rest), target)
  {
    if found >= target {
      TakeDone(o, official, fetched, rest, target);
    } else {
      assert fetched + rest == fetched;
    }
  }

  /** When the search loop stops, its records are the first `target` of
      everything fetched and everything still to come. */
  lemma SearchDone(o: Oracles, official: WebsiteTest, keywords: seq<string>, citta: string, paese: string,
                   index: nat, token: Option<string>, fuel: nat,
                   fetched: seq<Business>, leads: seq<Lead>, found: int, target: int)
    requires Collected(o, official, fetched, leads, found, target)
    requires !(found < target && index < |keywords| && fuel > 0)
    ensures leads == Take(LeadsOf(o, official, fetched + Fetched(o, keywords, citta, paese, index, token, fuel)), target)
  {
    if found < target {
      FetchedEnd(o, keywords, citta, paese, index, token, fuel);
    }
    CollectedDone(o, official, fetched, Fetched(o, keywords, citta, paese, index, token, fuel), leads, found, target);
  }

  lemma TakeCollectable(o: Oracles, official: WebsiteTest, bs: seq<Business>, target: int)
    ensures forall i :: 0 <= i < |Take(LeadsOf(o, official, bs), target)| ==> Collectable(o, official, Take(LeadsOf(o, official, bs), target)[i])
  {
    LeadsOfCollectable(o, official, bs);
  }

  // ---------------------------------------------------------------------
  // The loop

  /** The candidate loop: test every business of the page, in order. The
      `found >= target` exit never fires, since `found` does not change here
      and the page is only fetched while `found < target`. */
  method SelectCandidates(o: Oracles, official: WebsiteTest, businesses: seq<Business>, found: int, target: int)
    returns (candidates: seq<Candidate>)
    requires found < target
    ensures candidates == CandidatesOf(o, official, businesses)
  {
    candidates := [];
    var i := 0;
    while i < |businesses|
      invariant 0 <= i <= |businesses|
      invariant candidates == CandidatesOf(o, official, businesses[..i])
    {
      if found >= target {
        break;
      }
      var business := businesses[i];
      var name := business.title;
      var website := o.website(business);
      assert businesses[..i + 1][..i] == businesses[..i];
      if Truthy(website) && official(name, website.value) {
        i := i + 1;
        continue;
      }
      candidates := candidates + [Candidate(business, website)];
      i := i + 1;
    }
    assert businesses[..i] == businesses;
  }

  /** The append loop: records are added in candidate order while fewer than
      `target` have been found. */
  method AppendLeads(o: Oracles, leads: seq<Lead>, found: int, target: int,
                     candidates: seq<Candidate>, messages: seq<string>)
    returns (leads': seq<Lead>, found': int)
    requires found == |leads| < target
    requires |messages| == |candidates|
    requires forall i :: 0 <= i < |candidates| ==> messages[i] == o.message(candidates[i].business.title)
    ensures found' == |leads'| <= target
    ensures leads' == leads + Take(WithMessages(o, candidates), target - found)
  {
    leads' := leads;
    found' := found;
    var all := WithMessages(o, candidates);
    var i := 0;
    while i < |candidates|
      invariant 0 <= i <= |candidates|
      invariant found' == |leads'| == found + i <= target
      invariant leads' == leads + all[..i]
    {
      if found' >= target {
        break;
      }
      var message := messages[i];
      leads' := leads' + [ToLead(candidates[i], message)];
      found' := found' + 1;
      assert all[..i + 1] == all[..i] + [all[i]];
      i := i + 1;
    }
    assert all[..i] == Take(all, target - found);
  }

  /** One non-empty page: select its candidates, generate their messages in
      candidate order, and append records while fewer than `target` are in. */
  method CollectPage(o: Oracles, official: WebsiteTest, businesses: seq<Business>, leads: seq<Lead>, found: int, target: int)
    returns (leads': seq<Lead>, found': int)
    requires found == |leads| < target
    ensures found' == |leads'| <= target
    ensures leads' == leads + Take(LeadsOf(o, official, businesses), target - found)
  {
    var candidates := SelectCandidates(o, official, businesses, found, target);
    var messages := seq(|candidates|, i requires 0 <= i < |candidates| => o.message(candidates[i].business.title));
    leads', found' := AppendLeads(o, leads, found, target, candidates, messages);
  }

  /** One pass of the search loop: fetch the page for the current keyword
      and token, collect its records, and move to the next page or keyword.
      `fetched` holds every business fetched before this pass. */
  method SearchStep(o: Oracles, official: WebsiteTest, keywordList: seq<string>, citta: string, paese: string,
                    keywordIndex: nat, nextPageToken: Option<string>,
                    leads: seq<Lead>, found: int, target: int,
                    ghost all: seq<Business>, ghost fetched: seq<Business>, ghost fuel: nat)
    returns (leads': seq<Lead>, found': int, keywordIndex': nat, nextPageToken': Option<string>,
             ghost fetched': seq<Business>)
    requires keywordIndex < |keywordList| && fuel > 0
    requires found < target && Collected(o, official, fetched, leads, found, target)
    requires all == fetched + Fetched(o, keywordList, citta, paese, keywordIndex, nextPageToken, fuel)
    ensures var page := o.search(FullQuery(keywordList[keywordIndex], citta, paese), Location(citta, paese), nextPageToken);
            keywordIndex' == NextIndex(page, keywordIndex) && nextPageToken' == NextToken(page)
    ensures all == fetched' + Fetched(o, keywordList, citta, paese, keywordIndex', nextPageToken', fuel - 1)
    ensures Collected(o, official, fetched', leads', found', target)
  {
    var currentKeyword := keywordList[keywordIndex];
    var fullQuery := FullQuery(currentKeyword, citta, paese);
    var page := o.search(fullQuery, Location(citta, paese), nextPageToken);
    var businesses := page.businesses;
    fetched' := fetched + businesses;
    nextPageToken' := page.next;
    keywordIndex' := keywordIndex;

    if businesses == [] {
      leads', found' := leads, found;
      keywordIndex' := keywordIndex' + 1;
      nextPageToken' := None;
    } else {
      leads', found' := CollectPage(o, official, businesses, leads, found, target);
      if !Truthy(nextPageToken') {
        keywordIndex' := keywordIndex' + 1;
        nextPageToken' := None;
      }
    }

    assert keywordIndex' == NextIndex(page, keywordIndex) && nextPageToken' == NextToken(page);
    CollectedStep(o, official, fetched, businesses, leads, found, leads', found', target);
    FetchedStep(o, keywordList, citta, paese, keywordIndex, nextPageToken, fuel, page, fetched);
  }

  /** The `while` loop of `imprese_senza_sito` over the parsed keywords:
      the records gathered are the first `target` of all the pages would give. */
  method SearchLoop(o: Oracles, official: WebsiteTest, keywordList: seq<string>, citta: string, paese: string,
                    target: int, fuel: nat)
    returns (leads: seq<Lead>)
    ensures leads == Take(LeadsOf(o, official, Fetched(o, keywordList, citta, paese, 0, None, fuel)), target)
  {
    var found := 0;
    var nextPageToken: Option<string> := None;
    leads := [];
    var keywordIndex: nat := 0;
    var fuelLeft := fuel;
    ghost var fetched: seq<Business> := [];
    ghost var all := Fetched(o, keywordList, citta, paese, 0, None, fuel);
    CollectedStart(o, official, target);
    assert all == fetched + all;

    while found < target && keywordIndex < |keywordList| && fuelLeft > 0
      invariant all == fetched + Fetched(o, keywordList, citta, paese, keywordIndex, nextPageToken, fuelLeft)
      invariant Collected(o, official, fetched, leads, found, target)
      decreases fuelLeft
    {
      leads, found, keywordIndex, nextPageToken, fetched :=
        SearchStep(o, official, keywordList, citta, paese, keywordIndex, nextPageToken, leads, found, target,
                   all, fetched, fuelLeft);
      fuelLeft := fuelLeft - 1;
    }
    SearchDone(o, official, keywordList, citta, paese, keywordIndex, nextPageToken, fuelLeft,
               fetched, leads, found, target);
  }

  /** `imprese_senza_sito(paese, città, target, keywords)`, returning the
      records it responds with: the first `target` records the pages give,
      none with the business's own website, each with its message. */
  method ImpreseSenzaSito(o: Oracles, paese: string, citta: string, target: int,
                          keywords: string, fuel: nat)
    returns (leads: seq<Lead>)
    ensures target <= 0 ==> leads == []
    ensures |leads| <= target || leads == []
    ensures forall i :: 0 <= i < |leads| ==> Collectable(o, IsOfficialWebsite, leads[i])
    ensures leads == Take(LeadsOf(o, IsOfficialWebsite, Fetched(o, ParseKeywords(keywords), citta, paese, 0, None, fuel)), target)
  {
    var keywordList := ParseKeywords(keywords);
    leads := SearchLoop(o, IsOfficialWebsite, keywordList, citta, paese, target, fuel);
    TakeCollectable(o, IsOfficialWebsite, Fetched(o, keywordList, citta, paese, 0, None, fuel), target);
  }
}
